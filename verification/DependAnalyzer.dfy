/** The analyser itself: it walks the syntax with finite states, keeps a stack of loop
    flows and its tables in place, and iterates every loop until the head stops
    changing. It terminates, and computes exactly the meaning. */
module DependAnalyzer {
  import opened Options
  import opened DependSyntax
  import opened DependMeaning
  import opened DependMonotone
  import opened DependBounded
  import DependReach
  import DependRuns
  import DependSound
  import DependUnder

  /** A program point as the analyser keeps it. The values of an unreachable point
      are never read, so they are not kept. */
  datatype Point = Unreachable | Reachable(slots: set<Slot>)

  datatype LoopFlow = LoopFlow(breaks: Option<Point>, continues: Option<Point>, value: set<Fact>)

  const NO_FLOW := LoopFlow(None, None, {})

  // ----- the abstraction -----

  ghost function Inf<T(!new)>(s: set<T>): iset<T> {
    iset x | x in s
  }

  ghost function Abs(p: Point): State {
    if p.Unreachable? then Dead else Live(Inf(p.slots))
  }

  ghost function AbsOption(p: Option<Point>): State {
    if p.None? then Dead else Abs(p.value)
  }

  ghost function AbsFlow(f: LoopFlow): Flow {
    Flow(AbsOption(f.breaks), AbsOption(f.continues), Inf(f.value))
  }

  // ----- operations on points and values -----

  /** `State::merge` */
  function Merge(a: Point, b: Point): (r: Point)
    ensures Abs(r) == Join(Abs(a), Abs(b))
  {
    if a.Unreachable? then b
    else if b.Unreachable? then a
    else
      assert Inf(a.slots + b.slots) == Inf(a.slots) + Inf(b.slots);
      Reachable(a.slots + b.slots)
  }

  function MergeOption(a: Option<Point>, b: Point): (r: Option<Point>)
    ensures r.Some? && AbsOption(r) == Join(AbsOption(a), Abs(b))
  {
    if a.Some? then Some(Merge(a.value, b)) else Some(b)
  }

  function Slots(p: Point): set<Slot> {
    if p.Unreachable? then {} else p.slots
  }

  /** `read_binding` */
  function ReadBinding(id: nat, p: Point, occurrence: Range): (r: set<Fact>)
    ensures Inf(r) == Read(id, Abs(p), occurrence)
  {
    var stored := set s | s in Slots(p) && s.0 == id :: s.1;
    var again := set s | s in Slots(p) && s.0 == id && s.1.Data? :: Data(s.1.id, occurrence);
    assert forall f :: f in stored <==> (id, f) in Slots(p);
    assert forall f :: f in again <==>
                         f.Data? && f.occurrence == occurrence && exists r :: (id, Data(f.id, r)) in Slots(p) by {
      AgainIs(id, Slots(p), occurrence);
    }
    {Data(id, occurrence)} + stored + again
  }

  lemma AgainIs(id: nat, slots: set<Slot>, occurrence: Range)
    ensures forall f :: f in (set s | s in slots && s.0 == id && s.1.Data? :: Data(s.1.id, occurrence))
                   <==> f.Data? && f.occurrence == occurrence && exists r :: (id, Data(f.id, r)) in slots
  {
    forall f: Fact | f.Data? && f.occurrence == occurrence && exists r :: (id, Data(f.id, r)) in slots
      ensures f in (set s | s in slots && s.0 == id && s.1.Data? :: Data(s.1.id, occurrence))
    {
      var r :| (id, Data(f.id, r)) in slots;
      var s := (id, Data(f.id, r));
      assert s in slots && s.0 == id && s.1.Data? && Data(s.1.id, occurrence) == f;
    }
    forall f | f in (set s | s in slots && s.0 == id && s.1.Data? :: Data(s.1.id, occurrence))
      ensures f.Data? && f.occurrence == occurrence && exists r :: (id, Data(f.id, r)) in slots
    {
      var s :| s in slots && s.0 == id && s.1.Data? && f == Data(s.1.id, occurrence);
      assert s == (id, Data(f.id, s.1.occurrence));
    }
  }

  /** `store_binding`: the old value is replaced. */
  function StoreBinding(p: Point, id: nat, value: set<Fact>): (r: Point)
    ensures Abs(r) == Store(Abs(p), id, Inf(value))
  {
    if p.Unreachable? then p
    else
      var slots := (set s | s in p.slots && s.0 != id) + (set f | f in value :: (id, f));
      assert forall s :: s in slots <==> if s.0 == id then s.1 in value else s in p.slots;
      assert Inf(slots) == Store(Abs(p), id, Inf(value)).slots;
      Reachable(slots)
  }

  function AddFacts(p: Point, id: nat, value: set<Fact>): (r: Point)
    ensures Abs(r) == Add(Abs(p), id, Inf(value))
  {
    if p.Unreachable? then p
    else
      var slots := p.slots + (set f | f in value :: (id, f));
      assert forall s :: s in slots <==> s in p.slots || (s.0 == id && s.1 in value);
      assert Inf(slots) == Add(Abs(p), id, Inf(value)).slots;
      Reachable(slots)
  }

  function ControlSet(value: set<Fact>): (r: set<ControlKey>)
    ensures Inf(r) == Controls(Inf(value))
  {
    var keys := set f | f in value && f.Control? :: f.key;
    assert forall k :: k in keys <==> Control(k) in value;
    keys
  }

  function KeyFacts(keys: set<ControlKey>): (r: set<Fact>)
    ensures Inf(r) == AsFacts(Inf(keys))
  {
    set k | k in keys :: Control(k)
  }

  function Inner(active: set<ControlKey>, value: set<Fact>, key: ControlKey): (r: set<ControlKey>)
    ensures Inf(r) == Narrow(Inf(active), Inf(value), key)
  {
    active + ControlSet(value) + {key}
  }

  function LiteralSet(value: set<Fact>): (r: set<Fact>)
    ensures Inf(r) == Literals(Inf(value))
  {
    set f | f in value && f.Literal?
  }

  function PassArgument(text: string, value: set<Fact>): (r: set<Fact>)
    ensures Inf(r) == Passed(text, Inf(value))
  {
    var plain := set f | f in value && !f.Literal?;
    var related := set f | f in value && f.Literal? :: Literal(Related(text, f.literal));
    assert forall f :: f in related ==> f.Literal? && exists l :: Literal(l) in value && f.literal == Related(text, l);
    assert forall f: Fact, l | f.Literal? && Literal(l) in value && f.literal == Related(text, l) :: f in related by {
      forall f: Fact, l | f.Literal? && Literal(l) in value && f.literal == Related(text, l)
        ensures f in related
      {
        var g := Literal(l);
        assert g in value && g.Literal? && f == Literal(Related(text, g.literal));
      }
    }
    plain + related
  }

  function CompareLiterals(text: string, condition: string, value: set<Fact>): (r: set<Fact>)
    ensures Inf(r) == Compared(text, condition, Inf(value))
  {
    var related := set f | f in value && f.Literal? :: Literal(ComparedTo(text, condition, f.literal));
    assert forall f :: f in related ==>
             f.Literal? && exists l :: Literal(l) in value && f.literal == ComparedTo(text, condition, l);
    assert forall f: Fact, l | f.Literal? && Literal(l) in value
             && f.literal == ComparedTo(text, condition, l) :: f in related by {
      forall f: Fact, l | f.Literal? && Literal(l) in value && f.literal == ComparedTo(text, condition, l)
        ensures f in related
      {
        var g := Literal(l);
        assert g in value && g.Literal? && f == Literal(ComparedTo(text, condition, g.literal));
      }
    }
    related
  }

  function ControlEntries(key: ControlKey, value: set<Fact>): (r: set<Record>)
    ensures Inf(r) == ControlRecords(key, Inf(value))
  {
    {ControlSeen(key)} + set f | f in value && !f.Control? :: ControlHas(key, f)
  }

  function ExitEntries(exit: ExitKey, value: set<Fact>): (r: set<Record>)
    ensures Inf(r) == ExitRecords(exit, Inf(value))
  {
    {ExitSeen(exit)} + set f | f in value :: ExitHas(exit, f)
  }

  lemma InfUnion<T(!new)>(a: set<T>, b: set<T>)
    ensures Inf(a + b) == Inf(a) + Inf(b)
  {
  }

  // ----- what a call does to the analyser's own fields -----

  /** The flow went to the innermost loop, if there is one, and the records were added. */
  ghost predicate Did(l0: seq<LoopFlow>, r0: set<Record>, l1: seq<LoopFlow>, r1: set<Record>, flow: Flow,
                      records: iset<Record>) {
    && |l1| == |l0|
    && Inf(r1) == Inf(r0) + records
    && (l0 != [] ==>
          && l1[..|l1| - 1] == l0[..|l0| - 1]
          && (ValueNeedsBreak(l0[|l0| - 1]) ==> ValueNeedsBreak(l1[|l1| - 1]))
          && AbsFlow(l1[|l1| - 1]) == JoinFlow(AbsFlow(l0[|l0| - 1]), flow))
  }

  ghost predicate ValueNeedsBreak(f: LoopFlow) {
    f.breaks.None? ==> f.value == {}
  }

  ghost predicate DidOut(l0: seq<LoopFlow>, r0: set<Record>, l1: seq<LoopFlow>, r1: set<Record>, o: Out) {
    Did(l0, r0, l1, r1, o.flow, o.records)
  }

  lemma JoinFlowAssociative(a: Flow, b: Flow, c: Flow)
    ensures JoinFlow(JoinFlow(a, b), c) == JoinFlow(a, JoinFlow(b, c))
  {
    assert (a.value + b.value) + c.value == a.value + (b.value + c.value);
    JoinAssociative(a.breaks, b.breaks, c.breaks);
    JoinAssociative(a.continues, b.continues, c.continues);
  }

  lemma JoinAssociative(a: State, b: State, c: State)
    ensures Join(Join(a, b), c) == Join(a, Join(b, c))
  {
    if a.Live? && b.Live? && c.Live? {
      assert (a.slots + b.slots) + c.slots == a.slots + (b.slots + c.slots);
    }
  }

  lemma DidNothing(l: seq<LoopFlow>, r: set<Record>)
    ensures Did(l, r, l, r, NoFlow(), iset{})
  {
    if l != [] {
      var f := AbsFlow(l[|l| - 1]);
      assert f.value + iset{} == f.value;
    }
  }

  lemma Chain(l0: seq<LoopFlow>, r0: set<Record>, l1: seq<LoopFlow>, r1: set<Record>, l2: seq<LoopFlow>,
              r2: set<Record>, a: Out, b: Out)
    requires DidOut(l0, r0, l1, r1, a) && DidOut(l1, r1, l2, r2, b)
    ensures DidOut(l0, r0, l2, r2, Then(a, b))
  {
    if l0 != [] {
      JoinFlowAssociative(AbsFlow(l0[|l0| - 1]), a.flow, b.flow);
    }
  }

  lemma Recorded(l0: seq<LoopFlow>, r0: set<Record>, l1: seq<LoopFlow>, r1: set<Record>, o: Out, more: set<Record>)
    requires DidOut(l0, r0, l1, r1, o)
    ensures DidOut(l0, r0, l1, r1 + more, Recording(o, Inf(more)))
  {
    InfUnion(r1, more);
    assert (Inf(r0) + o.records) + Inf(more) == Inf(r0) + (o.records + Inf(more));
  }

  // ----- iterating to a fixpoint -----

  /** Accumulated effects: at least what was there, at most what one pass adds. */
  ghost predicate Within(l0: seq<LoopFlow>, r0: set<Record>, l1: seq<LoopFlow>, r1: set<Record>, o: Out) {
    && |l1| == |l0|
    && Inf(r0) <= Inf(r1) <= Inf(r0) + o.records
    && (l0 != [] ==>
          && l1[..|l1| - 1] == l0[..|l0| - 1]
          && (ValueNeedsBreak(l0[|l0| - 1]) ==> ValueNeedsBreak(l1[|l1| - 1]))
          && LeqFlow(AbsFlow(l0[|l0| - 1]), AbsFlow(l1[|l1| - 1]))
          && LeqFlow(AbsFlow(l1[|l1| - 1]), JoinFlow(AbsFlow(l0[|l0| - 1]), o.flow)))
  }

  lemma FlowAntisymmetric(a: Flow, b: Flow)
    requires LeqFlow(a, b) && LeqFlow(b, a)
    ensures a == b
  {
    assert a.value == b.value;
    StateAntisymmetric(a.breaks, b.breaks);
    StateAntisymmetric(a.continues, b.continues);
  }

  /** One more pass on top of smaller ones leaves exactly that pass. */
  lemma LastPassCounts(l0: seq<LoopFlow>, r0: set<Record>, l1: seq<LoopFlow>, r1: set<Record>, l2: seq<LoopFlow>,
                       r2: set<Record>, o: Out)
    requires Within(l0, r0, l1, r1, o) && DidOut(l1, r1, l2, r2, o)
    ensures DidOut(l0, r0, l2, r2, o)
  {
    assert Inf(r2) == Inf(r0) + o.records;
    if l0 != [] {
      var f0, f1 := AbsFlow(l0[|l0| - 1]), AbsFlow(l1[|l1| - 1]);
      FlowAntisymmetric(JoinFlow(f1, o.flow), JoinFlow(f0, o.flow));
    }
  }

  lemma PassesGrow(l0: seq<LoopFlow>, r0: set<Record>, l1: seq<LoopFlow>, r1: set<Record>, o: Out, o': Out)
    requires DidOut(l0, r0, l1, r1, o) && LeqFlow(o.flow, o'.flow) && o.records <= o'.records
    ensures Within(l0, r0, l1, r1, o')
  {
  }

  lemma NothingYet(l: seq<LoopFlow>, r: set<Record>, o: Out)
    ensures Within(l, r, l, r, o)
  {
  }

  /** Where the iteration stands: between the entry state and the least fixpoint, and
      below its own successor. */
  ghost predicate Rising(e: Expr, v: Facts, entry: iset<Slot>, k: Keys, h: iset<Slot>) {
    IsLoop(e) && h <= Head(e, v, entry, k) && h <= Next(e, v, entry, k, h)
  }

  lemma RisingStarts(e: Expr, v: Facts, entry: iset<Slot>, k: Keys)
    requires IsLoop(e)
    ensures Rising(e, v, entry, k, entry)
  {
    HeadIsFixpoint(e, v, entry, k);
  }

  lemma RisingContinues(e: Expr, v: Facts, entry: iset<Slot>, k: Keys, h: iset<Slot>)
    requires Rising(e, v, entry, k, h)
    ensures Rising(e, v, entry, k, Next(e, v, entry, k, h))
    ensures Next(e, v, entry, k, h) == h ==> h == Head(e, v, entry, k)
  {
    HeadIsFixpoint(e, v, entry, k);
    NextMono(e, v, v, entry, entry, h, Head(e, v, entry, k), k, k);
    NextMono(e, v, v, entry, entry, h, Next(e, v, entry, k, h), k, k);
    if Next(e, v, entry, k, h) == h {
      HeadIsLeast(e, v, entry, k, h);
    }
  }

  /** The iteration has room to grow: the termination measure of every loop. */
  lemma RisingHasRoom(u: Universe, e: Expr, v: Facts, entry: iset<Slot>, k: Keys, h: set<Slot>, next: set<Slot>)
    requires Rising(e, v, entry, k, Inf(h)) && Inf(next) == Next(e, v, entry, k, Inf(h))
    requires Sub(Atoms(e), u) && FactsIn(u, v) && entry <= Everything(u) && KeysIn(u, k)
    ensures |h| <= |SlotSet(u)|
    ensures next != h ==> |h| < |next| <= |SlotSet(u)|
  {
    HeadIn(u, e, v, entry, k);
    RisingContinues(e, v, entry, k, Inf(h));
    SlotSetHasAll(u, h);
    SlotSetHasAll(u, next);
    assert h <= next by {
      assert forall s :: s in h ==> s in Inf(h);
    }
    assert next == h + (next - h);
  }

  /** What one pass of a loop contributes: its breaks, as state and value, and its effects. */
  ghost function Contribution(e: Expr, v: Facts, h: iset<Slot>, k: Keys): Out
    requires IsLoop(e)
  {
    var b := Pass(e, v, h, k);
    if e.While? then
      var t := Test(e, h, k);
      Out(b.flow.value, b.flow.breaks, t.flow, t.records + b.records + ControlRecords(e.key, t.value))
    else
      Out(b.flow.value, b.flow.breaks, NoFlow(), b.records)
  }

  lemma ContributionMono(e: Expr, v: Facts, h: iset<Slot>, h': iset<Slot>, k: Keys)
    requires IsLoop(e) && h <= h'
    ensures Leq(Contribution(e, v, h, k), Contribution(e, v, h', k))
  {
    PassMono(e, v, v, h, h', k, k);
    TestMono(e, h, h', k, k);
  }

  /** A merge of a smaller state into a larger one gives the larger one. */
  lemma JoinAbsorbs(a: State, b: State)
    requires LeqState(a, b)
    ensures Join(a, b) == b
  {
    StateAntisymmetric(Join(a, b), b);
  }

  // ----- the walk -----

  class Analyzer {
    var loops: seq<LoopFlow>
    var records: set<Record>

    constructor ()
      ensures loops == [] && records == {}
    {
      loops, records := [], {};
    }

    method BindPattern(pattern: Pattern, value: set<Fact>, st: Point) returns (r: Point)
      ensures Abs(r) == Bind(pattern, Inf(value), Abs(st))
    {
      r := st;
      for i := 0 to |pattern|
        invariant Bind(pattern[i..], Inf(value), Abs(r)) == Bind(pattern, Inf(value), Abs(st))
      {
        var b := pattern[i];
        var bound := value + if b.bare then {Unknown(BarePattern)} else {};
        assert Inf(bound) == Bound(b, Inf(value));
        assert pattern[i..][0] == b && pattern[i..][1..] == pattern[i + 1..];
        r := StoreBinding(r, b.id, bound);
      }
    }

    method AnalyzeExpr(e: Expr, st: Point, active: set<ControlKey>, ghost u: Universe)
      returns (value: set<Fact>, st': Point)
      requires Sub(Atoms(e), u) && StateIn(u, Abs(st)) && KeysIn(u, Inf(active))
      modifies this
      ensures Inf(value) == Eval(e, Abs(st), Inf(active)).value && Abs(st') == Eval(e, Abs(st), Inf(active)).state
      ensures DidOut(old(loops), old(records), loops, records, Eval(e, Abs(st), Inf(active)))
      ensures FactsIn(u, Inf(value)) && StateIn(u, Abs(st'))
      decreases e, 4
    {
      EvalIn(u, e, Abs(st), Inf(active));
      if st.Unreachable? {
        DidNothing(loops, records);
        return {}, st;
      }
      value, st' := AnalyzeKind(e, st, active, u);
      InfUnion(value, KeyFacts(active));
      value := value + KeyFacts(active);
    }

    method AnalyzeOption(e: Option<Expr>, st: Point, active: set<ControlKey>, ghost u: Universe)
      returns (value: set<Fact>, st': Point)
      requires Sub(AtomsOption(e), u) && StateIn(u, Abs(st)) && KeysIn(u, Inf(active))
      modifies this
      ensures Inf(value) == EvalOption(e, Abs(st), Inf(active)).value
      ensures Abs(st') == EvalOption(e, Abs(st), Inf(active)).state
      ensures DidOut(old(loops), old(records), loops, records, EvalOption(e, Abs(st), Inf(active)))
      ensures FactsIn(u, Inf(value)) && StateIn(u, Abs(st'))
      decreases e, 5
    {
      match e
      case None =>
        DidNothing(loops, records);
        return {}, st;
      case Some(x) =>
        value, st' := AnalyzeExpr(x, st, active, u);
    }

    method AnalyzeKind(e: Expr, st: Point, active: set<ControlKey>, ghost u: Universe)
      returns (value: set<Fact>, st': Point)
      requires Sub(Atoms(e), u) && StateIn(u, Abs(st)) && KeysIn(u, Inf(active)) && st.Reachable?
      modifies this
      ensures Inf(value) == EvalKind(e, Abs(st), Inf(active)).value
      ensures Abs(st') == EvalKind(e, Abs(st), Inf(active)).state
      ensures DidOut(old(loops), old(records), loops, records, EvalKind(e, Abs(st), Inf(active)))
      decreases e, 3
    {
      match e
      case Constant(span, known) =>
        DidNothing(loops, records);
        value, st' := if known then {Literal(LiteralFact(span, None, None, false))} else {}, st;
      case Path(span, binding, why) =>
        DidNothing(loops, records);
        value, st' := if binding.Some? then ReadBinding(binding.value, st, span) else {Unknown(why)}, st;
      case Opaque(why) =>
        DidNothing(loops, records);
        value, st' := {Unknown(why)}, st;
      case Group(parts) => value, st' := AnalyzeMany(parts, st, active, u);
      case Call(_, _, _) => value, st' := AnalyzeCall(e, st, active, u);
      case MethodCall(_, _, _, _, _) => value, st' := AnalyzeMethodCall(e, st, active, u);
      case Binary(_, _, _, _, _, _, _) => value, st' := AnalyzeBinary(e, st, active, u);
      case Assign(_, _, _, _) => value, st' := AnalyzeAssignment(e, st, active, u);
      case If(_, _, _, _, _) => value, st' := AnalyzeIf(e, st, active, u);
      case While(_, _, _, _) => value, st' := AnalyzeWhile(e, st, active, u);
      case Loop(_) => value, st' := AnalyzeLoop(e, st, active, u);
      case For(_, _, _, _) => value, st' := AnalyzeFor(e, st, active, u);
      case Match(_, _) => value, st' := AnalyzeMatch(e, st, active, u);
      case Block(stmts) => value, st' := AnalyzeBlock(stmts, st, active, u);
      case Ret(exit, returned) =>
        value, st' := AnalyzeOption(returned, st, active, u);
        Recorded(old(loops), old(records), loops, records, EvalOption(returned, Abs(st), Inf(active)),
                 ExitEntries(exit, value + KeyFacts(active)));
        InfUnion(value, KeyFacts(active));
        records := records + ExitEntries(exit, value + KeyFacts(active));
        value, st' := {}, Unreachable;
      case TryOp(_, _, _) => value, st' := AnalyzeTry(e, st, active, u);
      case Break(_, _) => value, st' := AnalyzeBreak(e, st, active, u);
      case Continue(labeled) =>
        ContinueFlows(loops, records, labeled, st);
        if !labeled && loops != [] {
          var n := |loops| - 1;
          loops := loops[n := loops[n].(continues := MergeOption(loops[n].continues, st))];
        }
        value, st' := {}, Unreachable;
      case Macro(visible) =>
        DidNothing(loops, records);
        st' := MarkVisible(visible, st);
        value := {Unknown(OpaqueMacro)};
    }

    method MarkVisible(visible: seq<nat>, st: Point) returns (r: Point)
      ensures Abs(r) == AddAll(Abs(st), visible, iset{Unknown(MacroMayAssign)})
    {
      r := st;
      assert Inf({Unknown(MacroMayAssign)}) == iset{Unknown(MacroMayAssign)};
      for i := 0 to |visible|
        invariant AddAll(Abs(r), visible[i..], iset{Unknown(MacroMayAssign)})
                    == AddAll(Abs(st), visible, iset{Unknown(MacroMayAssign)})
      {
        assert visible[i..][0] == visible[i] && visible[i..][1..] == visible[i + 1..];
        r := AddFacts(r, visible[i], {Unknown(MacroMayAssign)});
      }
    }

    method AnalyzeMany(es: Exprs, st: Point, active: set<ControlKey>, ghost u: Universe)
      returns (value: set<Fact>, st': Point)
      requires Sub(AtomsMany(es), u) && StateIn(u, Abs(st)) && KeysIn(u, Inf(active))
      modifies this
      ensures Inf(value) == EvalMany(es, Abs(st), Inf(active)).value
      ensures Abs(st') == EvalMany(es, Abs(st), Inf(active)).state
      ensures DidOut(old(loops), old(records), loops, records, EvalMany(es, Abs(st), Inf(active)))
      decreases es
    {
      match es
      case NoExprs =>
        DidNothing(loops, records);
        value, st' := {}, st;
      case MoreExprs(first, others) =>
        var a, mid := AnalyzeExpr(first, st, active, u);
        ghost var l1, r1 := loops, records;
        var b, end := AnalyzeMany(others, mid, active, u);
        Chain(old(loops), old(records), l1, r1, loops, records,
              Eval(first, Abs(st), Inf(active)), EvalMany(others, Abs(mid), Inf(active)));
        InfUnion(a, b);
        value, st' := a + b, end;
    }

    method AnalyzeArgs(es: Exprs, text: string, st: Point, active: set<ControlKey>, ghost u: Universe)
      returns (value: set<Fact>, st': Point)
      requires Sub(AtomsMany(es), u) && StateIn(u, Abs(st)) && KeysIn(u, Inf(active))
      modifies this
      ensures Inf(value) == EvalArgs(es, text, Abs(st), Inf(active)).value
      ensures Abs(st') == EvalArgs(es, text, Abs(st), Inf(active)).state
      ensures DidOut(old(loops), old(records), loops, records, EvalArgs(es, text, Abs(st), Inf(active)))
      decreases es
    {
      match es
      case NoExprs =>
        DidNothing(loops, records);
        value, st' := {}, st;
      case MoreExprs(first, others) =>
        var a, mid := AnalyzeExpr(first, st, active, u);
        ghost var l1, r1 := loops, records;
        var b, end := AnalyzeArgs(others, text, mid, active, u);
        Chain(old(loops), old(records), l1, r1, loops, records,
              Eval(first, Abs(st), Inf(active)), EvalArgs(others, text, Abs(mid), Inf(active)));
        InfUnion(PassArgument(text, a), b);
        value, st' := PassArgument(text, a) + b, end;
    }

    method AnalyzeCall(e: Expr, st: Point, active: set<ControlKey>, ghost u: Universe)
      returns (value: set<Fact>, st': Point)
      requires e.Call? && Sub(Atoms(e), u) && StateIn(u, Abs(st)) && KeysIn(u, Inf(active)) && st.Reachable?
      modifies this
      ensures Inf(value) == EvalKind(e, Abs(st), Inf(active)).value
      ensures Abs(st') == EvalKind(e, Abs(st), Inf(active)).state
      ensures DidOut(old(loops), old(records), loops, records, EvalKind(e, Abs(st), Inf(active)))
      decreases e, 2
    {
      var f, mid := AnalyzeExpr(e.callee, st, active, u);
      ghost var l1, r1 := loops, records;
      var a, end := AnalyzeArgs(e.args, e.text, mid, active, u);
      Chain(old(loops), old(records), l1, r1, loops, records,
            Eval(e.callee, Abs(st), Inf(active)), EvalArgs(e.args, e.text, Abs(mid), Inf(active)));
      InfUnion(f, a);
      value, st' := f + a, end;
    }

    method AnalyzeMethodCall(e: Expr, st: Point, active: set<ControlKey>, ghost u: Universe)
      returns (value: set<Fact>, st': Point)
      requires e.MethodCall? && Sub(Atoms(e), u) && StateIn(u, Abs(st)) && KeysIn(u, Inf(active)) && st.Reachable?
      modifies this
      ensures Inf(value) == EvalKind(e, Abs(st), Inf(active)).value
      ensures Abs(st') == EvalKind(e, Abs(st), Inf(active)).state
      ensures DidOut(old(loops), old(records), loops, records, EvalKind(e, Abs(st), Inf(active)))
      decreases e, 2
    {
      var f, mid := AnalyzeExpr(e.receiver, st, active, u);
      ghost var l1, r1 := loops, records;
      var a, end := AnalyzeArgs(e.args, e.text, mid, active, u);
      Chain(old(loops), old(records), l1, r1, loops, records,
            Eval(e.receiver, Abs(st), Inf(active)), EvalArgs(e.args, e.text, Abs(mid), Inf(active)));
      InfUnion(f, a);
      InfUnion(f + a, {Unknown(e.why)});
      assert Inf({Unknown(e.why)}) == iset{Unknown(e.why)};
      value := f + a + {Unknown(e.why)};
      st' := if e.target.Some? then AddFacts(end, e.target.value, LiteralSet(a)) else end;
    }

    method AnalyzeBinary(e: Expr, st: Point, active: set<ControlKey>, ghost u: Universe)
      returns (value: set<Fact>, st': Point)
      requires e.Binary? && Sub(Atoms(e), u) && StateIn(u, Abs(st)) && KeysIn(u, Inf(active)) && st.Reachable?
      modifies this
      ensures Inf(value) == EvalKind(e, Abs(st), Inf(active)).value
      ensures Abs(st') == EvalKind(e, Abs(st), Inf(active)).state
      ensures DidOut(old(loops), old(records), loops, records, EvalKind(e, Abs(st), Inf(active)))
      decreases e, 2
    {
      var l, mid := AnalyzeExpr(e.left, st, active, u);
      ghost var left := Eval(e.left, Abs(st), Inf(active));
      ghost var l1, r1 := loops, records;
      if e.op.Lazy? {
        var inner := Inner(active, l, e.key);
        NarrowIn(u, Inf(active), Inf(l), e.key);
        var r, end := AnalyzeExpr(e.right, mid, inner, u);
        ghost var right := Eval(e.right, Abs(mid), Inf(inner));
        Chain(old(loops), old(records), l1, r1, loops, records, left, right);
        Recorded(old(loops), old(records), loops, records, Then(left, right), ControlEntries(e.key, l));
        records := records + ControlEntries(e.key, l);
        InfUnion(l, r);
        value, st' := l + r, Merge(mid, end);
      } else {
        var r, end := AnalyzeExpr(e.right, mid, active, u);
        Chain(old(loops), old(records), l1, r1, loops, records, left, Eval(e.right, Abs(mid), Inf(active)));
        var fromLeft, fromRight := CompareLiterals(e.rightText, e.condition, l),
            CompareLiterals(e.leftText, e.condition, r);
        var related := if e.op.Comparison? then fromLeft + fromRight else {};
        InfUnion(fromLeft, fromRight);
        InfUnion(l, r);
        InfUnion(l + r, related);
        value, st' := l + r + related, end;
      }
    }

    method AnalyzePlace(place: Place, st: Point, active: set<ControlKey>, ghost u: Universe)
      returns (value: set<Fact>, st': Point)
      requires Sub(AtomsPlace(place), u) && StateIn(u, Abs(st)) && KeysIn(u, Inf(active))
      modifies this
      ensures Inf(value) == EvalPlace(place, Abs(st), Inf(active)).value
      ensures Abs(st') == EvalPlace(place, Abs(st), Inf(active)).state
      ensures DidOut(old(loops), old(records), loops, records, EvalPlace(place, Abs(st), Inf(active)))
      ensures StateIn(u, Abs(st'))
      decreases place, 5
    {
      PlaceIn(u, place, Abs(st), Inf(active));
      match place
      case Named(_, _) =>
        DidNothing(loops, records);
        value, st' := {}, st;
      case Unnamed(_, why) =>
        DidNothing(loops, records);
        value, st' := {Unknown(why)}, st;
      case Field(_, base) =>
        var b, end := AnalyzePlace(base, st, active, u);
        var read := if Target(base).Some? then ReadBinding(Target(base).value, end, base.span) else {};
        InfUnion(b, read);
        value, st' := b + read, end;
      case Indexed(_, base, index) =>
        var b, mid := AnalyzePlace(base, st, active, u);
        ghost var l1, r1 := loops, records;
        var i, end := AnalyzeExpr(index, mid, active, u);
        Chain(old(loops), old(records), l1, r1, loops, records,
              EvalPlace(base, Abs(st), Inf(active)), Eval(index, Abs(mid), Inf(active)));
        var read := if Target(base).Some? then ReadBinding(Target(base).value, end, base.span) else {};
        InfUnion(b, i);
        InfUnion(b + i, read);
        value, st' := b + i + read, end;
      case Other(_, expr, why) =>
        value, st' := AnalyzeExpr(expr, st, active, u);
        InfUnion(value, {Unknown(why)});
        value := value + {Unknown(why)};
    }

    method AnalyzeAssignment(e: Expr, st: Point, active: set<ControlKey>, ghost u: Universe)
      returns (value: set<Fact>, st': Point)
      requires e.Assign? && Sub(Atoms(e), u) && StateIn(u, Abs(st)) && KeysIn(u, Inf(active)) && st.Reachable?
      modifies this
      ensures Inf(value) == EvalKind(e, Abs(st), Inf(active)).value
      ensures Abs(st') == EvalKind(e, Abs(st), Inf(active)).state
      ensures DidOut(old(loops), old(records), loops, records, EvalKind(e, Abs(st), Inf(active)))
      decreases e, 2
    {
      var p, mid := AnalyzePlace(e.place, st, active, u);
      ghost var l1, r1 := loops, records;
      var r, end := AnalyzeExpr(e.rhs, mid, active, u);
      ghost var place, rhs := EvalPlace(e.place, Abs(st), Inf(active)), Eval(e.rhs, Abs(mid), Inf(active));
      Chain(old(loops), old(records), l1, r1, loops, records, place, rhs);
      value, st' := {}, end;
      if Target(e.place).Some? {
        var id := Target(e.place).value;
        var stored := r + p + KeyFacts(active);
        InfUnion(r, p);
        InfUnion(r + p, KeyFacts(active));
        if e.compound || !Direct(e.place) {
          InfUnion(stored, ReadBinding(id, end, e.place.span));
          stored := stored + ReadBinding(id, end, e.place.span);
        }
        Recorded(old(loops), old(records), loops, records, Then(place, rhs), {AssignedAt(id, e.site)});
        assert Inf({AssignedAt(id, e.site)}) == iset{AssignedAt(id, e.site)};
        records := records + {AssignedAt(id, e.site)};
        st' := StoreBinding(end, id, stored);
      }
    }

    method AnalyzeIf(e: Expr, st: Point, active: set<ControlKey>, ghost u: Universe)
      returns (value: set<Fact>, st': Point)
      requires e.If? && Sub(Atoms(e), u) && StateIn(u, Abs(st)) && KeysIn(u, Inf(active)) && st.Reachable?
      modifies this
      ensures Inf(value) == EvalKind(e, Abs(st), Inf(active)).value
      ensures Abs(st') == EvalKind(e, Abs(st), Inf(active)).state
      ensures DidOut(old(loops), old(records), loops, records, EvalKind(e, Abs(st), Inf(active)))
      decreases e, 2
    {
      var c, tested := AnalyzeExpr(e.cond, st, active, u);
      ghost var l1, r1, cond := loops, records, Eval(e.cond, Abs(st), Inf(active));
      var inner := Inner(active, c, e.key);
      NarrowIn(u, Inf(active), Inf(c), e.key);
      var bound := BindPattern(e.pattern, c, tested);
      BindIn(u, e.pattern, Inf(c), Abs(tested));
      var t, thenEnd := AnalyzeBlock(e.thenBlock, bound, inner, u);
      ghost var l2, r2, thenOut := loops, records, EvalStmts(e.thenBlock, Abs(bound), Inf(inner));
      var o, elseEnd := AnalyzeOption(e.otherwise, tested, inner, u);
      ghost var elseOut := EvalOption(e.otherwise, Abs(tested), Inf(inner));
      Chain(l1, r1, l2, r2, loops, records, thenOut, elseOut);
      Chain(old(loops), old(records), l1, r1, loops, records, cond, Then(thenOut, elseOut));
      Recorded(old(loops), old(records), loops, records, Then(cond, Then(thenOut, elseOut)), ControlEntries(e.key, c));
      records := records + ControlEntries(e.key, c);
      InfUnion(t, o);
      value, st' := t + o, Merge(thenEnd, elseEnd);
    }

    method AnalyzeMatch(e: Expr, st: Point, active: set<ControlKey>, ghost u: Universe)
      returns (value: set<Fact>, st': Point)
      requires e.Match? && Sub(Atoms(e), u) && StateIn(u, Abs(st)) && KeysIn(u, Inf(active)) && st.Reachable?
      modifies this
      ensures Inf(value) == EvalKind(e, Abs(st), Inf(active)).value
      ensures Abs(st') == EvalKind(e, Abs(st), Inf(active)).state
      ensures DidOut(old(loops), old(records), loops, records, EvalKind(e, Abs(st), Inf(active)))
      decreases e, 2
    {
      var s, base := AnalyzeExpr(e.scrutinee, st, active, u);
      ghost var l1, r1 := loops, records;
      var joined: Option<Point>;
      value, joined := AnalyzeArms(e.arms, s, base, active, u);
      Chain(old(loops), old(records), l1, r1, loops, records,
            Eval(e.scrutinee, Abs(st), Inf(active)), EvalArms(e.arms, Inf(s), Abs(base), Inf(active)));
      st' := if joined.Some? then joined.value else base;
    }

    method AnalyzeArms(arms: Arms, s: set<Fact>, base: Point, active: set<ControlKey>, ghost u: Universe)
        returns (value: set<Fact>, joined: Option<Point>)
      requires Sub(AtomsArms(arms), u) && FactsIn(u, Inf(s)) && StateIn(u, Abs(base)) && KeysIn(u, Inf(active))
      modifies this
      ensures joined.None? <==> arms.NoArms?
      ensures Inf(value) == EvalArms(arms, Inf(s), Abs(base), Inf(active)).value
      ensures AbsOption(joined) == EvalArms(arms, Inf(s), Abs(base), Inf(active)).state
      ensures DidOut(old(loops), old(records), loops, records, EvalArms(arms, Inf(s), Abs(base), Inf(active)))
      decreases arms, 6
    {
      match arms
      case NoArms =>
        DidNothing(loops, records);
        value, joined := {}, None;
      case MoreArms(arm, later) =>
        var a, armEnd := AnalyzeArm(arm, s, base, active, u);
        ghost var l1, r1 := loops, records;
        var b, others := AnalyzeArms(later, s, base, active, u);
        Chain(old(loops), old(records), l1, r1, loops, records,
              EvalArm(arm, Inf(s), Abs(base), Inf(active)), EvalArms(later, Inf(s), Abs(base), Inf(active)));
        InfUnion(a, b);
        value := a + b;
        joined := Some(if others.Some? then Merge(armEnd, others.value) else armEnd);
    }

    method AnalyzeArm(arm: Arm, s: set<Fact>, base: Point, active: set<ControlKey>, ghost u: Universe)
      returns (value: set<Fact>, st': Point)
      requires Sub(AtomsArm(arm), u) && FactsIn(u, Inf(s)) && StateIn(u, Abs(base)) && KeysIn(u, Inf(active))
      modifies this
      ensures Inf(value) == EvalArm(arm, Inf(s), Abs(base), Inf(active)).value
      ensures Abs(st') == EvalArm(arm, Inf(s), Abs(base), Inf(active)).state
      ensures DidOut(old(loops), old(records), loops, records, EvalArm(arm, Inf(s), Abs(base), Inf(active)))
      decreases arm, 6
    {
      var bound := BindPattern(arm.pattern, s, base);
      BindIn(u, arm.pattern, Inf(s), Abs(base));
      var inner := Inner(active, s, arm.key);
      NarrowIn(u, Inf(active), Inf(s), arm.key);
      ghost var o: Out;
      match arm.guard {
      case None =>
        value, st' := AnalyzeExpr(arm.body, bound, inner, u);
        o := Eval(arm.body, Abs(bound), Inf(inner));
      case Some(guard) =>
        var g, mid := AnalyzeExpr(guard.cond, bound, inner, u);
        ghost var l1, r1, passed := loops, records, Eval(guard.cond, Abs(bound), Inf(inner));
        var innermost := Inner(inner, g, guard.key);
        NarrowIn(u, Inf(inner), Inf(g), guard.key);
        value, st' := AnalyzeExpr(arm.body, mid, innermost, u);
        o := Then(passed, Eval(arm.body, Abs(mid), Inf(innermost)));
        Chain(old(loops), old(records), l1, r1, loops, records, passed, Eval(arm.body, Abs(mid), Inf(innermost)));
        Recorded(old(loops), old(records), loops, records, o, ControlEntries(guard.key, g));
        records := records + ControlEntries(guard.key, g);
        o := Recording(o, ControlRecords(guard.key, Inf(g)));
      }
      var tested := s + set l | l in arm.literals :: Literal(l);
      assert Inf(tested) == Inf(s) + (iset f: Fact | f.Literal? && f.literal in arm.literals);
      Recorded(old(loops), old(records), loops, records, o, ControlEntries(arm.key, tested));
      records := records + ControlEntries(arm.key, tested);
    }

    method AnalyzeTry(e: Expr, st: Point, active: set<ControlKey>, ghost u: Universe)
      returns (value: set<Fact>, st': Point)
      requires e.TryOp? && Sub(Atoms(e), u) && StateIn(u, Abs(st)) && KeysIn(u, Inf(active)) && st.Reachable?
      modifies this
      ensures Inf(value) == EvalKind(e, Abs(st), Inf(active)).value
      ensures Abs(st') == EvalKind(e, Abs(st), Inf(active)).state
      ensures DidOut(old(loops), old(records), loops, records, EvalKind(e, Abs(st), Inf(active)))
      decreases e, 2
    {
      var v, end := AnalyzeExpr(e.inner, st, active, u);
      value, st' := v + {Control(e.key)}, end;
      InfUnion(v, {Control(e.key)});
      assert Inf({Control(e.key)}) == iset{Control(e.key)};
      InfUnion(value, KeyFacts(active));
      var exits := ExitEntries(e.exit, value + KeyFacts(active));
      Recorded(old(loops), old(records), loops, records,
          Eval(e.inner, Abs(st), Inf(active)), ControlEntries(e.key, v) + exits);
      InfUnion(ControlEntries(e.key, v), exits);
      records := records + (ControlEntries(e.key, v) + exits);
    }

    method AnalyzeBreak(e: Expr, st: Point, active: set<ControlKey>, ghost u: Universe)
      returns (value: set<Fact>, st': Point)
      requires e.Break? && Sub(Atoms(e), u) && StateIn(u, Abs(st)) && KeysIn(u, Inf(active)) && st.Reachable?
      modifies this
      ensures Inf(value) == EvalKind(e, Abs(st), Inf(active)).value
      ensures Abs(st') == EvalKind(e, Abs(st), Inf(active)).state
      ensures DidOut(old(loops), old(records), loops, records, EvalKind(e, Abs(st), Inf(active)))
      decreases e, 2
    {
      var v, end := AnalyzeOption(e.carried, st, active, u);
      ghost var l1, r1, o := loops, records, EvalOption(e.carried, Abs(st), Inf(active));
      BreakFlows(loops, records, e.labeled, end, v);
      if !e.labeled && loops != [] {
        var n := |loops| - 1;
        loops := loops[n := loops[n].(breaks := MergeOption(loops[n].breaks, end), value := loops[n].value + v)];
      }
      ghost var sent := if e.labeled then NoFlow() else Flow(Abs(end), Dead, Inf(v));
      Chain(old(loops), old(records), l1, r1, loops, records, o, Out(iset{}, Dead, sent, iset{}));
      value, st' := {}, Unreachable;
    }

    method AnalyzeBlock(stmts: Stmts, st: Point, active: set<ControlKey>, ghost u: Universe)
      returns (value: set<Fact>, st': Point)
      requires Sub(AtomsStmts(stmts), u) && StateIn(u, Abs(st)) && KeysIn(u, Inf(active))
      modifies this
      ensures Inf(value) == EvalStmts(stmts, Abs(st), Inf(active)).value
      ensures Abs(st') == EvalStmts(stmts, Abs(st), Inf(active)).state
      ensures DidOut(old(loops), old(records), loops, records, EvalStmts(stmts, Abs(st), Inf(active)))
      decreases stmts, 6
    {
      if st.Unreachable? || stmts.NoStmts? {
        DidNothing(loops, records);
        return {}, st;
      }
      var a, mid := AnalyzeStmt(stmts.stmt, st, active, u);
      ghost var l1, r1 := loops, records;
      var b, end := AnalyzeBlock(stmts.rest, mid, active, u);
      Chain(old(loops), old(records), l1, r1, loops, records,
            EvalStmt(stmts.stmt, Abs(st), Inf(active)), EvalStmts(stmts.rest, Abs(mid), Inf(active)));
      value, st' := if stmts.rest.NoStmts? then a else b, end;
    }

    method AnalyzeStmt(stmt: Stmt, st: Point, active: set<ControlKey>, ghost u: Universe)
      returns (value: set<Fact>, st': Point)
      requires Sub(AtomsStmt(stmt), u) && StateIn(u, Abs(st)) && KeysIn(u, Inf(active))
      modifies this
      ensures Inf(value) == EvalStmt(stmt, Abs(st), Inf(active)).value
      ensures Abs(st') == EvalStmt(stmt, Abs(st), Inf(active)).state
      ensures DidOut(old(loops), old(records), loops, records, EvalStmt(stmt, Abs(st), Inf(active)))
      ensures StateIn(u, Abs(st'))
      decreases stmt, 6
    {
      StmtIn(u, stmt, Abs(st), Inf(active));
      match stmt
      case LetDecl(pattern) =>
        DidNothing(loops, records);
        assert Inf({Unknown(NoInitializer)}) == iset{Unknown(NoInitializer)};
        st' := BindPattern(pattern, {Unknown(NoInitializer)}, st);
        value := {};
      case LetInit(pattern, init) =>
        var v, mid := AnalyzeExpr(init, st, active, u);
        st' := BindPattern(pattern, v, mid);
        value := {};
      case LetElse(pattern, init, key, diverge) =>
        var v, mid := AnalyzeExpr(init, st, active, u);
        ghost var l1, r1, o := loops, records, Eval(init, Abs(st), Inf(active));
        var inner := Inner(active, v, key);
        NarrowIn(u, Inf(active), Inf(v), key);
        var _, _ := AnalyzeBlock(diverge, mid, inner, u);
        ghost var d := EvalStmts(diverge, Abs(mid), Inf(inner));
        Chain(old(loops), old(records), l1, r1, loops, records, o, d);
        Recorded(old(loops), old(records), loops, records, Then(o, d), ControlEntries(key, v));
        records := records + ControlEntries(key, v);
        InfUnion(v, {Control(key)});
        assert Inf({Control(key)}) == iset{Control(key)};
        st' := BindPattern(pattern, v + {Control(key)}, mid);
        value := {};
      case Run(expr, semi) =>
        var v, end := AnalyzeExpr(expr, st, active, u);
        value, st' := if semi then {} else v, end;
    }

    /** A body under a fresh loop flow, which is taken off the stack again. */
    method AnalyzeBody(body: Stmts, st: Point, active: set<ControlKey>, ghost u: Universe)
      returns (end: Point, flow: LoopFlow)
      requires Sub(AtomsStmts(body), u) && StateIn(u, Abs(st)) && KeysIn(u, Inf(active))
      modifies this
      ensures Abs(end) == EvalStmts(body, Abs(st), Inf(active)).state
      ensures AbsFlow(flow) == EvalStmts(body, Abs(st), Inf(active)).flow
      ensures ValueNeedsBreak(flow)
      ensures loops == old(loops) && Inf(records) == Inf(old(records)) + EvalStmts(body, Abs(st), Inf(active)).records
      decreases body, 7
    {
      loops := loops + [NO_FLOW];
      var _, e := AnalyzeBlock(body, st, active, u);
      end := e;
      flow := loops[|loops| - 1];
      FreshFlow(EvalStmts(body, Abs(st), Inf(active)).flow);
      loops := loops[..|loops| - 1];
    }

    /** One pass of a `while`: the test, then the body. */
    method WhilePass(e: Expr, head: set<Slot>, active: set<ControlKey>, ghost u: Universe)
      returns (tested: Point, end: Point, flow: LoopFlow)
      requires e.While? && Sub(Atoms(e), u) && Inf(head) <= Everything(u) && KeysIn(u, Inf(active))
      modifies this
      ensures Abs(tested) == Test(e, Inf(head), Inf(active)).state
      ensures Abs(end) == Pass(e, iset{}, Inf(head), Inf(active)).state
      ensures AbsFlow(flow) == Pass(e, iset{}, Inf(head), Inf(active)).flow && ValueNeedsBreak(flow)
      ensures DidOut(old(loops), old(records), loops, records, Contribution(e, iset{}, Inf(head), Inf(active)))
      decreases e, 1
    {
      var c, t := AnalyzeExpr(e.cond, Reachable(head), active, u);
      ghost var test := Test(e, Inf(head), Inf(active));
      Recorded(old(loops), old(records), loops, records, test, ControlEntries(e.key, c));
      records := records + ControlEntries(e.key, c);
      ghost var r1 := records;
      var inner := Inner(active, c, e.key);
      NarrowIn(u, Inf(active), Inf(c), e.key);
      var bound := BindPattern(e.pattern, c, t);
      BindIn(u, e.pattern, Inf(c), Abs(t));
      tested := t;
      end, flow := AnalyzeBody(e.body, bound, inner, u);
      ghost var pass := Pass(e, iset{}, Inf(head), Inf(active));
      assert Inf(old(records)) + (test.records + ControlRecords(e.key, test.value)) + pass.records
          == Inf(old(records)) + (test.records + pass.records + ControlRecords(e.key, test.value));
    }

    /** `analyze_while`: passes from growing heads until the head stops changing. */
    method AnalyzeWhile(e: Expr, st: Point, active: set<ControlKey>, ghost u: Universe)
      returns (value: set<Fact>, st': Point)
      requires e.While? && Sub(Atoms(e), u) && StateIn(u, Abs(st)) && KeysIn(u, Inf(active)) && st.Reachable?
      modifies this
      ensures Inf(value) == EvalKind(e, Abs(st), Inf(active)).value
      ensures Abs(st') == EvalKind(e, Abs(st), Inf(active)).state
      ensures DidOut(old(loops), old(records), loops, records, EvalKind(e, Abs(st), Inf(active)))
      decreases e, 2
    {
      ghost var k, entry := Inf(active), Inf(st.slots);
      var head, after, tested, done := st.slots, None, st, false;
      value := {};
      RisingStarts(e, iset{}, entry, k);
      HeadIn(u, e, iset{}, entry, k);
      NothingYet(loops, records, Contribution(e, iset{}, Inf(head), k));
      while !done
        invariant Rising(e, iset{}, entry, k, Inf(head))
        invariant !done ==> Within(old(loops), old(records), loops, records, Contribution(e, iset{}, Inf(head), k))
        invariant LeqState(AbsOption(after), Contribution(e, iset{}, Inf(head), k).state)
        invariant Inf(value) <= Contribution(e, iset{}, Inf(head), k).value
        invariant done ==> Inf(head) == Head(e, iset{}, entry, k) && Abs(tested) == Test(e, Inf(head), k).state
        invariant done ==> DidOut(old(loops), old(records), loops, records, Contribution(e, iset{}, Inf(head), k))
        invariant done ==> AbsOption(after) == Contribution(e, iset{}, Inf(head), k).state
        invariant done ==> Inf(value) == Contribution(e, iset{}, Inf(head), k).value
        decreases !done, |SlotSet(u)| - |head|
      {
        ghost var l1, r1, one := loops, records, Contribution(e, iset{}, Inf(head), k);
        var t, end, flow := WhilePass(e, head, active, u);
        LastPassCounts(old(loops), old(records), l1, r1, loops, records, one);
        tested := t;
        AccumulateBreaks(after, value, flow, one);
        if flow.breaks.Some? {
          after, value := MergeOption(after, flow.breaks.value), value + flow.value;
        }
        var next := NextHead(st.slots, end, flow);
        NextHeadIs(e, iset{}, st.slots, k, head, end, flow);
        RisingContinues(e, iset{}, entry, k, Inf(head));
        RisingHasRoom(u, e, iset{}, entry, k, head, next);
        if next == head {
          done := true;
        } else {
          ContributionMono(e, iset{}, Inf(head), Inf(next), k);
          PassesGrow(old(loops), old(records), loops, records, one, Contribution(e, iset{}, Inf(next), k));
          head := next;
        }
      }
      st' := MergeOption(after, tested).value;
    }

    /** `analyze_loop` */
    method AnalyzeLoop(e: Expr, st: Point, active: set<ControlKey>, ghost u: Universe)
      returns (value: set<Fact>, st': Point)
      requires e.Loop? && Sub(Atoms(e), u) && StateIn(u, Abs(st)) && KeysIn(u, Inf(active)) && st.Reachable?
      modifies this
      ensures Inf(value) == EvalKind(e, Abs(st), Inf(active)).value
      ensures Abs(st') == EvalKind(e, Abs(st), Inf(active)).state
      ensures DidOut(old(loops), old(records), loops, records, EvalKind(e, Abs(st), Inf(active)))
      decreases e, 2
    {
      ghost var k, entry := Inf(active), Inf(st.slots);
      var head, breaks, done := st.slots, None, false;
      value := {};
      RisingStarts(e, iset{}, entry, k);
      HeadIn(u, e, iset{}, entry, k);
      NothingYet(loops, records, Contribution(e, iset{}, Inf(head), k));
      while !done
        invariant Rising(e, iset{}, entry, k, Inf(head))
        invariant !done ==> Within(old(loops), old(records), loops, records, Contribution(e, iset{}, Inf(head), k))
        invariant LeqState(AbsOption(breaks), Contribution(e, iset{}, Inf(head), k).state)
        invariant Inf(value) <= Contribution(e, iset{}, Inf(head), k).value
        invariant done ==> Inf(head) == Head(e, iset{}, entry, k)
        invariant done ==> DidOut(old(loops), old(records), loops, records, Contribution(e, iset{}, Inf(head), k))
        invariant done ==> AbsOption(breaks) == Contribution(e, iset{}, Inf(head), k).state
        invariant done ==> Inf(value) == Contribution(e, iset{}, Inf(head), k).value
        decreases !done, |SlotSet(u)| - |head|
      {
        ghost var l1, r1, one := loops, records, Contribution(e, iset{}, Inf(head), k);
        var end, flow := AnalyzeBody(e.body, Reachable(head), active, u);
        BodyDid(l1, r1, records, one);
        LastPassCounts(old(loops), old(records), l1, r1, loops, records, one);
        AccumulateBreaks(breaks, value, flow, one);
        if flow.breaks.Some? {
          breaks, value := MergeOption(breaks, flow.breaks.value), value + flow.value;
        }
        var next := NextHead(st.slots, end, flow);
        NextHeadIs(e, iset{}, st.slots, k, head, end, flow);
        RisingContinues(e, iset{}, entry, k, Inf(head));
        RisingHasRoom(u, e, iset{}, entry, k, head, next);
        if next == head {
          done := true;
        } else {
          ContributionMono(e, iset{}, Inf(head), Inf(next), k);
          PassesGrow(old(loops), old(records), loops, records, one, Contribution(e, iset{}, Inf(next), k));
          head := next;
        }
      }
      st' := if breaks.Some? then breaks.value else Unreachable;
    }

    /** `analyze_for` */
    method AnalyzeFor(e: Expr, st: Point, active: set<ControlKey>, ghost u: Universe)
      returns (value: set<Fact>, st': Point)
      requires e.For? && Sub(Atoms(e), u) && StateIn(u, Abs(st)) && KeysIn(u, Inf(active)) && st.Reachable?
      modifies this
      ensures Inf(value) == EvalKind(e, Abs(st), Inf(active)).value
      ensures Abs(st') == EvalKind(e, Abs(st), Inf(active)).state
      ensures DidOut(old(loops), old(records), loops, records, EvalKind(e, Abs(st), Inf(active)))
      decreases e, 2
    {
      var it, start := AnalyzeExpr(e.iter, st, active, u);
      ghost var i := Eval(e.iter, Abs(st), Inf(active));
      Recorded(old(loops), old(records), loops, records, i, ControlEntries(e.key, it));
      records := records + ControlEntries(e.key, it);
      ghost var iterated := Recording(i, ControlRecords(e.key, i.value));
      if start.Unreachable? {
        // A pass from an unreachable head does nothing and sends nothing back.
        return {}, start;
      }
      ghost var l0, r0 := loops, records;
      value, st' := IterateFor(e, it, start.slots, active, u);
      ghost var h := Head(e, i.value, Inf(start.slots), Inf(active));
      ghost var one := Contribution(e, i.value, h, Inf(active));
      Chain(old(loops), old(records), l0, r0, loops, records, iterated, one);
      FlowUnit(i.flow);
    }

    /** The loop of `analyze_for`, once the iterator is analysed. */
    method IterateFor(e: Expr, it: set<Fact>, entry: set<Slot>, active: set<ControlKey>, ghost u: Universe)
      returns (value: set<Fact>, st': Point)
      requires e.For? && Sub(Atoms(e), u) && FactsIn(u, Inf(it))
      requires Inf(entry) <= Everything(u) && KeysIn(u, Inf(active))
      modifies this
      ensures var h := Head(e, Inf(it), Inf(entry), Inf(active));
              var o := Contribution(e, Inf(it), h, Inf(active));
              Inf(value) == o.value && Abs(st') == Join(o.state, Live(h))
                  && DidOut(old(loops), old(records), loops, records, o)
      decreases e, 1
    {
      ghost var k, v, start := Inf(active), Inf(it), Inf(entry);
      var head, after, done := entry, Reachable(entry), false;
      value := {};
      RisingStarts(e, v, start, k);
      HeadIn(u, e, v, start, k);
      NothingYet(loops, records, Contribution(e, v, Inf(head), k));
      while !done
        invariant Rising(e, v, start, k, Inf(head)) && start <= Inf(head)
        invariant !done ==> Within(old(loops), old(records), loops, records, Contribution(e, v, Inf(head), k))
        invariant LeqState(Live(start), Abs(after))
        invariant LeqState(Abs(after), Join(Live(start), Contribution(e, v, Inf(head), k).state))
        invariant Inf(value) <= Contribution(e, v, Inf(head), k).value
        invariant done ==> Inf(head) == Head(e, v, start, k)
        invariant done ==> DidOut(old(loops), old(records), loops, records, Contribution(e, v, Inf(head), k))
        invariant done ==> LeqState(Contribution(e, v, Inf(head), k).state, Abs(after))
        invariant done ==> Inf(value) == Contribution(e, v, Inf(head), k).value
        decreases !done, |SlotSet(u)| - |head|
      {
        ghost var l1, r1, one := loops, records, Contribution(e, v, Inf(head), k);
        var bound := BindPattern(e.pattern, it, Reachable(head));
        BindIn(u, e.pattern, v, Live(Inf(head)));
        NarrowIn(u, k, v, e.key);
        var end, flow := AnalyzeBody(e.body, bound, Inner(active, it, e.key), u);
        BodyDid(l1, r1, records, one);
        LastPassCounts(old(loops), old(records), l1, r1, loops, records, one);
        InfUnion(value, flow.value);
        if flow.breaks.Some? {
          after, value := Merge(after, flow.breaks.value), value + flow.value;
        }
        var next := NextHead(entry, end, flow);
        NextHeadIs(e, v, entry, k, head, end, flow);
        RisingContinues(e, v, start, k, Inf(head));
        RisingHasRoom(u, e, v, start, k, head, next);
        if next == head {
          done := true;
        } else {
          ContributionMono(e, v, Inf(head), Inf(next), k);
          PassesGrow(old(loops), old(records), loops, records, one, Contribution(e, v, Inf(next), k));
          head := next;
        }
      }
      st' := Merge(after, Reachable(head));
      ghost var o := Contribution(e, v, Inf(head), k);
      StateAntisymmetric(Abs(st'), Join(o.state, Live(Inf(head))));
    }
  }

  /** The head of the next pass. */
  function NextHead(entry: set<Slot>, end: Point, flow: LoopFlow): set<Slot> {
    var backedge := if flow.continues.Some? then Merge(end, flow.continues.value) else end;
    if backedge.Reachable? then entry + backedge.slots else entry
  }

  lemma NextHeadIs(e: Expr, v: Facts, entry: set<Slot>, k: Keys, head: set<Slot>, end: Point, flow: LoopFlow)
    requires IsLoop(e)
    requires Abs(end) == Pass(e, v, Inf(head), k).state && AbsFlow(flow) == Pass(e, v, Inf(head), k).flow
    ensures Inf(NextHead(entry, end, flow)) == Next(e, v, Inf(entry), k, Inf(head))
  {
    var backedge := if flow.continues.Some? then Merge(end, flow.continues.value) else end;
    assert Abs(backedge) == Join(Abs(end), AbsOption(flow.continues));
    if backedge.Reachable? {
      InfUnion(entry, backedge.slots);
    } else {
      assert Inf(entry) + iset{} == Inf(entry);
    }
  }

  /** Merging this pass's breaks into smaller ones gives this pass's breaks. */
  lemma AccumulateBreaks(after: Option<Point>, value: set<Fact>, flow: LoopFlow, one: Out)
    requires LeqState(AbsOption(after), one.state) && Inf(value) <= one.value
    requires AbsOption(flow.breaks) == one.state && Inf(flow.value) == one.value && ValueNeedsBreak(flow)
    ensures flow.breaks.Some? ==>
              AbsOption(MergeOption(after, flow.breaks.value)) == one.state && Inf(value + flow.value) == one.value
    ensures flow.breaks.None? ==> AbsOption(after) == one.state && Inf(value) == one.value
  {
    if flow.breaks.Some? {
      JoinAbsorbs(AbsOption(after), one.state);
      InfUnion(value, flow.value);
      assert Inf(value) + one.value == one.value;
    } else {
      StateAntisymmetric(AbsOption(after), one.state);
      assert Inf(value) == one.value;
    }
  }

  /** A body whose flow was taken off the stack only recorded. */
  lemma BodyDid(l: seq<LoopFlow>, r0: set<Record>, r1: set<Record>, o: Out)
    requires Inf(r1) == Inf(r0) + o.records && o.flow == NoFlow()
    ensures DidOut(l, r0, l, r1, o)
  {
    if l != [] {
      FlowUnit(AbsFlow(l[|l| - 1]));
    }
  }

  lemma FlowUnit(f: Flow)
    ensures JoinFlow(f, NoFlow()) == f
  {
    assert f.value + iset{} == f.value;
  }

  lemma FreshFlow(f: Flow)
    ensures JoinFlow(AbsFlow(NO_FLOW), f) == f
  {
    assert Inf<Fact>({}) + f.value == f.value;
  }

  lemma ContinueFlows(loops: seq<LoopFlow>, records: set<Record>, labeled: bool, st: Point)
    ensures labeled ==> Did(loops, records, loops, records, NoFlow(), iset{})
    ensures loops == [] ==> Did(loops, records, loops, records, Flow(Dead, Abs(st), iset{}), iset{})
    ensures loops != [] ==>
      var n := |loops| - 1;
      Did(loops, records, loops[n := loops[n].(continues := MergeOption(loops[n].continues, st))],
          records, Flow(Dead, Abs(st), iset{}), iset{})
  {
    DidNothing(loops, records);
    if loops != [] {
      var f := loops[|loops| - 1];
      assert Inf(f.value) + iset{} == Inf(f.value);
    }
  }

  lemma BreakFlows(loops: seq<LoopFlow>, records: set<Record>, labeled: bool, st: Point, value: set<Fact>)
    ensures labeled ==> Did(loops, records, loops, records, NoFlow(), iset{})
    ensures loops == [] ==> Did(loops, records, loops, records, Flow(Abs(st), Dead, Inf(value)), iset{})
    ensures loops != [] ==>
      var n := |loops| - 1;
      var f := loops[n].(breaks := MergeOption(loops[n].breaks, st), value := loops[n].value + value);
      Did(loops, records, loops[n := f], records, Flow(Abs(st), Dead, Inf(value)), iset{})
  {
    DidNothing(loops, records);
    if loops != [] {
      InfUnion(loops[|loops| - 1].value, value);
    }
  }

  /** `Analyzer::run`: the parameters have no dependencies; a reachable tail value is
      an exit. The tables hold exactly what the meaning records. */
  method AnalyzeFunction(body: Stmts, tail: Option<ExitKey>) returns (records: set<Record>)
    ensures Inf(records) == Meaning(body, tail)
    ensures forall x, key :: DependUnder.UnderStmts(x, key, body) && tail != Some(x) && ExitSeen(x) in records ==>
                             ExitHas(x, Control(key)) in records
    ensures forall notes :: DependRuns.FunctionNotes(body, tail, notes) ==> notes <= Inf(records)
    ensures tail.Some? && ExitSeen(tail.value) !in Meaning(body, None) && ExitSeen(tail.value) in records ==>
              exists notes :: DependRuns.FunctionNotes(body, tail, notes) && ExitSeen(tail.value) in notes
  {
    var analyzer := new Analyzer();
    var u := AtomsStmts(body);
    var value, end := analyzer.AnalyzeBlock(body, Reachable({}), {}, u);
    assert Inf<Slot>({}) == iset{} && Inf<ControlKey>({}) == iset{};
    records := analyzer.records;
    assert Inf(records) == EvalStmts(body, Live(iset{}), iset{}).records by {
      assert Inf<Record>({}) + EvalStmts(body, Live(iset{}), iset{}).records
               == EvalStmts(body, Live(iset{}), iset{}).records;
    }
    if end.Reachable? && tail.Some? {
      InfUnion(records, ExitEntries(tail.value, value));
      records := records + ExitEntries(tail.value, value);
    }
    assert Inf(records) == Meaning(body, tail);
    FunctionLaws(body, tail);
    if tail.Some? && ExitSeen(tail.value) !in Meaning(body, None) {
      DependReach.EndIsReached(body, tail.value);
    }
  }

  lemma FunctionLaws(body: Stmts, tail: Option<ExitKey>)
    ensures forall x, key :: DependUnder.UnderStmts(x, key, body) && tail != Some(x) ==>
              ExitSeen(x) in Meaning(body, tail) ==> ExitHas(x, Control(key)) in Meaning(body, tail)
    ensures forall notes :: DependRuns.FunctionNotes(body, tail, notes) ==> notes <= Meaning(body, tail)
  {
    hide Meaning, DependUnder.UnderStmts, DependRuns.FunctionNotes;
    forall x, key | DependUnder.UnderStmts(x, key, body) && tail != Some(x)
      ensures ExitSeen(x) in Meaning(body, tail) ==> ExitHas(x, Control(key)) in Meaning(body, tail)
    {
      DependUnder.ExitsUnderControls(body, tail, x, key);
    }
    forall notes | DependRuns.FunctionNotes(body, tail, notes)
      ensures notes <= Meaning(body, tail)
    {
      DependSound.NotesAreRecorded(body, tail, notes);
    }
  }
}
