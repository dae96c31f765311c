/** All facts of an analysis are made from the atoms of its syntax: a finite universe
    that every head of every loop stays in. */
module DependBounded {
  import opened Options
  import opened DependSyntax
  import opened DependMeaning

  datatype Universe = Universe(ids: set<nat>, ranges: set<Range>,
      keys: set<ControlKey>, whys: set<Why>, texts: set<string>)

  function Plus(u: Universe, v: Universe): Universe {
    Universe(u.ids + v.ids, u.ranges + v.ranges, u.keys + v.keys, u.whys + v.whys, u.texts + v.texts)
  }

  predicate Sub(u: Universe, v: Universe) {
    u.ids <= v.ids && u.ranges <= v.ranges && u.keys <= v.keys && u.whys <= v.whys && u.texts <= v.texts
  }

  const EMPTY := Universe({}, {}, {}, {NoInitializer, BarePattern, MacroMayAssign, OpaqueMacro}, {})

  function Spans(r: Range): Universe { EMPTY.(ranges := {r}) }

  function Keyed(k: ControlKey): Universe { EMPTY.(keys := {k}) }

  function Reasons(w: Why): Universe { EMPTY.(whys := EMPTY.whys + {w}) }

  function PatternIds(pattern: Pattern): set<nat> {
    if pattern == [] then {} else {pattern[0].id} + PatternIds(pattern[1..])
  }

  // ----- the atoms of a piece of syntax -----

  function Atoms(e: Expr): Universe
    decreases e, 0
  {
    match e
    case Constant(span, _) => Spans(span)
    case Path(span, binding, why) =>
      Plus(Plus(Spans(span), Reasons(why)), EMPTY.(ids := if binding.Some? then {binding.value} else {}))
    case Opaque(why) => Reasons(why)
    case Group(parts) => AtomsMany(parts)
    case Call(callee, text, args) => Plus(Plus(Atoms(callee), AtomsMany(args)), EMPTY.(texts := {text}))
    case MethodCall(receiver, text, target, args, why) =>
      Plus(Plus(Atoms(receiver), AtomsMany(args)),
           Plus(Reasons(why), EMPTY.(texts := {text}, ids := if target.Some? then {target.value} else {})))
    case Binary(_, left, leftText, key, right, rightText, condition) =>
      Plus(Plus(Atoms(left), Atoms(right)), Plus(Keyed(key), EMPTY.(texts := {leftText, rightText, condition})))
    case Assign(_, place, rhs, _) => Plus(AtomsPlace(place), Atoms(rhs))
    case If(key, cond, pattern, thenBlock, otherwise) =>
      Plus(Plus(Plus(Atoms(cond), AtomsStmts(thenBlock)), AtomsOption(otherwise)),
           Plus(Keyed(key), EMPTY.(ids := PatternIds(pattern))))
    case While(key, cond, pattern, body) =>
      Plus(Plus(Atoms(cond), AtomsStmts(body)), Plus(Keyed(key), EMPTY.(ids := PatternIds(pattern))))
    case Loop(body) => AtomsStmts(body)
    case For(key, pattern, iter, body) =>
      Plus(Plus(Atoms(iter), AtomsStmts(body)), Plus(Keyed(key), EMPTY.(ids := PatternIds(pattern))))
    case Match(scrutinee, arms) => Plus(Atoms(scrutinee), AtomsArms(arms))
    case Block(stmts) => AtomsStmts(stmts)
    case Ret(_, returned) => AtomsOption(returned)
    case TryOp(_, key, inner) => Plus(Atoms(inner), Keyed(key))
    case Break(_, carried) => AtomsOption(carried)
    case Continue(_) => EMPTY
    case Macro(visible) => EMPTY.(ids := set i | i in visible)
  }

  function AtomsOption(e: Option<Expr>): Universe
    decreases e, 1
  {
    if e.None? then EMPTY else Atoms(e.value)
  }

  function AtomsMany(es: Exprs): Universe
    decreases es
  {
    match es
    case NoExprs => EMPTY
    case MoreExprs(first, others) => Plus(Atoms(first), AtomsMany(others))
  }

  function AtomsPlace(place: Place): Universe
    decreases place, 0
  {
    match place
    case Named(span, id) => EMPTY.(ids := {id}, ranges := {span})
    case Unnamed(span, why) => Plus(Spans(span), Reasons(why))
    case Field(span, base) => Plus(Spans(span), AtomsPlace(base))
    case Indexed(span, base, index) => Plus(Plus(Spans(span), AtomsPlace(base)), Atoms(index))
    case Other(span, expr, why) => Plus(Plus(Spans(span), Reasons(why)), Atoms(expr))
  }

  function AtomsStmts(stmts: Stmts): Universe
    decreases stmts, 0
  {
    match stmts
    case NoStmts => EMPTY
    case MoreStmts(stmt, rest) => Plus(AtomsStmt(stmt), AtomsStmts(rest))
  }

  function AtomsStmt(stmt: Stmt): Universe
    decreases stmt, 0
  {
    match stmt
    case LetDecl(pattern) => EMPTY.(ids := PatternIds(pattern))
    case LetInit(pattern, init) => Plus(Atoms(init), EMPTY.(ids := PatternIds(pattern)))
    case LetElse(pattern, init, key, diverge) =>
      Plus(Plus(Atoms(init), AtomsStmts(diverge)), Plus(Keyed(key), EMPTY.(ids := PatternIds(pattern))))
    case Run(expr, _) => Atoms(expr)
  }

  function AtomsArms(arms: Arms): Universe
    decreases arms, 0
  {
    match arms
    case NoArms => EMPTY
    case MoreArms(arm, later) => Plus(AtomsArm(arm), AtomsArms(later))
  }

  function AtomsArm(arm: Arm): Universe
    decreases arm, 0
  {
    var guard := match arm.guard
      case None => EMPTY
      case Some(guard) => Plus(Atoms(guard.cond), Keyed(guard.key));
    Plus(Plus(Atoms(arm.body), guard), Plus(Keyed(arm.key), EMPTY.(ids := PatternIds(arm.pattern))))
  }

  // ----- staying inside a universe -----

  predicate TextIn(u: Universe, t: Option<string>) {
    t.None? || t.value in u.texts
  }

  predicate FactIn(u: Universe, f: Fact) {
    match f
    case Data(id, occurrence) => id in u.ids && occurrence in u.ranges
    case Control(key) => key in u.keys
    case Unknown(why) => why in u.whys
    case Literal(l) => l.span in u.ranges && TextIn(u, l.comparedWith) && TextIn(u, l.condition)
  }

  ghost function Everything(u: Universe): iset<Slot> {
    iset s: Slot | s.0 in u.ids && FactIn(u, s.1)
  }

  ghost predicate FactsIn(u: Universe, v: Facts) {
    forall f :: f in v ==> FactIn(u, f)
  }

  ghost predicate KeysIn(u: Universe, k: Keys) {
    forall key :: key in k ==> key in u.keys
  }

  ghost predicate StateIn(u: Universe, st: State) {
    st.Slots() <= Everything(u)
  }

  ghost predicate OutIn(u: Universe, o: Out) {
    && FactsIn(u, o.value) && StateIn(u, o.state)
    && StateIn(u, o.flow.breaks) && StateIn(u, o.flow.continues) && FactsIn(u, o.flow.value)
  }

  lemma ReadIn(u: Universe, id: nat, st: State, r: Range)
    requires StateIn(u, st) && id in u.ids && r in u.ranges
    ensures FactsIn(u, Read(id, st, r))
  {
    forall f | f in Read(id, st, r)
      ensures FactIn(u, f)
    {
      if f.Data? && f.occurrence == r {
        if q :| (id, Data(f.id, q)) in st.Slots() {
          assert (id, Data(f.id, q)) in Everything(u);
        }
      }
    }
  }

  lemma StoreIn(u: Universe, st: State, id: nat, v: Facts)
    requires StateIn(u, st) && id in u.ids && FactsIn(u, v)
    ensures StateIn(u, Store(st, id, v)) && StateIn(u, Add(st, id, v))
  {
  }

  lemma {:induction false} BindIn(u: Universe, pattern: Pattern, v: Facts, st: State)
    requires StateIn(u, st) && PatternIds(pattern) <= u.ids && FactsIn(u, v) && BarePattern in u.whys
    ensures StateIn(u, Bind(pattern, v, st))
    decreases pattern
  {
    if pattern != [] {
      StoreIn(u, st, pattern[0].id, Bound(pattern[0], v));
      BindIn(u, pattern[1..], v, Store(st, pattern[0].id, Bound(pattern[0], v)));
    }
  }

  lemma {:induction false} AddAllIn(u: Universe, st: State, ids: seq<nat>, v: Facts)
    requires StateIn(u, st) && (forall i :: i in ids ==> i in u.ids) && FactsIn(u, v)
    ensures StateIn(u, AddAll(st, ids, v))
    decreases ids
  {
    if ids != [] {
      StoreIn(u, st, ids[0], v);
      AddAllIn(u, Add(st, ids[0], v), ids[1..], v);
    }
  }

  lemma NarrowIn(u: Universe, k: Keys, v: Facts, key: ControlKey)
    requires KeysIn(u, k) && FactsIn(u, v) && key in u.keys
    ensures KeysIn(u, Narrow(k, v, key)) && FactsIn(u, AsFacts(k))
  {
    forall x | x in Narrow(k, v, key)
      ensures x in u.keys
    {
      if x !in k && x != key {
        assert FactIn(u, Control(x));
      }
    }
  }

  lemma LiteralsIn(u: Universe, v: Facts, text: string)
    requires FactsIn(u, v) && text in u.texts
    ensures FactsIn(u, Passed(text, v)) && FactsIn(u, Literals(v))
  {
    forall f | f in Passed(text, v)
      ensures FactIn(u, f)
    {
      if f.Literal? {
        var l :| Literal(l) in v && f.literal == Related(text, l);
        assert FactIn(u, Literal(l));
      }
    }
  }

  lemma ComparedIn(u: Universe, v: Facts, text: string, condition: string)
    requires FactsIn(u, v) && text in u.texts && condition in u.texts
    ensures FactsIn(u, Compared(text, condition, v))
  {
    forall f | f in Compared(text, condition, v)
      ensures FactIn(u, f)
    {
      var l :| Literal(l) in v && f.literal == ComparedTo(text, condition, l);
      assert FactIn(u, Literal(l));
    }
  }

  lemma JoinIn(u: Universe, a: State, b: State)
    requires StateIn(u, a) && StateIn(u, b)
    ensures StateIn(u, Join(a, b))
  {
  }

  lemma ThenIn(u: Universe, a: Out, b: Out)
    requires OutIn(u, a) && OutIn(u, b)
    ensures OutIn(u, Then(a, b))
  {
    JoinIn(u, a.flow.breaks, b.flow.breaks);
    JoinIn(u, a.flow.continues, b.flow.continues);
  }

  // ----- the syntax -----

  lemma {:induction false} EvalIn(u: Universe, e: Expr, st: State, k: Keys)
    requires Sub(Atoms(e), u) && StateIn(u, st) && KeysIn(u, k)
    ensures OutIn(u, Eval(e, st, k))
    decreases e, 4
  {
    if st.Live? {
      KindIn(u, e, st, k);
    }
  }

  lemma {:induction false} OptionIn(u: Universe, e: Option<Expr>, st: State, k: Keys)
    requires Sub(AtomsOption(e), u) && StateIn(u, st) && KeysIn(u, k)
    ensures OutIn(u, EvalOption(e, st, k))
    decreases e, 5
  {
    if e.Some? {
      EvalIn(u, e.value, st, k);
    }
  }

  lemma {:induction false} KindIn(u: Universe, e: Expr, st: State, k: Keys)
    requires Sub(Atoms(e), u) && StateIn(u, st) && KeysIn(u, k) && st.Live?
    ensures OutIn(u, EvalKind(e, st, k))
    decreases e, 3
  {
    match e
    case Constant(_, _) =>
    case Path(span, binding, _) =>
      if binding.Some? { ReadIn(u, binding.value, st, span); }
    case Opaque(_) =>
    case Group(parts) => ManyIn(u, parts, st, k);
    case Call(_, _, _) => CallIn(u, e, st, k);
    case MethodCall(_, _, _, _, _) => CallIn(u, e, st, k);
    case Binary(_, _, _, _, _, _, _) => BinaryIn(u, e, st, k);
    case Assign(_, _, _, _) => AssignIn(u, e, st, k);
    case If(_, _, _, _, _) => IfIn(u, e, st, k);
    case While(_, _, _, _) => LoopIn(u, e, st, k);
    case Loop(_) => LoopIn(u, e, st, k);
    case For(_, _, _, _) => ForIn(u, e, st, k);
    case Match(scrutinee, arms) =>
      EvalIn(u, scrutinee, st, k);
      var s := Eval(scrutinee, st, k);
      ArmsIn(u, arms, s.value, s.state, k);
      ThenIn(u, s, EvalArms(arms, s.value, s.state, k));
    case Block(stmts) => StmtsIn(u, stmts, st, k);
    case Ret(_, returned) => OptionIn(u, returned, st, k);
    case TryOp(_, _, inner) => EvalIn(u, inner, st, k);
    case Break(_, carried) =>
      OptionIn(u, carried, st, k);
      var v := EvalOption(carried, st, k);
      JoinIn(u, v.flow.breaks, v.state);
    case Continue(_) =>
    case Macro(visible) => AddAllIn(u, st, visible, iset{Unknown(MacroMayAssign)});
  }

  lemma {:induction false} CallIn(u: Universe, e: Expr, st: State, k: Keys)
    requires e.Call? || e.MethodCall?
    requires Sub(Atoms(e), u) && StateIn(u, st) && KeysIn(u, k) && st.Live?
    ensures OutIn(u, EvalKind(e, st, k))
    decreases e, 2
  {
    var f := if e.Call? then e.callee else e.receiver;
    EvalIn(u, f, st, k);
    var x := Eval(f, st, k);
    ArgsIn(u, e.args, e.text, x.state, k);
    var y := EvalArgs(e.args, e.text, x.state, k);
    ThenIn(u, x, y);
    if e.MethodCall? && e.target.Some? {
      LiteralsIn(u, y.value, e.text);
      StoreIn(u, y.state, e.target.value, Literals(y.value));
    }
  }

  lemma {:induction false} BinaryIn(u: Universe, e: Expr, st: State, k: Keys)
    requires e.Binary? && Sub(Atoms(e), u) && StateIn(u, st) && KeysIn(u, k) && st.Live?
    ensures OutIn(u, EvalKind(e, st, k))
    decreases e, 2
  {
    EvalIn(u, e.left, st, k);
    var x := Eval(e.left, st, k);
    if e.op.Lazy? {
      NarrowIn(u, k, x.value, e.key);
      var i := Narrow(k, x.value, e.key);
      EvalIn(u, e.right, x.state, i);
      ThenIn(u, x, Eval(e.right, x.state, i));
      JoinIn(u, x.state, Eval(e.right, x.state, i).state);
    } else {
      EvalIn(u, e.right, x.state, k);
      var y := Eval(e.right, x.state, k);
      ThenIn(u, x, y);
      ComparedIn(u, x.value, e.rightText, e.condition);
      ComparedIn(u, y.value, e.leftText, e.condition);
    }
  }

  lemma {:induction false} PlaceTargetIn(place: Place)
    ensures Target(place).Some? ==> Target(place).value in AtomsPlace(place).ids
    ensures place.span in AtomsPlace(place).ranges
  {
    match place
    case Field(_, base) => PlaceTargetIn(base);
    case Indexed(_, base, _) => PlaceTargetIn(base);
    case _ =>
  }

  lemma {:induction false} AssignIn(u: Universe, e: Expr, st: State, k: Keys)
    requires e.Assign? && Sub(Atoms(e), u) && StateIn(u, st) && KeysIn(u, k) && st.Live?
    ensures OutIn(u, EvalKind(e, st, k))
    decreases e, 2
  {
    PlaceIn(u, e.place, st, k);
    var p := EvalPlace(e.place, st, k);
    EvalIn(u, e.rhs, p.state, k);
    var r := Eval(e.rhs, p.state, k);
    ThenIn(u, p, r);
    PlaceTargetIn(e.place);
    if Target(e.place).Some? {
      var id := Target(e.place).value;
      var v := r.value + p.value + AsFacts(k);
      assert FactsIn(u, v);
      ReadIn(u, id, r.state, e.place.span);
      StoreIn(u, r.state, id, v);
      StoreIn(u, r.state, id, v + Read(id, r.state, e.place.span));
    }
  }

  lemma {:induction false} IfIn(u: Universe, e: Expr, st: State, k: Keys)
    requires e.If? && Sub(Atoms(e), u) && StateIn(u, st) && KeysIn(u, k) && st.Live?
    ensures OutIn(u, EvalKind(e, st, k))
    decreases e, 2
  {
    EvalIn(u, e.cond, st, k);
    var c := Eval(e.cond, st, k);
    NarrowIn(u, k, c.value, e.key);
    BindIn(u, e.pattern, c.value, c.state);
    var s, i := Bind(e.pattern, c.value, c.state), Narrow(k, c.value, e.key);
    StmtsIn(u, e.thenBlock, s, i);
    OptionIn(u, e.otherwise, c.state, i);
    var t, o := EvalStmts(e.thenBlock, s, i), EvalOption(e.otherwise, c.state, i);
    ThenIn(u, t, o);
    ThenIn(u, c, Then(t, o));
    JoinIn(u, t.state, o.state);
  }

  lemma {:induction false} ManyIn(u: Universe, es: Exprs, st: State, k: Keys)
    requires Sub(AtomsMany(es), u) && StateIn(u, st) && KeysIn(u, k)
    ensures OutIn(u, EvalMany(es, st, k))
    decreases es
  {
    if es.MoreExprs? {
      EvalIn(u, es.first, st, k);
      var x := Eval(es.first, st, k);
      ManyIn(u, es.others, x.state, k);
      ThenIn(u, x, EvalMany(es.others, x.state, k));
    }
  }

  lemma {:induction false} ArgsIn(u: Universe, es: Exprs, text: string, st: State, k: Keys)
    requires Sub(AtomsMany(es), u) && StateIn(u, st) && KeysIn(u, k) && text in u.texts
    ensures OutIn(u, EvalArgs(es, text, st, k))
    decreases es
  {
    if es.MoreExprs? {
      EvalIn(u, es.first, st, k);
      var x := Eval(es.first, st, k);
      LiteralsIn(u, x.value, text);
      ArgsIn(u, es.others, text, x.state, k);
      ThenIn(u, x, EvalArgs(es.others, text, x.state, k));
    }
  }

  lemma {:induction false} PlaceIn(u: Universe, place: Place, st: State, k: Keys)
    requires Sub(AtomsPlace(place), u) && StateIn(u, st) && KeysIn(u, k)
    ensures OutIn(u, EvalPlace(place, st, k))
    decreases place, 5
  {
    match place
    case Named(_, _) =>
    case Unnamed(_, _) =>
    case Field(_, base) =>
      PlaceIn(u, base, st, k);
      PlaceTargetIn(base);
      if Target(base).Some? { ReadIn(u, Target(base).value, EvalPlace(base, st, k).state, base.span); }
    case Indexed(_, base, index) =>
      PlaceIn(u, base, st, k);
      var x := EvalPlace(base, st, k);
      EvalIn(u, index, x.state, k);
      var y := Eval(index, x.state, k);
      ThenIn(u, x, y);
      PlaceTargetIn(base);
      if Target(base).Some? { ReadIn(u, Target(base).value, y.state, base.span); }
    case Other(_, expr, _) =>
      EvalIn(u, expr, st, k);
  }

  lemma {:induction false} StmtsIn(u: Universe, stmts: Stmts, st: State, k: Keys)
    requires Sub(AtomsStmts(stmts), u) && StateIn(u, st) && KeysIn(u, k)
    ensures OutIn(u, EvalStmts(stmts, st, k))
    decreases stmts, 6
  {
    if st.Live? && stmts.MoreStmts? {
      StmtIn(u, stmts.stmt, st, k);
      var x := EvalStmt(stmts.stmt, st, k);
      StmtsIn(u, stmts.rest, x.state, k);
      ThenIn(u, x, EvalStmts(stmts.rest, x.state, k));
    }
  }

  lemma {:induction false} StmtIn(u: Universe, stmt: Stmt, st: State, k: Keys)
    requires Sub(AtomsStmt(stmt), u) && StateIn(u, st) && KeysIn(u, k)
    ensures OutIn(u, EvalStmt(stmt, st, k))
    decreases stmt, 6
  {
    match stmt
    case LetDecl(pattern) =>
      BindIn(u, pattern, iset{Unknown(NoInitializer)}, st);
    case LetInit(pattern, init) =>
      EvalIn(u, init, st, k);
      BindIn(u, pattern, Eval(init, st, k).value, Eval(init, st, k).state);
    case LetElse(pattern, init, key, diverge) =>
      EvalIn(u, init, st, k);
      var v := Eval(init, st, k);
      NarrowIn(u, k, v.value, key);
      var i := Narrow(k, v.value, key);
      StmtsIn(u, diverge, v.state, i);
      ThenIn(u, v, EvalStmts(diverge, v.state, i));
      BindIn(u, pattern, v.value + iset{Control(key)}, v.state);
    case Run(expr, _) =>
      EvalIn(u, expr, st, k);
  }

  lemma {:induction false} ArmsIn(u: Universe, arms: Arms, v: Facts, base: State, k: Keys)
    requires Sub(AtomsArms(arms), u) && FactsIn(u, v) && StateIn(u, base) && KeysIn(u, k)
    ensures OutIn(u, EvalArms(arms, v, base, k))
    decreases arms, 6
  {
    if arms.MoreArms? {
      ArmIn(u, arms.arm, v, base, k);
      ArmsIn(u, arms.later, v, base, k);
      var x, y := EvalArm(arms.arm, v, base, k), EvalArms(arms.later, v, base, k);
      ThenIn(u, x, y);
      JoinIn(u, x.state, y.state);
    }
  }

  lemma {:induction false} ArmIn(u: Universe, arm: Arm, v: Facts, base: State, k: Keys)
    requires Sub(AtomsArm(arm), u) && FactsIn(u, v) && StateIn(u, base) && KeysIn(u, k)
    ensures OutIn(u, EvalArm(arm, v, base, k))
    decreases arm, 6
  {
    BindIn(u, arm.pattern, v, base);
    var s, i := Bind(arm.pattern, v, base), Narrow(k, v, arm.key);
    NarrowIn(u, k, v, arm.key);
    match arm.guard
    case None =>
      EvalIn(u, arm.body, s, i);
    case Some(guard) =>
      EvalIn(u, guard.cond, s, i);
      var g := Eval(guard.cond, s, i);
      NarrowIn(u, i, g.value, guard.key);
      var j := Narrow(i, g.value, guard.key);
      EvalIn(u, arm.body, g.state, j);
      ThenIn(u, g, Eval(arm.body, g.state, j));
  }

  // ----- loops -----

  lemma {:induction false} TestIn(u: Universe, e: Expr, h: iset<Slot>, k: Keys)
    requires IsLoop(e) && Sub(Atoms(e), u) && h <= Everything(u) && KeysIn(u, k)
    ensures OutIn(u, Test(e, h, k))
    decreases e, 0
  {
    if e.While? {
      EvalIn(u, e.cond, Live(h), k);
    }
  }

  lemma {:induction false} PassIn(u: Universe, e: Expr, v: Facts, h: iset<Slot>, k: Keys)
    requires IsLoop(e) && Sub(Atoms(e), u) && FactsIn(u, v) && h <= Everything(u) && KeysIn(u, k)
    ensures OutIn(u, Pass(e, v, h, k))
    decreases e, 1
  {
    match e
    case While(key, _, pattern, body) =>
      TestIn(u, e, h, k);
      var t := Test(e, h, k);
      BindIn(u, pattern, t.value, t.state);
      NarrowIn(u, k, t.value, key);
      StmtsIn(u, body, Bind(pattern, t.value, t.state), Narrow(k, t.value, key));
    case Loop(body) =>
      StmtsIn(u, body, Live(h), k);
    case For(key, pattern, _, body) =>
      BindIn(u, pattern, v, Live(h));
      NarrowIn(u, k, v, key);
      StmtsIn(u, body, Bind(pattern, v, Live(h)), Narrow(k, v, key));
  }

  /** The whole universe is a pre-fixpoint, so the head is inside it. */
  lemma HeadIn(u: Universe, e: Expr, v: Facts, s: iset<Slot>, k: Keys)
    requires IsLoop(e) && Sub(Atoms(e), u) && FactsIn(u, v) && s <= Everything(u) && KeysIn(u, k)
    ensures Head(e, v, s, k) <= Everything(u)
    decreases e, 2, 0
  {
    var all := Everything(u);
    PassIn(u, e, v, all, k);
    var o := Pass(e, v, all, k);
    JoinIn(u, o.state, o.flow.continues);
    assert PreFixpoint(e, v, s, k, all);
  }

  lemma {:induction false} LoopIn(u: Universe, e: Expr, st: State, k: Keys)
    requires e.While? || e.Loop?
    requires Sub(Atoms(e), u) && StateIn(u, st) && KeysIn(u, k) && st.Live?
    ensures OutIn(u, EvalKind(e, st, k))
    decreases e, 2, 1
  {
    HeadIn(u, e, iset{}, st.Slots(), k);
    var h := Head(e, iset{}, st.Slots(), k);
    PassIn(u, e, iset{}, h, k);
    TestIn(u, e, h, k);
    JoinIn(u, Pass(e, iset{}, h, k).flow.breaks, Test(e, h, k).state);
  }

  lemma {:induction false} ForIn(u: Universe, e: Expr, st: State, k: Keys)
    requires e.For? && Sub(Atoms(e), u) && StateIn(u, st) && KeysIn(u, k) && st.Live?
    ensures OutIn(u, EvalKind(e, st, k))
    decreases e, 2, 1
  {
    EvalIn(u, e.iter, st, k);
    var i := Eval(e.iter, st, k);
    if i.state.Live? {
      HeadIn(u, e, i.value, i.state.slots, k);
      var h := Head(e, i.value, i.state.slots, k);
      PassIn(u, e, i.value, h, k);
      JoinIn(u, Pass(e, i.value, h, k).flow.breaks, Live(h));
    }
  }

  // ----- the universe is finite -----

  ghost function OptionalTexts(u: Universe): set<Option<string>> {
    {None} + set t | t in u.texts :: Some(t)
  }

  ghost function FactSet(u: Universe): set<Fact> {
    (set i, r | i in u.ids && r in u.ranges :: Data(i, r))
    + (set k | k in u.keys :: Control(k))
    + (set w | w in u.whys :: Unknown(w))
    + (set r, c, d, b | r in u.ranges && c in OptionalTexts(u) && d in OptionalTexts(u) && b in {false, true} ::
         Literal(LiteralFact(r, c, d, b)))
  }

  ghost function SlotSet(u: Universe): set<Slot> {
    set i, f | i in u.ids && f in FactSet(u) :: (i, f)
  }

  lemma OptionalTextIn(u: Universe, t: Option<string>)
    requires TextIn(u, t)
    ensures t in OptionalTexts(u)
  {
    if t.Some? {
      assert t == Some(t.value);
    }
  }

  lemma FactSetHasAll(u: Universe, f: Fact)
    requires FactIn(u, f)
    ensures f in FactSet(u)
  {
    match f
    case Literal(l) =>
      OptionalTextIn(u, l.comparedWith);
      OptionalTextIn(u, l.condition);
      assert l.viaCall in {false, true};
      assert l == LiteralFact(l.span, l.comparedWith, l.condition, l.viaCall);
    case _ =>
  }

  lemma SlotSetHasAll(u: Universe, s: set<Slot>)
    requires forall x :: x in s ==> x in Everything(u)
    ensures s <= SlotSet(u) && |s| <= |SlotSet(u)|
  {
    forall x | x in s
      ensures x in SlotSet(u)
    {
      FactSetHasAll(u, x.1);
      assert x == (x.0, x.1);
    }
    assert SlotSet(u) == s + (SlotSet(u) - s);
  }
}
