/** What the dependence analysis means: a transfer function on states of arbitrary
    (also infinite) size, in which every loop is the least fixpoint of its body, taken
    as the meet of all its pre-fixpoints. */
module DependMeaning {
  import opened Options
  import opened DependSyntax

  type Facts = iset<Fact>
  type Slot = (nat, Fact)
  type Keys = iset<ControlKey>

  /** A program point: unreachable, or the facts of every binding. */
  datatype State = Dead | Live(slots: iset<Slot>) {
    ghost function Slots(): iset<Slot> {
      if Dead? then iset{} else slots
    }
  }

  datatype Flow = Flow(breaks: State, continues: State, value: Facts)

  /** What analysing a piece of syntax yields: its value, the state after it, what it
      sends to the innermost loop and what it records. */
  datatype Out = Out(value: Facts, state: State, flow: Flow, records: iset<Record>)

  // ----- states and values -----

  ghost function Join(a: State, b: State): State {
    if a.Dead? then b else if b.Dead? then a else Live(a.slots + b.slots)
  }

  ghost function NoFlow(): Flow {
    Flow(Dead, Dead, iset{})
  }

  ghost function JoinFlow(a: Flow, b: Flow): Flow {
    Flow(Join(a.breaks, b.breaks), Join(a.continues, b.continues), a.value + b.value)
  }

  ghost function Quiet(value: Facts, state: State): Out {
    Out(value, state, NoFlow(), iset{})
  }

  /** `a`, then `b`: the value and the state are those of `b`. */
  ghost function Then(a: Out, b: Out): Out {
    Out(b.value, b.state, JoinFlow(a.flow, b.flow), a.records + b.records)
  }

  ghost function Recording(o: Out, records: iset<Record>): Out {
    o.(records := o.records + records)
  }

  ghost function Read(id: nat, st: State, occurrence: Range): Facts {
    iset f: Fact |
      || f == Data(id, occurrence)
      || (id, f) in st.Slots()
      || (f.Data? && f.occurrence == occurrence && exists r :: (id, Data(f.id, r)) in st.Slots())
  }

  /** The strong update. */
  ghost function Store(st: State, id: nat, value: Facts): State {
    if st.Dead? then Dead
    else Live(iset s: Slot | if s.0 == id then s.1 in value else s in st.slots)
  }

  /** The weak update. */
  ghost function Add(st: State, id: nat, value: Facts): State {
    if st.Dead? then Dead
    else Live(iset s: Slot | s in st.slots || (s.0 == id && s.1 in value))
  }

  ghost function AddAll(st: State, ids: seq<nat>, value: Facts): State
    decreases ids
  {
    if ids == [] then st else AddAll(Add(st, ids[0], value), ids[1..], value)
  }

  ghost function Bound(b: Binding, value: Facts): Facts {
    value + if b.bare then iset{Unknown(BarePattern)} else iset{}
  }

  ghost function Bind(pattern: Pattern, value: Facts, st: State): State {
    if pattern == [] then st
    else Bind(pattern[1..], value, Store(st, pattern[0].id, Bound(pattern[0], value)))
  }

  ghost function Controls(value: Facts): Keys {
    iset k: ControlKey | Control(k) in value
  }

  ghost function AsFacts(keys: Keys): Facts {
    iset f: Fact | f.Control? && f.key in keys
  }

  ghost function Narrow(active: Keys, value: Facts, key: ControlKey): Keys {
    active + Controls(value) + iset{key}
  }

  ghost function Literals(value: Facts): Facts {
    iset f: Fact | f.Literal? && f in value
  }

  /** The argument of a call: its literals are related to the callee. */
  ghost function Passed(text: string, value: Facts): Facts {
    iset f: Fact | if f.Literal? then exists l :: Literal(l) in value && f.literal == Related(text, l) else f in value
  }

  ghost function Compared(text: string, condition: string, value: Facts): Facts {
    iset f: Fact | f.Literal? && exists l :: Literal(l) in value && f.literal == ComparedTo(text, condition, l)
  }

  ghost function ControlRecords(key: ControlKey, value: Facts): iset<Record> {
    iset r: Record | r == ControlSeen(key) || (r.ControlHas? && r.key == key && !r.fact.Control? && r.fact in value)
  }

  ghost function ExitRecords(exit: ExitKey, value: Facts): iset<Record> {
    iset r: Record | r == ExitSeen(exit) || (r.ExitHas? && r.exit == exit && r.fact in value)
  }

  // ----- the transfer function -----

  /** `analyze_expr` */
  ghost function Eval(e: Expr, st: State, active: Keys): Out
    decreases e, 4
  {
    if st.Dead? then Quiet(iset{}, Dead)
    else
      var o := EvalKind(e, st, active);
      o.(value := o.value + AsFacts(active))
  }

  ghost function EvalOption(e: Option<Expr>, st: State, active: Keys): Out
    decreases e, 5
  {
    if e.None? then Quiet(iset{}, st) else Eval(e.value, st, active)
  }

  /** `analyze_expr_kind` */
  ghost function EvalKind(e: Expr, st: State, active: Keys): Out
    decreases e, 3
  {
    match e
    case Constant(span, known) =>
      Quiet(if known then iset{Literal(LiteralFact(span, None, None, false))} else iset{}, st)
    case Path(span, binding, why) =>
      Quiet(if binding.Some? then Read(binding.value, st, span) else iset{Unknown(why)}, st)
    case Opaque(why) => Quiet(iset{Unknown(why)}, st)
    case Group(parts) => EvalMany(parts, st, active)
    case Call(callee, text, args) =>
      var f := Eval(callee, st, active);
      var a := EvalArgs(args, text, f.state, active);
      Then(f, a).(value := f.value + a.value)
    case MethodCall(receiver, text, target, args, why) =>
      var f := Eval(receiver, st, active);
      var a := EvalArgs(args, text, f.state, active);
      Then(f, a).(
        value := f.value + a.value + iset{Unknown(why)},
        state := if target.Some? then Add(a.state, target.value, Literals(a.value)) else a.state)
    case Binary(op, left, leftText, key, right, rightText, condition) =>
      var l := Eval(left, st, active);
      if op.Lazy? then
        var r := Eval(right, l.state, Narrow(active, l.value, key));
        Recording(Then(l, r), ControlRecords(key, l.value)).(value := l.value + r.value,
            state := Join(l.state, r.state))
      else
        var r := Eval(right, l.state, active);
        var related := if op.Comparison?
          then Compared(rightText, condition, l.value) + Compared(leftText, condition, r.value) else iset{};
        Then(l, r).(value := l.value + r.value + related)
    case Assign(site, place, rhs, compound) =>
      var p := EvalPlace(place, st, active);
      var r := Eval(rhs, p.state, active);
      var value := r.value + p.value + AsFacts(active);
      if Target(place).None? then Then(p, r).(value := iset{})
      else
        var id := Target(place).value;
        var stored := if compound || !Direct(place) then value + Read(id, r.state, place.span) else value;
        Recording(Then(p, r), iset{AssignedAt(id, site)}).(value := iset{}, state := Store(r.state, id, stored))
    case If(key, cond, pattern, thenBlock, otherwise) =>
      var c := Eval(cond, st, active);
      var inner := Narrow(active, c.value, key);
      var t := EvalStmts(thenBlock, Bind(pattern, c.value, c.state), inner);
      var o := EvalOption(otherwise, c.state, inner);
      Recording(Then(c, Then(t, o)), ControlRecords(key, c.value)).(value := t.value + o.value,
          state := Join(t.state, o.state))
    case While(key, _, _, _) =>
      var h := Head(e, iset{}, st.Slots(), active);
      var t, b := Test(e, h, active), Pass(e, iset{}, h, active);
      Out(b.flow.value, Join(b.flow.breaks, t.state), t.flow, t.records + b.records + ControlRecords(key, t.value))
    case Loop(_) =>
      var h := Head(e, iset{}, st.Slots(), active);
      var b := Pass(e, iset{}, h, active);
      Out(b.flow.value, b.flow.breaks, NoFlow(), b.records)
    case For(key, _, iter, _) =>
      var i := Eval(iter, st, active);
      var records := i.records + ControlRecords(key, i.value);
      if i.state.Dead? then Out(iset{}, Dead, i.flow, records)
      else
        var h := Head(e, i.value, i.state.slots, active);
        var b := Pass(e, i.value, h, active);
        Out(b.flow.value, Join(b.flow.breaks, Live(h)), i.flow, records + b.records)
    case Match(scrutinee, arms) =>
      var s := Eval(scrutinee, st, active);
      var a := EvalArms(arms, s.value, s.state, active);
      Then(s, a).(state := if arms.NoArms? then s.state else a.state)
    case Block(stmts) => EvalStmts(stmts, st, active)
    case Ret(exit, returned) =>
      var v := EvalOption(returned, st, active);
      Recording(v, ExitRecords(exit, v.value + AsFacts(active))).(value := iset{}, state := Dead)
    case TryOp(exit, key, inner) =>
      var v := Eval(inner, st, active);
      var value := v.value + iset{Control(key)};
      Recording(v, ControlRecords(key, v.value) + ExitRecords(exit, value + AsFacts(active))).(value := value)
    case Break(labeled, carried) =>
      var v := EvalOption(carried, st, active);
      var sent := if labeled then NoFlow() else Flow(v.state, Dead, v.value);
      Out(iset{}, Dead, JoinFlow(v.flow, sent), v.records)
    case Continue(labeled) =>
      Out(iset{}, Dead, if labeled then NoFlow() else Flow(Dead, st, iset{}), iset{})
    case Macro(visible) =>
      Quiet(iset{Unknown(OpaqueMacro)}, AddAll(st, visible, iset{Unknown(MacroMayAssign)}))
  }

  /** `analyze_many` */
  ghost function EvalMany(es: Exprs, st: State, active: Keys): Out
    decreases es
  {
    match es
    case NoExprs => Quiet(iset{}, st)
    case MoreExprs(first, others) =>
      var a := Eval(first, st, active);
      var b := EvalMany(others, a.state, active);
      Then(a, b).(value := a.value + b.value)
  }

  /** The arguments of a call to `text`. */
  ghost function EvalArgs(es: Exprs, text: string, st: State, active: Keys): Out
    decreases es
  {
    match es
    case NoExprs => Quiet(iset{}, st)
    case MoreExprs(first, others) =>
      var a := Eval(first, st, active);
      var b := EvalArgs(others, text, a.state, active);
      Then(a, b).(value := Passed(text, a.value) + b.value)
  }

  /** `assignment_target`: the value is that of the address. */
  ghost function EvalPlace(place: Place, st: State, active: Keys): Out
    decreases place, 5
  {
    match place
    case Named(_, _) => Quiet(iset{}, st)
    case Unnamed(_, why) => Quiet(iset{Unknown(why)}, st)
    case Field(_, base) =>
      var b := EvalPlace(base, st, active);
      b.(value := b.value + ReadTarget(base, b.state))
    case Indexed(_, base, index) =>
      var b := EvalPlace(base, st, active);
      var i := Eval(index, b.state, active);
      Then(b, i).(value := b.value + i.value + ReadTarget(base, i.state))
    case Other(_, expr, why) =>
      var v := Eval(expr, st, active);
      v.(value := v.value + iset{Unknown(why)})
  }

  ghost function ReadTarget(base: Place, st: State): Facts {
    match Target(base)
    case None => iset{}
    case Some(id) => Read(id, st, base.span)
  }

  /** `analyze_block` */
  ghost function EvalStmts(stmts: Stmts, st: State, active: Keys): Out
    decreases stmts, 6
  {
    if st.Dead? || stmts.NoStmts? then Quiet(iset{}, st)
    else
      var a := EvalStmt(stmts.stmt, st, active);
      var b := EvalStmts(stmts.rest, a.state, active);
      Then(a, b).(value := if stmts.rest.NoStmts? then a.value else b.value)
  }

  /** One statement; the value is that of an expression without semicolon. */
  ghost function EvalStmt(stmt: Stmt, st: State, active: Keys): Out
    decreases stmt, 6
  {
    match stmt
    case LetDecl(pattern) => Quiet(iset{}, Bind(pattern, iset{Unknown(NoInitializer)}, st))
    case LetInit(pattern, init) =>
      var v := Eval(init, st, active);
      v.(value := iset{}, state := Bind(pattern, v.value, v.state))
    case LetElse(pattern, init, key, diverge) =>
      var v := Eval(init, st, active);
      var d := EvalStmts(diverge, v.state, Narrow(active, v.value, key));
      Recording(Then(v, d), ControlRecords(key, v.value)).(
        value := iset{}, state := Bind(pattern, v.value + iset{Control(key)}, v.state))
    case Run(expr, semi) =>
      var v := Eval(expr, st, active);
      v.(value := if semi then iset{} else v.value)
  }

  /** The arms of a match, joined. */
  ghost function EvalArms(arms: Arms, scrutinee: Facts, base: State, active: Keys): Out
    decreases arms, 6
  {
    match arms
    case NoArms => Quiet(iset{}, Dead)
    case MoreArms(arm, later) =>
      var a := EvalArm(arm, scrutinee, base, active);
      var b := EvalArms(later, scrutinee, base, active);
      Then(a, b).(value := a.value + b.value, state := Join(a.state, b.state))
  }

  ghost function EvalArm(arm: Arm, scrutinee: Facts, base: State, active: Keys): Out
    decreases arm, 6
  {
    var tested := scrutinee + (iset f: Fact | f.Literal? && f.literal in arm.literals);
    var st := Bind(arm.pattern, scrutinee, base);
    var inner := Narrow(active, scrutinee, arm.key);
    var o := match arm.guard
      case None => Eval(arm.body, st, inner)
      case Some(guard) =>
        var g := Eval(guard.cond, st, inner);
        Recording(Then(g, Eval(arm.body, g.state, Narrow(inner, g.value, guard.key))),
            ControlRecords(guard.key, g.value));
    Recording(o, ControlRecords(arm.key, tested))
  }

  // ----- loops -----

  ghost predicate IsLoop(e: Expr) {
    e.While? || e.Loop? || e.For?
  }

  /** The loop's test, from head `h`; only `while` has one. */
  ghost function Test(e: Expr, h: iset<Slot>, active: Keys): Out
    requires IsLoop(e)
    decreases e, 0
  {
    match e
    case While(_, cond, _, _) => Eval(cond, Live(h), active)
    case _ => Quiet(iset{}, Live(h))
  }

  /** One pass over the loop's body, from head `h`; `iterated` is the value of a
      `for` loop's iterator. */
  ghost function Pass(e: Expr, iterated: Facts, h: iset<Slot>, active: Keys): Out
    requires IsLoop(e)
    decreases e, 1
  {
    match e
    case While(key, _, pattern, body) =>
      var t := Test(e, h, active);
      EvalStmts(body, Bind(pattern, t.value, t.state), Narrow(active, t.value, key))
    case Loop(body) => EvalStmts(body, Live(h), active)
    case For(key, pattern, _, body) =>
      EvalStmts(body, Bind(pattern, iterated, Live(h)), Narrow(active, iterated, key))
  }

  /** What flows back to the head: the end of the body and every `continue`. */
  ghost function Back(o: Out): iset<Slot> {
    Join(o.state, o.flow.continues).Slots()
  }

  /** The next head: the entry state joined with what flows back. */
  ghost function Next(e: Expr, iterated: Facts, entry: iset<Slot>, active: Keys, h: iset<Slot>): iset<Slot>
    requires IsLoop(e)
    decreases e, 2, 0
  {
    entry + Back(Pass(e, iterated, h, active))
  }

  ghost predicate PreFixpoint(e: Expr, iterated: Facts, entry: iset<Slot>, active: Keys, h: iset<Slot>)
    requires IsLoop(e)
    decreases e, 2, 1
  {
    Next(e, iterated, entry, active, h) <= h
  }

  ghost predicate InEveryPreFixpoint(e: Expr, iterated: Facts, entry: iset<Slot>, active: Keys, s: Slot)
    requires IsLoop(e)
    decreases e, 2, 2
  {
    forall h: iset<Slot> :: PreFixpoint(e, iterated, entry, active, h) ==> s in h
  }

  /** The head of a loop: the meet of all pre-fixpoints of `Next`. */
  ghost function Head(e: Expr, iterated: Facts, entry: iset<Slot>, active: Keys): iset<Slot>
    requires IsLoop(e)
    decreases e, 2, 3
  {
    iset s: Slot | InEveryPreFixpoint(e, iterated, entry, active, s)
  }

  // ----- functions -----

  /** Everything a function body's analysis should record. */
  ghost function Meaning(body: Stmts, tail: Option<ExitKey>): iset<Record> {
    var o := EvalStmts(body, Live(iset{}), iset{});
    if o.state.Live? && tail.Some? then o.records + ExitRecords(tail.value, o.value) else o.records
  }
}
