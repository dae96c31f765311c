/** The transfer function is monotone, by induction on the syntax, and so the head of
    every loop is its least fixpoint. */
module DependMonotone {
  import opened Options
  import opened DependSyntax
  import opened DependMeaning

  ghost predicate LeqState(a: State, b: State) {
    a.Dead? || (b.Live? && a.slots <= b.slots)
  }

  ghost predicate LeqFlow(a: Flow, b: Flow) {
    LeqState(a.breaks, b.breaks) && LeqState(a.continues, b.continues) && a.value <= b.value
  }

  ghost predicate Leq(a: Out, b: Out) {
    a.value <= b.value && LeqState(a.state, b.state) && LeqFlow(a.flow, b.flow) && a.records <= b.records
  }

  lemma StateAntisymmetric(a: State, b: State)
    requires LeqState(a, b) && LeqState(b, a)
    ensures a == b
  {
    assert a.Slots() == b.Slots();
  }

  // ----- the operations are monotone -----

  lemma JoinMono(a: State, a': State, b: State, b': State)
    requires LeqState(a, b) && LeqState(a', b')
    ensures LeqState(Join(a, a'), Join(b, b'))
  {
  }

  lemma ThenMono(a: Out, a': Out, b: Out, b': Out)
    requires Leq(a, b) && Leq(a', b')
    ensures Leq(Then(a, a'), Then(b, b'))
  {
  }

  lemma ReadMono(id: nat, a: State, b: State, r: Range)
    requires LeqState(a, b)
    ensures Read(id, a, r) <= Read(id, b, r)
  {
    assert a.Slots() <= b.Slots();
  }

  lemma StoreMono(a: State, b: State, id: nat, v: Facts, w: Facts)
    requires LeqState(a, b) && v <= w
    ensures LeqState(Store(a, id, v), Store(b, id, w))
    ensures LeqState(Add(a, id, v), Add(b, id, w))
  {
  }

  lemma {:induction false} BindMono(pattern: Pattern, v: Facts, w: Facts, a: State, b: State)
    requires LeqState(a, b) && v <= w
    ensures LeqState(Bind(pattern, v, a), Bind(pattern, w, b))
    decreases pattern
  {
    if pattern != [] {
      var id := pattern[0].id;
      StoreMono(a, b, id, Bound(pattern[0], v), Bound(pattern[0], w));
      BindMono(pattern[1..], v, w, Store(a, id, Bound(pattern[0], v)), Store(b, id, Bound(pattern[0], w)));
    }
  }

  lemma {:induction false} AddAllMono(a: State, b: State, ids: seq<nat>, v: Facts)
    requires LeqState(a, b)
    ensures LeqState(AddAll(a, ids, v), AddAll(b, ids, v))
    decreases ids
  {
    if ids != [] {
      StoreMono(a, b, ids[0], v, v);
      AddAllMono(Add(a, ids[0], v), Add(b, ids[0], v), ids[1..], v);
    }
  }

  lemma PassedMono(text: string, v: Facts, w: Facts)
    requires v <= w
    ensures Passed(text, v) <= Passed(text, w)
  {
  }

  lemma ComparedMono(text: string, condition: string, v: Facts, w: Facts)
    requires v <= w
    ensures Compared(text, condition, v) <= Compared(text, condition, w)
  {
  }

  // ----- the syntax -----

  lemma {:induction false} EvalMono(e: Expr, a: State, b: State, k: Keys, l: Keys)
    requires LeqState(a, b) && k <= l
    ensures Leq(Eval(e, a, k), Eval(e, b, l))
    decreases e, 4
  {
    if a.Live? {
      KindMono(e, a, b, k, l);
    }
  }

  lemma {:induction false} OptionMono(e: Option<Expr>, a: State, b: State, k: Keys, l: Keys)
    requires LeqState(a, b) && k <= l
    ensures Leq(EvalOption(e, a, k), EvalOption(e, b, l))
    decreases e, 5
  {
    if e.Some? {
      EvalMono(e.value, a, b, k, l);
    }
  }

  lemma {:induction false} KindMono(e: Expr, a: State, b: State, k: Keys, l: Keys)
    requires LeqState(a, b) && a.Live? && k <= l
    ensures Leq(EvalKind(e, a, k), EvalKind(e, b, l))
    decreases e, 3
  {
    match e
    case Constant(_, _) =>
    case Path(span, binding, _) =>
      if binding.Some? { ReadMono(binding.value, a, b, span); }
    case Opaque(_) =>
    case Group(parts) => ManyMono(parts, a, b, k, l);
    case Call(_, _, _) => CallMono(e, a, b, k, l);
    case MethodCall(_, _, _, _, _) => CallMono(e, a, b, k, l);
    case Binary(_, _, _, _, _, _, _) => BinaryMono(e, a, b, k, l);
    case Assign(_, _, _, _) => AssignMono(e, a, b, k, l);
    case If(_, _, _, _, _) => IfMono(e, a, b, k, l);
    case While(_, _, _, _) => LoopMono(e, a, b, k, l);
    case Loop(_) => LoopMono(e, a, b, k, l);
    case For(_, _, _, _) => ForMono(e, a, b, k, l);
    case Match(scrutinee, arms) =>
      EvalMono(scrutinee, a, b, k, l);
      var s, s' := Eval(scrutinee, a, k), Eval(scrutinee, b, l);
      ArmsMono(arms, s.value, s'.value, s.state, s'.state, k, l);
    case Block(stmts) => StmtsMono(stmts, a, b, k, l);
    case Ret(exit, returned) =>
      OptionMono(returned, a, b, k, l);
    case TryOp(exit, key, inner) =>
      EvalMono(inner, a, b, k, l);
    case Break(_, carried) =>
      OptionMono(carried, a, b, k, l);
    case Continue(_) =>
    case Macro(visible) => AddAllMono(a, b, visible, iset{Unknown(MacroMayAssign)});
  }

  lemma {:induction false} CallMono(e: Expr, a: State, b: State, k: Keys, l: Keys)
    requires e.Call? || e.MethodCall?
    requires LeqState(a, b) && a.Live? && k <= l
    ensures Leq(EvalKind(e, a, k), EvalKind(e, b, l))
    decreases e, 2
  {
    var f := if e.Call? then e.callee else e.receiver;
    EvalMono(f, a, b, k, l);
    var x, x' := Eval(f, a, k), Eval(f, b, l);
    ArgsMono(e.args, e.text, x.state, x'.state, k, l);
    var y, y' := EvalArgs(e.args, e.text, x.state, k), EvalArgs(e.args, e.text, x'.state, l);
    ThenMono(x, y, x', y');
    if e.MethodCall? && e.target.Some? {
      StoreMono(y.state, y'.state, e.target.value, Literals(y.value), Literals(y'.value));
    }
  }

  lemma {:induction false} BinaryMono(e: Expr, a: State, b: State, k: Keys, l: Keys)
    requires e.Binary? && LeqState(a, b) && a.Live? && k <= l
    ensures Leq(EvalKind(e, a, k), EvalKind(e, b, l))
    decreases e, 2
  {
    EvalMono(e.left, a, b, k, l);
    var x, x' := Eval(e.left, a, k), Eval(e.left, b, l);
    if e.op.Lazy? {
      EvalMono(e.right, x.state, x'.state, Narrow(k, x.value, e.key), Narrow(l, x'.value, e.key));
    } else {
      EvalMono(e.right, x.state, x'.state, k, l);
      var y, y' := Eval(e.right, x.state, k), Eval(e.right, x'.state, l);
      ThenMono(x, y, x', y');
      ComparedMono(e.rightText, e.condition, x.value, x'.value);
      ComparedMono(e.leftText, e.condition, y.value, y'.value);
    }
  }

  lemma {:induction false} AssignMono(e: Expr, a: State, b: State, k: Keys, l: Keys)
    requires e.Assign? && LeqState(a, b) && a.Live? && k <= l
    ensures Leq(EvalKind(e, a, k), EvalKind(e, b, l))
    decreases e, 2
  {
    PlaceMono(e.place, a, b, k, l);
    var p, p' := EvalPlace(e.place, a, k), EvalPlace(e.place, b, l);
    EvalMono(e.rhs, p.state, p'.state, k, l);
    var r, r' := Eval(e.rhs, p.state, k), Eval(e.rhs, p'.state, l);
    ThenMono(p, r, p', r');
    if Target(e.place).Some? {
      var id := Target(e.place).value;
      ReadMono(id, r.state, r'.state, e.place.span);
      var v, v' := r.value + p.value + AsFacts(k), r'.value + p'.value + AsFacts(l);
      StoreMono(r.state, r'.state, id, v, v');
      StoreMono(r.state, r'.state, id, v + Read(id, r.state, e.place.span), v' + Read(id, r'.state, e.place.span));
    }
  }

  lemma {:induction false} IfMono(e: Expr, a: State, b: State, k: Keys, l: Keys)
    requires e.If? && LeqState(a, b) && a.Live? && k <= l
    ensures Leq(EvalKind(e, a, k), EvalKind(e, b, l))
    decreases e, 2
  {
    EvalMono(e.cond, a, b, k, l);
    var c, c' := Eval(e.cond, a, k), Eval(e.cond, b, l);
    var i, i' := Narrow(k, c.value, e.key), Narrow(l, c'.value, e.key);
    BindMono(e.pattern, c.value, c'.value, c.state, c'.state);
    var s, s' := Bind(e.pattern, c.value, c.state), Bind(e.pattern, c'.value, c'.state);
    StmtsMono(e.thenBlock, s, s', i, i');
    OptionMono(e.otherwise, c.state, c'.state, i, i');
    var t, t' := EvalStmts(e.thenBlock, s, i), EvalStmts(e.thenBlock, s', i');
    var o, o' := EvalOption(e.otherwise, c.state, i), EvalOption(e.otherwise, c'.state, i');
    ThenMono(t, o, t', o');
    ThenMono(c, Then(t, o), c', Then(t', o'));
    JoinMono(t.state, o.state, t'.state, o'.state);
  }

  lemma {:induction false} ManyMono(es: Exprs, a: State, b: State, k: Keys, l: Keys)
    requires LeqState(a, b) && k <= l
    ensures Leq(EvalMany(es, a, k), EvalMany(es, b, l))
    decreases es
  {
    if es.MoreExprs? {
      EvalMono(es.first, a, b, k, l);
      ManyMono(es.others, Eval(es.first, a, k).state, Eval(es.first, b, l).state, k, l);
    }
  }

  lemma {:induction false} ArgsMono(es: Exprs, text: string, a: State, b: State, k: Keys, l: Keys)
    requires LeqState(a, b) && k <= l
    ensures Leq(EvalArgs(es, text, a, k), EvalArgs(es, text, b, l))
    decreases es
  {
    if es.MoreExprs? {
      EvalMono(es.first, a, b, k, l);
      var x, x' := Eval(es.first, a, k), Eval(es.first, b, l);
      PassedMono(text, x.value, x'.value);
      ArgsMono(es.others, text, x.state, x'.state, k, l);
      ThenMono(x, EvalArgs(es.others, text, x.state, k), x', EvalArgs(es.others, text, x'.state, l));
    }
  }

  lemma ReadTargetMono(base: Place, a: State, b: State)
    requires LeqState(a, b)
    ensures ReadTarget(base, a) <= ReadTarget(base, b)
  {
    if Target(base).Some? {
      ReadMono(Target(base).value, a, b, base.span);
    }
  }

  lemma {:induction false} PlaceMono(place: Place, a: State, b: State, k: Keys, l: Keys)
    requires LeqState(a, b) && k <= l
    ensures Leq(EvalPlace(place, a, k), EvalPlace(place, b, l))
    decreases place, 5
  {
    match place
    case Named(_, _) =>
    case Unnamed(_, _) =>
    case Field(_, base) =>
      PlaceMono(base, a, b, k, l);
      ReadTargetMono(base, EvalPlace(base, a, k).state, EvalPlace(base, b, l).state);
    case Indexed(_, base, index) =>
      PlaceMono(base, a, b, k, l);
      var x, x' := EvalPlace(base, a, k), EvalPlace(base, b, l);
      EvalMono(index, x.state, x'.state, k, l);
      var y, y' := Eval(index, x.state, k), Eval(index, x'.state, l);
      ThenMono(x, y, x', y');
      ReadTargetMono(base, y.state, y'.state);
    case Other(_, expr, _) =>
      EvalMono(expr, a, b, k, l);
  }

  lemma {:induction false} StmtsMono(stmts: Stmts, a: State, b: State, k: Keys, l: Keys)
    requires LeqState(a, b) && k <= l
    ensures Leq(EvalStmts(stmts, a, k), EvalStmts(stmts, b, l))
    decreases stmts, 6
  {
    if a.Live? && stmts.MoreStmts? {
      StmtMono(stmts.stmt, a, b, k, l);
      var x, x' := EvalStmt(stmts.stmt, a, k), EvalStmt(stmts.stmt, b, l);
      StmtsMono(stmts.rest, x.state, x'.state, k, l);
      ThenMono(x, EvalStmts(stmts.rest, x.state, k), x', EvalStmts(stmts.rest, x'.state, l));
    }
  }

  lemma {:induction false} StmtMono(stmt: Stmt, a: State, b: State, k: Keys, l: Keys)
    requires LeqState(a, b) && k <= l
    ensures Leq(EvalStmt(stmt, a, k), EvalStmt(stmt, b, l))
    decreases stmt, 6
  {
    match stmt
    case LetDecl(pattern) =>
      BindMono(pattern, iset{Unknown(NoInitializer)}, iset{Unknown(NoInitializer)}, a, b);
    case LetInit(pattern, init) =>
      EvalMono(init, a, b, k, l);
      var v, v' := Eval(init, a, k), Eval(init, b, l);
      BindMono(pattern, v.value, v'.value, v.state, v'.state);
    case LetElse(pattern, init, key, diverge) =>
      EvalMono(init, a, b, k, l);
      var v, v' := Eval(init, a, k), Eval(init, b, l);
      var i, i' := Narrow(k, v.value, key), Narrow(l, v'.value, key);
      StmtsMono(diverge, v.state, v'.state, i, i');
      ThenMono(v, EvalStmts(diverge, v.state, i), v', EvalStmts(diverge, v'.state, i'));
      BindMono(pattern, v.value + iset{Control(key)}, v'.value + iset{Control(key)}, v.state, v'.state);
    case Run(expr, _) =>
      EvalMono(expr, a, b, k, l);
  }

  lemma {:induction false} ArmsMono(arms: Arms, v: Facts, w: Facts, a: State, b: State, k: Keys, l: Keys)
    requires v <= w && LeqState(a, b) && k <= l
    ensures Leq(EvalArms(arms, v, a, k), EvalArms(arms, w, b, l))
    decreases arms, 6
  {
    if arms.MoreArms? {
      ArmMono(arms.arm, v, w, a, b, k, l);
      ArmsMono(arms.later, v, w, a, b, k, l);
      ThenMono(EvalArm(arms.arm, v, a, k), EvalArms(arms.later, v, a, k),
               EvalArm(arms.arm, w, b, l), EvalArms(arms.later, w, b, l));
    }
  }

  lemma {:induction false} ArmMono(arm: Arm, v: Facts, w: Facts, a: State, b: State, k: Keys, l: Keys)
    requires v <= w && LeqState(a, b) && k <= l
    ensures Leq(EvalArm(arm, v, a, k), EvalArm(arm, w, b, l))
    decreases arm, 6
  {
    BindMono(arm.pattern, v, w, a, b);
    var s, s' := Bind(arm.pattern, v, a), Bind(arm.pattern, w, b);
    var i, i' := Narrow(k, v, arm.key), Narrow(l, w, arm.key);
    match arm.guard
    case None =>
      EvalMono(arm.body, s, s', i, i');
    case Some(guard) =>
      EvalMono(guard.cond, s, s', i, i');
      var g, g' := Eval(guard.cond, s, i), Eval(guard.cond, s', i');
      var j, j' := Narrow(i, g.value, guard.key), Narrow(i', g'.value, guard.key);
      EvalMono(arm.body, g.state, g'.state, j, j');
      ThenMono(g, Eval(arm.body, g.state, j), g', Eval(arm.body, g'.state, j'));
  }

  // ----- loops -----

  lemma {:induction false} TestMono(e: Expr, h: iset<Slot>, h': iset<Slot>, k: Keys, l: Keys)
    requires IsLoop(e) && h <= h' && k <= l
    ensures Leq(Test(e, h, k), Test(e, h', l))
    decreases e, 0
  {
    if e.While? {
      EvalMono(e.cond, Live(h), Live(h'), k, l);
    }
  }

  lemma {:induction false} PassMono(e: Expr, v: Facts, w: Facts, h: iset<Slot>, h': iset<Slot>, k: Keys, l: Keys)
    requires IsLoop(e) && v <= w && h <= h' && k <= l
    ensures Leq(Pass(e, v, h, k), Pass(e, w, h', l))
    decreases e, 1
  {
    match e
    case While(key, _, pattern, body) =>
      TestMono(e, h, h', k, l);
      var t, t' := Test(e, h, k), Test(e, h', l);
      BindMono(pattern, t.value, t'.value, t.state, t'.state);
      StmtsMono(body, Bind(pattern, t.value, t.state), Bind(pattern, t'.value, t'.state),
                Narrow(k, t.value, key), Narrow(l, t'.value, key));
    case Loop(body) =>
      StmtsMono(body, Live(h), Live(h'), k, l);
    case For(key, pattern, _, body) =>
      BindMono(pattern, v, w, Live(h), Live(h'));
      StmtsMono(body, Bind(pattern, v, Live(h)), Bind(pattern, w, Live(h')), Narrow(k, v, key), Narrow(l, w, key));
  }

  lemma NextMono(e: Expr, v: Facts, w: Facts, s: iset<Slot>, s': iset<Slot>, h: iset<Slot>, h': iset<Slot>, k: Keys,
                 l: Keys)
    requires IsLoop(e) && v <= w && s <= s' && h <= h' && k <= l
    ensures Next(e, v, s, k, h) <= Next(e, w, s', l, h')
    decreases e, 2, 0
  {
    PassMono(e, v, w, h, h', k, l);
    var o, o' := Pass(e, v, h, k), Pass(e, w, h', l);
    JoinMono(o.state, o.flow.continues, o'.state, o'.flow.continues);
  }

  /** A pre-fixpoint for larger data is one for smaller data, so the meet grows. */
  lemma HeadMono(e: Expr, v: Facts, w: Facts, s: iset<Slot>, s': iset<Slot>, k: Keys, l: Keys)
    requires IsLoop(e) && v <= w && s <= s' && k <= l
    ensures Head(e, v, s, k) <= Head(e, w, s', l)
    decreases e, 2, 1
  {
    forall x, h: iset<Slot> | x in Head(e, v, s, k) && PreFixpoint(e, w, s', l, h)
      ensures x in h
    {
      NextMono(e, v, w, s, s', h, h, k, l);
      assert InEveryPreFixpoint(e, v, s, k, x) && PreFixpoint(e, v, s, k, h);
    }
  }

  lemma {:induction false} LoopMono(e: Expr, a: State, b: State, k: Keys, l: Keys)
    requires e.While? || e.Loop?
    requires LeqState(a, b) && a.Live? && k <= l
    ensures Leq(EvalKind(e, a, k), EvalKind(e, b, l))
    decreases e, 2, 2
  {
    HeadMono(e, iset{}, iset{}, a.Slots(), b.Slots(), k, l);
    var h, h' := Head(e, iset{}, a.Slots(), k), Head(e, iset{}, b.Slots(), l);
    PassMono(e, iset{}, iset{}, h, h', k, l);
    if e.While? {
      TestMono(e, h, h', k, l);
      JoinMono(Pass(e, iset{}, h, k).flow.breaks, Test(e, h, k).state,
          Pass(e, iset{}, h', l).flow.breaks, Test(e, h', l).state);
    }
  }

  lemma {:induction false} ForMono(e: Expr, a: State, b: State, k: Keys, l: Keys)
    requires e.For? && LeqState(a, b) && a.Live? && k <= l
    ensures Leq(EvalKind(e, a, k), EvalKind(e, b, l))
    decreases e, 2, 2
  {
    EvalMono(e.iter, a, b, k, l);
    var i, i' := Eval(e.iter, a, k), Eval(e.iter, b, l);
    if i.state.Live? {
      HeadMono(e, i.value, i'.value, i.state.slots, i'.state.slots, k, l);
      var h, h' := Head(e, i.value, i.state.slots, k), Head(e, i'.value, i'.state.slots, l);
      PassMono(e, i.value, i'.value, h, h', k, l);
      JoinMono(Pass(e, i.value, h, k).flow.breaks, Live(h), Pass(e, i'.value, h', l).flow.breaks, Live(h'));
    }
  }

  /** The head is a fixpoint: the entry state joined with what its own pass sends back. */
  lemma HeadIsFixpoint(e: Expr, v: Facts, s: iset<Slot>, k: Keys)
    requires IsLoop(e)
    ensures Next(e, v, s, k, Head(e, v, s, k)) == Head(e, v, s, k)
  {
    var head := Head(e, v, s, k);
    var next := Next(e, v, s, k, head);
    forall h: iset<Slot> | PreFixpoint(e, v, s, k, h)
      ensures next <= h
    {
      HeadIsLeast(e, v, s, k, h);
      NextMono(e, v, v, s, s, head, h, k, k);
    }
    assert forall x :: x in next ==> InEveryPreFixpoint(e, v, s, k, x);
    NextMono(e, v, v, s, s, next, head, k, k);
    assert PreFixpoint(e, v, s, k, next);
    HeadIsLeast(e, v, s, k, next);
  }

  /** And it is below every pre-fixpoint, so below every fixpoint. */
  lemma HeadIsLeast(e: Expr, v: Facts, s: iset<Slot>, k: Keys, h: iset<Slot>)
    requires IsLoop(e) && Next(e, v, s, k, h) <= h
    ensures Head(e, v, s, k) <= h
  {
    assert PreFixpoint(e, v, s, k, h);
  }
}
