/** Exits and the controls they stand under, by syntax: an exit inside a branch, a loop
    body, a match arm, a lazy operand or a let-else block depends on what decides whether
    it is reached. */
module DependUnder {
  import opened Options
  import opened DependSyntax
  import opened DependMeaning

  // ----- under a control, by syntax -----

  /** Wherever the exit `x` stands in the expression, it stands under `key`. */
  predicate Under(x: ExitKey, key: ControlKey, e: Expr)
    decreases e, 2
  {
    match e
    case Constant(_, _) => true
    case Path(_, _, _) => true
    case Opaque(_) => true
    case Group(parts) => UnderAll(x, key, parts)
    case Call(callee, _, args) => Under(x, key, callee) && UnderAll(x, key, args)
    case MethodCall(receiver, _, _, args, _) => Under(x, key, receiver) && UnderAll(x, key, args)
    case Binary(op, left, _, own, right, _, _) =>
      Under(x, key, left) && ((op.Lazy? && own == key) || Under(x, key, right))
    case Assign(_, place, rhs, _) => UnderPlace(x, key, place) && Under(x, key, rhs)
    case If(own, cond, _, thenBlock, otherwise) =>
      Under(x, key, cond) && (own == key || (UnderStmts(x, key, thenBlock) && UnderOption(x, key, otherwise)))
    case While(own, cond, _, body) => Under(x, key, cond) && (own == key || UnderStmts(x, key, body))
    case Loop(body) => UnderStmts(x, key, body)
    case For(own, _, iter, body) => Under(x, key, iter) && (own == key || UnderStmts(x, key, body))
    case Match(scrutinee, arms) => Under(x, key, scrutinee) && UnderArms(x, key, arms)
    case Block(stmts) => UnderStmts(x, key, stmts)
    case Ret(exit, returned) => UnderOption(x, key, returned) && exit != x
    case TryOp(exit, own, inner) => Under(x, key, inner) && (exit != x || own == key)
    case Break(_, carried) => UnderOption(x, key, carried)
    case Continue(_) => true
    case Macro(_) => true
  }

  predicate UnderOption(x: ExitKey, key: ControlKey, e: Option<Expr>)
    decreases e, 3
  {
    e.Some? ==> Under(x, key, e.value)
  }

  predicate UnderAll(x: ExitKey, key: ControlKey, es: Exprs)
    decreases es
  {
    es.MoreExprs? ==> Under(x, key, es.first) && UnderAll(x, key, es.others)
  }

  predicate UnderPlace(x: ExitKey, key: ControlKey, place: Place)
    decreases place, 3
  {
    match place
    case Named(_, _) => true
    case Unnamed(_, _) => true
    case Field(_, base) => UnderPlace(x, key, base)
    case Indexed(_, base, index) => UnderPlace(x, key, base) && Under(x, key, index)
    case Other(_, expr, _) => Under(x, key, expr)
  }

  predicate UnderStmts(x: ExitKey, key: ControlKey, stmts: Stmts)
    decreases stmts, 4
  {
    stmts.MoreStmts? ==> UnderStmt(x, key, stmts.stmt) && UnderStmts(x, key, stmts.rest)
  }

  predicate UnderStmt(x: ExitKey, key: ControlKey, stmt: Stmt)
    decreases stmt, 4
  {
    match stmt
    case LetDecl(_) => true
    case LetInit(_, init) => Under(x, key, init)
    case LetElse(_, init, own, diverge) => Under(x, key, init) && (own == key || UnderStmts(x, key, diverge))
    case Run(expr, _) => Under(x, key, expr)
  }

  predicate UnderArms(x: ExitKey, key: ControlKey, arms: Arms)
    decreases arms, 4
  {
    arms.MoreArms? ==> UnderArm(x, key, arms.arm) && UnderArms(x, key, arms.later)
  }

  predicate UnderArm(x: ExitKey, key: ControlKey, arm: Arm)
    decreases arm, 4
  {
    || arm.key == key
    || match arm.guard
       case None => Under(x, key, arm.body)
       case Some(guard) => Under(x, key, guard.cond) && (guard.key == key || Under(x, key, arm.body))
  }

  // ----- what is recorded of them -----

  /** If the exit is seen, it carries the control. */
  ghost predicate Marked(records: iset<Record>, x: ExitKey, key: ControlKey) {
    ExitSeen(x) in records ==> ExitHas(x, Control(key)) in records
  }

  lemma {:induction false} ExprMarked(e: Expr, st: State, active: Keys, x: ExitKey, key: ControlKey)
    requires key in active || Under(x, key, e)
    ensures Marked(Eval(e, st, active).records, x, key)
    decreases e, 4
  {
    hide EvalKind, Under;
    if st.Live? {
      KindMarked(e, st, active, x, key);
    }
  }

  lemma {:induction false} OptionMarked(e: Option<Expr>, st: State, active: Keys, x: ExitKey, key: ControlKey)
    requires key in active || UnderOption(x, key, e)
    ensures Marked(EvalOption(e, st, active).records, x, key)
    decreases e, 5
  {
    hide Eval, Under;
    if e.Some? {
      ExprMarked(e.value, st, active, x, key);
    }
  }

  lemma {:induction false} KindMarked(e: Expr, st: State, active: Keys, x: ExitKey, key: ControlKey)
    requires key in active || Under(x, key, e)
    ensures Marked(EvalKind(e, st, active).records, x, key)
    decreases e, 3
  {
    hide EvalKind, Under, Marked;
    if Branches(e) {
      BranchMarked(e, st, active, x, key);
    } else if Operates(e) {
      OperandMarked(e, st, active, x, key);
    } else {
      OtherMarked(e, st, active, x, key);
    }
  }

  predicate Operates(e: Expr) {
    e.Call? || e.MethodCall? || e.Binary? || e.Assign?
  }

  lemma {:induction false} OperandMarked(e: Expr, st: State, active: Keys, x: ExitKey, key: ControlKey)
    requires Operates(e) && (key in active || Under(x, key, e))
    ensures Marked(EvalKind(e, st, active).records, x, key)
    decreases e, 2
  {
    hide Eval, EvalArgs, EvalPlace, Read, Store, Add, Compared, Literals, Join, ExitRecords;
    match e
    case Call(callee, text, args) =>
      ExprMarked(callee, st, active, x, key);
      ArgsMarked(args, text, Eval(callee, st, active).state, active, x, key);
    case MethodCall(receiver, text, _, args, _) =>
      ExprMarked(receiver, st, active, x, key);
      ArgsMarked(args, text, Eval(receiver, st, active).state, active, x, key);
    case Binary(op, left, _, own, right, _, _) =>
      ExprMarked(left, st, active, x, key);
      var l := Eval(left, st, active);
      ExprMarked(right, l.state, if op.Lazy? then Narrow(active, l.value, own) else active, x, key);
    case Assign(_, place, rhs, _) =>
      PlaceMarked(place, st, active, x, key);
      ExprMarked(rhs, EvalPlace(place, st, active).state, active, x, key);
  }

  lemma {:induction false} OtherMarked(e: Expr, st: State, active: Keys, x: ExitKey, key: ControlKey)
    requires !Operates(e) && !Branches(e) && (key in active || Under(x, key, e))
    ensures Marked(EvalKind(e, st, active).records, x, key)
    decreases e, 2
  {
    hide Eval, EvalOption, EvalMany, EvalStmts, Read, AddAll, Join;
    match e
    case Group(parts) => ManyMarked(parts, st, active, x, key);
    case Block(stmts) => StmtsMarked(stmts, st, active, x, key);
    case Ret(_, returned) => OptionMarked(returned, st, active, x, key);
    case TryOp(_, _, inner) => ExprMarked(inner, st, active, x, key);
    case Break(_, carried) => OptionMarked(carried, st, active, x, key);
    case _ =>
  }

  predicate Branches(e: Expr) {
    e.If? || e.While? || e.Loop? || e.For? || e.Match?
  }

  lemma {:induction false} BranchMarked(e: Expr, st: State, active: Keys, x: ExitKey, key: ControlKey)
    requires Branches(e) && (key in active || Under(x, key, e))
    ensures Marked(EvalKind(e, st, active).records, x, key)
    decreases e, 2
  {
    hide Eval, EvalOption, EvalMany, EvalArgs, EvalPlace, EvalStmts, EvalArms, Head, Test, Pass, Read, Store, Add,
      AddAll, Bind, Compared, Literals, Join, ExitRecords;
    match e
    case If(own, cond, pattern, thenBlock, otherwise) =>
      ExprMarked(cond, st, active, x, key);
      var c := Eval(cond, st, active);
      StmtsMarked(thenBlock, Bind(pattern, c.value, c.state), Narrow(active, c.value, own), x, key);
      OptionMarked(otherwise, c.state, Narrow(active, c.value, own), x, key);
    case While(_, _, _, _) =>
      var h := Head(e, iset{}, st.Slots(), active);
      TestMarked(e, h, active, x, key);
      PassMarked(e, iset{}, h, active, x, key);
    case Loop(_) =>
      PassMarked(e, iset{}, Head(e, iset{}, st.Slots(), active), active, x, key);
    case For(_, _, iter, _) =>
      ExprMarked(iter, st, active, x, key);
      var i := Eval(iter, st, active);
      if i.state.Live? {
        PassMarked(e, i.value, Head(e, i.value, i.state.slots, active), active, x, key);
      }
    case Match(scrutinee, arms) =>
      ExprMarked(scrutinee, st, active, x, key);
      var s := Eval(scrutinee, st, active);
      ArmsMarked(arms, s.value, s.state, active, x, key);
  }

  lemma {:induction false} ManyMarked(es: Exprs, st: State, active: Keys, x: ExitKey, key: ControlKey)
    requires key in active || UnderAll(x, key, es)
    ensures Marked(EvalMany(es, st, active).records, x, key)
    decreases es
  {
    hide Eval, Under;
    if es.MoreExprs? {
      ExprMarked(es.first, st, active, x, key);
      ManyMarked(es.others, Eval(es.first, st, active).state, active, x, key);
    }
  }

  lemma {:induction false} ArgsMarked(es: Exprs, text: string, st: State, active: Keys, x: ExitKey, key: ControlKey)
    requires key in active || UnderAll(x, key, es)
    ensures Marked(EvalArgs(es, text, st, active).records, x, key)
    decreases es
  {
    hide Eval, Under, Passed;
    if es.MoreExprs? {
      ExprMarked(es.first, st, active, x, key);
      ArgsMarked(es.others, text, Eval(es.first, st, active).state, active, x, key);
    }
  }

  lemma {:induction false} PlaceMarked(place: Place, st: State, active: Keys, x: ExitKey, key: ControlKey)
    requires key in active || UnderPlace(x, key, place)
    ensures Marked(EvalPlace(place, st, active).records, x, key)
    decreases place, 5
  {
    hide Eval, Under, ReadTarget;
    match place
    case Field(_, base) => PlaceMarked(base, st, active, x, key);
    case Indexed(_, base, index) =>
      PlaceMarked(base, st, active, x, key);
      ExprMarked(index, EvalPlace(base, st, active).state, active, x, key);
    case Other(_, expr, _) => ExprMarked(expr, st, active, x, key);
    case _ =>
  }

  lemma {:induction false} StmtsMarked(stmts: Stmts, st: State, active: Keys, x: ExitKey, key: ControlKey)
    requires key in active || UnderStmts(x, key, stmts)
    ensures Marked(EvalStmts(stmts, st, active).records, x, key)
    decreases stmts, 6
  {
    hide EvalStmt, UnderStmt;
    if st.Live? && stmts.MoreStmts? {
      StmtMarked(stmts.stmt, st, active, x, key);
      StmtsMarked(stmts.rest, EvalStmt(stmts.stmt, st, active).state, active, x, key);
    }
  }

  lemma {:induction false} StmtMarked(stmt: Stmt, st: State, active: Keys, x: ExitKey, key: ControlKey)
    requires key in active || UnderStmt(x, key, stmt)
    ensures Marked(EvalStmt(stmt, st, active).records, x, key)
    decreases stmt, 6
  {
    hide Eval, Under, EvalStmts, UnderStmts, Bind;
    match stmt
    case LetInit(_, init) => ExprMarked(init, st, active, x, key);
    case LetElse(_, init, own, diverge) =>
      ExprMarked(init, st, active, x, key);
      var v := Eval(init, st, active);
      StmtsMarked(diverge, v.state, Narrow(active, v.value, own), x, key);
    case Run(expr, _) => ExprMarked(expr, st, active, x, key);
    case _ =>
  }

  lemma {:induction false} ArmsMarked(arms: Arms, scrutinee: Facts, base: State, active: Keys, x: ExitKey,
                                      key: ControlKey)
    requires key in active || UnderArms(x, key, arms)
    ensures Marked(EvalArms(arms, scrutinee, base, active).records, x, key)
    decreases arms, 6
  {
    hide EvalArm, UnderArm;
    if arms.MoreArms? {
      ArmMarked(arms.arm, scrutinee, base, active, x, key);
      ArmsMarked(arms.later, scrutinee, base, active, x, key);
    }
  }

  lemma {:induction false} ArmMarked(arm: Arm, scrutinee: Facts, base: State, active: Keys, x: ExitKey, key: ControlKey)
    requires key in active || UnderArm(x, key, arm)
    ensures Marked(EvalArm(arm, scrutinee, base, active).records, x, key)
    decreases arm, 6
  {
    hide Eval, Under, Bind;
    var st, inner := Bind(arm.pattern, scrutinee, base), Narrow(active, scrutinee, arm.key);
    match arm.guard
    case None => ExprMarked(arm.body, st, inner, x, key);
    case Some(guard) =>
      ExprMarked(guard.cond, st, inner, x, key);
      var g := Eval(guard.cond, st, inner);
      ExprMarked(arm.body, g.state, Narrow(inner, g.value, guard.key), x, key);
  }

  lemma {:induction false} TestMarked(e: Expr, h: iset<Slot>, active: Keys, x: ExitKey, key: ControlKey)
    requires IsLoop(e) && (key in active || Under(x, key, e))
    ensures Marked(Test(e, h, active).records, x, key)
    decreases e, 0
  {
    hide Eval;
    if e.While? {
      ExprMarked(e.cond, Live(h), active, x, key);
    }
  }

  lemma {:induction false} PassMarked(e: Expr, iterated: Facts, h: iset<Slot>, active: Keys, x: ExitKey,
                                      key: ControlKey)
    requires IsLoop(e) && (key in active || Under(x, key, e))
    ensures Marked(Pass(e, iterated, h, active).records, x, key)
    decreases e, 1
  {
    hide EvalStmts, Bind, Test;
    match e
    case While(own, _, pattern, body) =>
      var t := Test(e, h, active);
      StmtsMarked(body, Bind(pattern, t.value, t.state), Narrow(active, t.value, own), x, key);
    case Loop(body) => StmtsMarked(body, Live(h), active, x, key);
    case For(own, pattern, _, body) =>
      StmtsMarked(body, Bind(pattern, iterated, Live(h)), Narrow(active, iterated, own), x, key);
  }

  /** An exit that stands under a control wherever it stands, and is reached, depends on
      that control. */
  lemma ExitsUnderControls(body: Stmts, tail: Option<ExitKey>, x: ExitKey, key: ControlKey)
    requires UnderStmts(x, key, body) && tail != Some(x)
    ensures ExitSeen(x) in Meaning(body, tail) ==> ExitHas(x, Control(key)) in Meaning(body, tail)
  {
    hide EvalStmts, UnderStmts;
    StmtsMarked(body, Live(iset{}), iset{}, x, key);
  }
}
