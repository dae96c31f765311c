/** The analysis invents no path: where it finds a point reachable, a run gets there. */
module DependReach {
  import opened Options
  import opened DependSyntax
  import opened DependMeaning
  import opened DependRuns
  import opened DependSound

  /** The analysis finds that the syntax can end so. */
  ghost predicate CanEnd(o: Out, end: End) {
    match end
    case Done => o.state.Live?
    case Broke => o.flow.breaks.Live?
    case Continued => o.flow.continues.Live?
    case Gone => false
  }

  lemma {:induction false} BindLive(pattern: Pattern, value: Facts, st: State)
    ensures Bind(pattern, value, st).Live? <==> st.Live?
    decreases pattern
  {
    if pattern != [] {
      BindLive(pattern[1..], value, Store(st, pattern[0].id, Bound(pattern[0], value)));
    }
  }

  lemma {:induction false} AddAllLive(st: State, ids: seq<nat>, value: Facts)
    ensures AddAll(st, ids, value).Live? <==> st.Live?
    decreases ids
  {
    if ids != [] {
      AddAllLive(Add(st, ids[0], value), ids[1..], value);
    }
  }

  // ----- expressions -----

  /** From any memory and under any controls, a run of the expression ends as the analysis
      says it can. */
  lemma {:induction false} ExprReached(
      e: Expr, st: State, active: Keys, end: End, m: Memory, keys: iset<ControlKey>) returns (r: Ran)
    requires CanEnd(Eval(e, st, active), end)
    ensures st.Live? && Runs(e, m, keys, r) && r.end == end
    decreases e, 5
  {
    hide EvalKind, RunsKind;
    var own := KindReached(e, st, active, end, m, keys);
    r := if own.end.Done? then own.(value := own.value + Deciding(keys)) else own;
  }

  lemma {:induction false} OptionReached(
      e: Option<Expr>, st: State, active: Keys, end: End, m: Memory, keys: iset<ControlKey>) returns (r: Ran)
    requires CanEnd(EvalOption(e, st, active), end)
    ensures st.Live? && RunsOption(e, m, keys, r) && r.end == end
    decreases e, 6
  {
    hide Eval, Runs;
    match e
    case None => r := Ran(Done, iset{}, m, iset{});
    case Some(expr) => r := ExprReached(expr, st, active, end, m, keys);
  }

  lemma {:induction false} KindReached(
      e: Expr, st: State, active: Keys, end: End, m: Memory, keys: iset<ControlKey>) returns (r: Ran)
    requires st.Live? && CanEnd(EvalKind(e, st, active), end)
    ensures RunsKind(e, m, keys, r) && r.end == end
    decreases e, 4
  {
    hide EvalKind, RunsKind, CanEnd;
    match e
    case Call(_, _, _) => r := CallReached(e, st, active, end, m, keys);
    case MethodCall(_, _, _, _, _) => r := MethodCallReached(e, st, active, end, m, keys);
    case Binary(op, _, _, _, _, _, _) =>
      if op.Lazy? {
        r := LazyReached(e, st, active, end, m, keys);
      } else {
        r := EagerReached(e, st, active, end, m, keys);
      }
    case Assign(_, _, _, _) => r := AssignReached(e, st, active, end, m, keys);
    case If(_, _, _, _, _) => r := IfReached(e, st, active, end, m, keys);
    case While(_, _, _, _) => r := WhileReached(e, st, active, end, m, keys);
    case Loop(_) => r := LoopReached(e, st, active, end, m, keys);
    case For(_, _, _, _) => r := ForReached(e, st, active, end, m, keys);
    case Match(_, _) => r := MatchReached(e, st, active, end, m, keys);
    case Ret(_, _) => r := RetReached(e, st, active, end, m, keys);
    case TryOp(_, _, _) => r := TryReached(e, st, active, end, m, keys);
    case Break(_, _) => r := BreakReached(e, st, active, end, m, keys);
    case _ => r := PlainReached(e, st, active, end, m, keys);
  }

  predicate Plain(e: Expr) {
    e.Constant? || e.Path? || e.Opaque? || e.Group? || e.Block? || e.Continue? || e.Macro?
  }

  lemma {:induction false} PlainReached(
      e: Expr, st: State, active: Keys, end: End, m: Memory, keys: iset<ControlKey>) returns (r: Ran)
    requires Plain(e) && st.Live? && CanEnd(EvalKind(e, st, active), end)
    ensures RunsKind(e, m, keys, r) && r.end == end
    decreases e, 3
  {
    hide EvalMany, RunsMany, EvalStmts, RunsStmts, AddAll;
    match e
    case Constant(span, known) =>
      r := Ran(Done, if known then iset{Literal(LiteralFact(span, None, None, false))} else iset{}, m, iset{});
    case Path(span, binding, why) =>
      r := Ran(Done, if binding.Some? then Got(m, binding.value, span) else iset{Unknown(why)}, m, iset{});
    case Opaque(why) => r := Ran(Done, iset{Unknown(why)}, m, iset{});
    case Group(parts) => r := ManyReached(parts, st, active, end, m, keys);
    case Block(stmts) => r := StmtsReached(stmts, st, active, end, m, keys);
    case Continue(_) => r := Ran(Continued, iset{}, m, iset{});
    case Macro(visible) =>
      AddAllLive(st, visible, iset{Unknown(MacroMayAssign)});
      r := Ran(Done, iset{Unknown(OpaqueMacro)}, Blurred(m, visible), iset{});
  }

  lemma {:induction false} CallReached(
      e: Expr, st: State, active: Keys, end: End, m: Memory, keys: iset<ControlKey>) returns (r: Ran)
    requires st.Live? && e.Call? && CanEnd(EvalKind(e, st, active), end)
    ensures RunsKind(e, m, keys, r) && r.end == end
    decreases e, 3
  {
    hide Eval, Runs, EvalArgs, RunsArgs;
    var o := Eval(e.callee, st, active);
    if !end.Done? && CanEnd(o, end) {
      r := ExprReached(e.callee, st, active, end, m, keys);
    } else {
      var _ := ArgsReached(e.args, e.text, o.state, active, end, m, keys);
      var f := ExprReached(e.callee, st, active, Done, m, keys);
      var a := ArgsReached(e.args, e.text, o.state, active, end, f.memory, keys);
      r := Noting(f.notes, if a.end.Done? then a.(value := f.value + a.value) else a);
    }
  }

  lemma {:induction false} MethodCallReached(
      e: Expr, st: State, active: Keys, end: End, m: Memory, keys: iset<ControlKey>) returns (r: Ran)
    requires st.Live? && e.MethodCall? && CanEnd(EvalKind(e, st, active), end)
    ensures RunsKind(e, m, keys, r) && r.end == end
    decreases e, 3
  {
    hide Eval, Runs, EvalArgs, RunsArgs;
    var o := Eval(e.receiver, st, active);
    if !end.Done? && CanEnd(o, end) {
      r := ExprReached(e.receiver, st, active, end, m, keys);
    } else {
      var _ := ArgsReached(e.args, e.text, o.state, active, end, m, keys);
      var f := ExprReached(e.receiver, st, active, Done, m, keys);
      var a := ArgsReached(e.args, e.text, o.state, active, end, f.memory, keys);
      r := Noting(f.notes, if a.end.Done? then Pushed(a, e.target, f.value + a.value + iset{Unknown(e.why)}) else a);
    }
  }

  lemma {:induction false} LazyReached(
      e: Expr, st: State, active: Keys, end: End, m: Memory, keys: iset<ControlKey>) returns (r: Ran)
    requires st.Live? && e.Binary? && e.op.Lazy? && CanEnd(EvalKind(e, st, active), end)
    ensures RunsKind(e, m, keys, r) && r.end == end
    decreases e, 3
  {
    hide Eval, Runs;
    var o := Eval(e.left, st, active);
    var inner := Narrow(active, o.value, e.key);
    if CanEnd(o, end) {
      var l := ExprReached(e.left, st, active, end, m, keys);
      r := if end.Done? then l.(notes := l.notes + Decided(e.key, l.value)) else l;
    } else {
      var _ := ExprReached(e.right, o.state, inner, end, m, keys);
      var l := ExprReached(e.left, st, active, Done, m, keys);
      var s := ExprReached(e.right, o.state, inner, end, l.memory, Deeper(keys, l.value, e.key));
      r := Noting(l.notes + Decided(e.key, l.value), if s.end.Done? then s.(value := l.value + s.value) else s);
    }
  }

  lemma {:induction false} EagerReached(
      e: Expr, st: State, active: Keys, end: End, m: Memory, keys: iset<ControlKey>) returns (r: Ran)
    requires st.Live? && e.Binary? && !e.op.Lazy? && CanEnd(EvalKind(e, st, active), end)
    ensures RunsKind(e, m, keys, r) && r.end == end
    decreases e, 3
  {
    hide Eval, Runs;
    var o := Eval(e.left, st, active);
    if !end.Done? && CanEnd(o, end) {
      r := ExprReached(e.left, st, active, end, m, keys);
    } else {
      var _ := ExprReached(e.right, o.state, active, end, m, keys);
      var l := ExprReached(e.left, st, active, Done, m, keys);
      var s := ExprReached(e.right, o.state, active, end, l.memory, keys);
      var value := Both(e.op, l.value, e.leftText, s.value, e.rightText, e.condition);
      r := Noting(l.notes, if s.end.Done? then s.(value := value) else s);
    }
  }

  lemma {:induction false} AssignReached(
      e: Expr, st: State, active: Keys, end: End, m: Memory, keys: iset<ControlKey>) returns (r: Ran)
    requires st.Live? && e.Assign? && CanEnd(EvalKind(e, st, active), end)
    ensures RunsKind(e, m, keys, r) && r.end == end
    decreases e, 3
  {
    hide Eval, Runs, EvalPlace, RunsPlace;
    var o := EvalPlace(e.place, st, active);
    if !end.Done? && CanEnd(o, end) {
      r := PlaceReached(e.place, st, active, end, m, keys);
    } else {
      var _ := ExprReached(e.rhs, o.state, active, end, m, keys);
      var p := PlaceReached(e.place, st, active, Done, m, keys);
      var v := ExprReached(e.rhs, o.state, active, end, p.memory, keys);
      r := Noting(p.notes, if v.end.Done? then Assigned(e.site, e.place, e.compound, keys, p.value, v) else v);
    }
  }

  lemma {:induction false} IfReached(
      e: Expr, st: State, active: Keys, end: End, m: Memory, keys: iset<ControlKey>) returns (r: Ran)
    requires st.Live? && e.If? && CanEnd(EvalKind(e, st, active), end)
    ensures RunsKind(e, m, keys, r) && r.end == end
    decreases e, 3
  {
    hide Eval, Runs, EvalStmts, RunsStmts, EvalOption, RunsOption, Bind;
    var o := Eval(e.cond, st, active);
    var inner := Narrow(active, o.value, e.key);
    var bound := Bind(e.pattern, o.value, o.state);
    BindLive(e.pattern, o.value, o.state);
    if !end.Done? && CanEnd(o, end) {
      r := ExprReached(e.cond, st, active, end, m, keys);
    } else if CanEnd(EvalStmts(e.thenBlock, bound, inner), end) {
      var _ := StmtsReached(e.thenBlock, bound, inner, end, m, keys);
      var c := ExprReached(e.cond, st, active, Done, m, keys);
      var b := StmtsReached(e.thenBlock, bound, inner, end, Holding(e.pattern, c.value, c.memory),
                            Deeper(keys, c.value, e.key));
      r := Noting(c.notes + Decided(e.key, c.value), b);
    } else {
      var _ := OptionReached(e.otherwise, o.state, inner, end, m, keys);
      var c := ExprReached(e.cond, st, active, Done, m, keys);
      var b := OptionReached(e.otherwise, o.state, inner, end, c.memory, Deeper(keys, c.value, e.key));
      r := Noting(c.notes + Decided(e.key, c.value), b);
    }
  }

  lemma {:induction false} MatchReached(
      e: Expr, st: State, active: Keys, end: End, m: Memory, keys: iset<ControlKey>) returns (r: Ran)
    requires st.Live? && e.Match? && CanEnd(EvalKind(e, st, active), end)
    ensures RunsKind(e, m, keys, r) && r.end == end
    decreases e, 3
  {
    hide Eval, Runs, EvalArms, RunsArms;
    var o := Eval(e.scrutinee, st, active);
    if !end.Done? && CanEnd(o, end) {
      r := ExprReached(e.scrutinee, st, active, end, m, keys);
    } else if e.arms.NoArms? {
      NoArmEnds(o.value, o.state, active, end);
      var s := ExprReached(e.scrutinee, st, active, Done, m, keys);
      r := s.(value := iset{});
    } else {
      var _ := ArmsReached(e.arms, o.value, o.state, active, end, iset{}, m, keys);
      var s := ExprReached(e.scrutinee, st, active, Done, m, keys);
      var a := ArmsReached(e.arms, o.value, o.state, active, end, s.value, s.memory, keys);
      r := Noting(s.notes, a);
    }
  }

  lemma NoArmEnds(value: Facts, st: State, active: Keys, end: End)
    ensures !CanEnd(EvalArms(NoArms, value, st, active), end)
  {
  }

  lemma {:induction false} RetReached(
      e: Expr, st: State, active: Keys, end: End, m: Memory, keys: iset<ControlKey>) returns (r: Ran)
    requires st.Live? && e.Ret? && CanEnd(EvalKind(e, st, active), end)
    ensures RunsKind(e, m, keys, r) && r.end == end
    decreases e, 3
  {
    hide EvalOption, RunsOption;
    r := OptionReached(e.returned, st, active, end, m, keys);
  }

  lemma {:induction false} TryReached(
      e: Expr, st: State, active: Keys, end: End, m: Memory, keys: iset<ControlKey>) returns (r: Ran)
    requires st.Live? && e.TryOp? && CanEnd(EvalKind(e, st, active), end)
    ensures RunsKind(e, m, keys, r) && r.end == end
    decreases e, 3
  {
    hide Eval, Runs;
    r := ExprReached(e.inner, st, active, end, m, keys);
    if end.Done? {
      var value := r.value + iset{Control(e.key)};
      var notes := r.notes + Decided(e.key, r.value) + Left(e.exit, value + Deciding(keys));
      r := Ran(Done, value, r.memory, notes);
    }
  }

  lemma {:induction false} BreakReached(
      e: Expr, st: State, active: Keys, end: End, m: Memory, keys: iset<ControlKey>) returns (r: Ran)
    requires st.Live? && e.Break? && CanEnd(EvalKind(e, st, active), end)
    ensures RunsKind(e, m, keys, r) && r.end == end
    decreases e, 3
  {
    hide EvalOption, RunsOption;
    if CanEnd(EvalOption(e.carried, st, active), end) {
      r := OptionReached(e.carried, st, active, end, m, keys);
    } else {
      var v := OptionReached(e.carried, st, active, Done, m, keys);
      r := Ran(Broke, v.value, v.memory, v.notes);
    }
  }

  lemma {:induction false} ManyReached(
      es: Exprs, st: State, active: Keys, end: End, m: Memory, keys: iset<ControlKey>) returns (r: Ran)
    requires CanEnd(EvalMany(es, st, active), end)
    ensures st.Live? && RunsMany(es, m, keys, r) && r.end == end
    decreases es
  {
    hide Eval, Runs;
    match es
    case NoExprs => r := Ran(Done, iset{}, m, iset{});
    case MoreExprs(first, others) =>
      var o := Eval(first, st, active);
      if !end.Done? && CanEnd(o, end) {
        r := ExprReached(first, st, active, end, m, keys);
      } else {
        var _ := ManyReached(others, o.state, active, end, m, keys);
        var a := ExprReached(first, st, active, Done, m, keys);
        var b := ManyReached(others, o.state, active, end, a.memory, keys);
        r := Noting(a.notes, if b.end.Done? then b.(value := a.value + b.value) else b);
      }
  }

  lemma {:induction false} ArgsReached(
      es: Exprs, text: string, st: State, active: Keys, end: End, m: Memory, keys: iset<ControlKey>) returns (r: Ran)
    requires CanEnd(EvalArgs(es, text, st, active), end)
    ensures st.Live? && RunsArgs(es, text, m, keys, r) && r.end == end
    decreases es
  {
    hide Eval, Runs;
    match es
    case NoExprs => r := Ran(Done, iset{}, m, iset{});
    case MoreExprs(first, others) =>
      var o := Eval(first, st, active);
      if !end.Done? && CanEnd(o, end) {
        r := ExprReached(first, st, active, end, m, keys);
      } else {
        var _ := ArgsReached(others, text, o.state, active, end, m, keys);
        var a := ExprReached(first, st, active, Done, m, keys);
        var b := ArgsReached(others, text, o.state, active, end, a.memory, keys);
        r := Noting(a.notes, if b.end.Done? then b.(value := ThroughCall(text, a.value) + b.value) else b);
      }
  }

  lemma {:induction false} PlaceReached(
      place: Place, st: State, active: Keys, end: End, m: Memory, keys: iset<ControlKey>) returns (r: Ran)
    requires CanEnd(EvalPlace(place, st, active), end)
    ensures st.Live? && RunsPlace(place, m, keys, r) && r.end == end
    decreases place, 6
  {
    hide Eval, Runs;
    match place
    case Named(_, _) => r := Ran(Done, iset{}, m, iset{});
    case Unnamed(_, why) => r := Ran(Done, iset{Unknown(why)}, m, iset{});
    case Field(_, base) =>
      var b := PlaceReached(base, st, active, end, m, keys);
      r := if b.end.Done? then b.(value := b.value + GotBase(base, b.memory)) else b;
    case Indexed(_, base, index) =>
      var o := EvalPlace(base, st, active);
      if !end.Done? && CanEnd(o, end) {
        r := PlaceReached(base, st, active, end, m, keys);
      } else {
        var _ := ExprReached(index, o.state, active, end, m, keys);
        var b := PlaceReached(base, st, active, Done, m, keys);
        var i := ExprReached(index, o.state, active, end, b.memory, keys);
        r := Noting(b.notes, if i.end.Done? then i.(value := b.value + i.value + GotBase(base, i.memory)) else i);
      }
    case Other(_, expr, why) =>
      var v := ExprReached(expr, st, active, end, m, keys);
      r := if v.end.Done? then v.(value := v.value + iset{Unknown(why)}) else v;
  }

  // ----- statements and arms -----

  lemma {:induction false} StmtsReached(
      stmts: Stmts, st: State, active: Keys, end: End, m: Memory, keys: iset<ControlKey>) returns (r: Ran)
    requires CanEnd(EvalStmts(stmts, st, active), end)
    ensures st.Live? && RunsStmts(stmts, m, keys, r) && r.end == end
    decreases stmts, 7
  {
    hide EvalStmt, RunsStmt;
    match stmts
    case NoStmts => r := Ran(Done, iset{}, m, iset{});
    case MoreStmts(stmt, rest) =>
      var o := EvalStmt(stmt, st, active);
      if (!end.Done? || rest.NoStmts?) && CanEnd(o, end) {
        r := StmtReached(stmt, st, active, end, m, keys);
      } else {
        var _ := StmtsReached(rest, o.state, active, end, m, keys);
        var a := StmtReached(stmt, st, active, Done, m, keys);
        var b := StmtsReached(rest, o.state, active, end, a.memory, keys);
        r := Noting(a.notes, b);
      }
  }

  lemma {:induction false} StmtReached(
      stmt: Stmt, st: State, active: Keys, end: End, m: Memory, keys: iset<ControlKey>) returns (r: Ran)
    requires st.Live? && CanEnd(EvalStmt(stmt, st, active), end)
    ensures RunsStmt(stmt, m, keys, r) && r.end == end
    decreases stmt, 7
  {
    hide Eval, Runs, EvalStmts, RunsStmts, Bind;
    match stmt
    case LetDecl(pattern) => r := Ran(Done, iset{}, Holding(pattern, iset{Unknown(NoInitializer)}, m), iset{});
    case LetInit(pattern, init) =>
      BindLive(pattern, Eval(init, st, active).value, Eval(init, st, active).state);
      var v := ExprReached(init, st, active, end, m, keys);
      r := if v.end.Done? then v.(value := iset{}, memory := Holding(pattern, v.value, v.memory)) else v;
    case LetElse(_, _, _, _) => r := LetElseReached(stmt, st, active, end, m, keys);
    case Run(expr, semi) =>
      var v := ExprReached(expr, st, active, end, m, keys);
      r := if v.end.Done? && semi then v.(value := iset{}) else v;
  }

  lemma {:induction false} LetElseReached(
      stmt: Stmt, st: State, active: Keys, end: End, m: Memory, keys: iset<ControlKey>) returns (r: Ran)
    requires st.Live? && stmt.LetElse? && CanEnd(EvalStmt(stmt, st, active), end)
    ensures RunsStmt(stmt, m, keys, r) && r.end == end
    decreases stmt, 6
  {
    hide Eval, Runs, EvalStmts, RunsStmts, Bind;
    var o := Eval(stmt.init, st, active);
    var inner := Narrow(active, o.value, stmt.key);
    BindLive(stmt.pattern, o.value + iset{Control(stmt.key)}, o.state);
    if CanEnd(o, end) {
      var v := ExprReached(stmt.init, st, active, end, m, keys);
      r := if end.Done?
        then Ran(Done, iset{}, Holding(stmt.pattern, v.value + iset{Control(stmt.key)}, v.memory),
                 v.notes + Decided(stmt.key, v.value))
        else v;
    } else {
      var _ := StmtsReached(stmt.diverge, o.state, inner, end, m, keys);
      var v := ExprReached(stmt.init, st, active, Done, m, keys);
      var d := StmtsReached(stmt.diverge, o.state, inner, end, v.memory, Deeper(keys, v.value, stmt.key));
      r := Noting(v.notes + Decided(stmt.key, v.value), d);
    }
  }

  lemma {:induction false} ArmsReached(arms: Arms, value: Facts, st: State, active: Keys, end: End, v: iset<Fact>,
                                       m: Memory, keys: iset<ControlKey>) returns (r: Ran)
    requires CanEnd(EvalArms(arms, value, st, active), end)
    ensures st.Live? && RunsArms(arms, v, m, keys, r) && r.end == end
    decreases arms, 7
  {
    hide EvalArm, RunsArm;
    if CanEnd(EvalArm(arms.arm, value, st, active), end) {
      r := ArmReached(arms.arm, value, st, active, end, v, m, keys);
    } else {
      r := ArmsReached(arms.later, value, st, active, end, v, m, keys);
    }
  }

  lemma {:induction false} ArmReached(arm: Arm, value: Facts, st: State, active: Keys, end: End, v: iset<Fact>,
                                      m: Memory, keys: iset<ControlKey>) returns (r: Ran)
    requires CanEnd(EvalArm(arm, value, st, active), end)
    ensures st.Live? && RunsArm(arm, v, m, keys, r) && r.end == end
    decreases arm, 7
  {
    hide Eval, Runs, Bind;
    BindLive(arm.pattern, value, st);
    var tested := v + (iset f: Fact | f.Literal? && f.literal in arm.literals);
    var bound, inner := Bind(arm.pattern, value, st), Narrow(active, value, arm.key);
    var memory, deeper := Holding(arm.pattern, v, m), Deeper(keys, v, arm.key);
    match arm.guard
    case None =>
      var b := ExprReached(arm.body, bound, inner, end, memory, deeper);
      r := Noting(Decided(arm.key, tested), b);
    case Some(guard) =>
      var o := Eval(guard.cond, bound, inner);
      if !end.Done? && CanEnd(o, end) {
        var g := ExprReached(guard.cond, bound, inner, end, memory, deeper);
        r := Noting(Decided(arm.key, tested), g);
      } else {
        var last := Narrow(inner, o.value, guard.key);
        var _ := ExprReached(arm.body, o.state, last, end, memory, deeper);
        var g := ExprReached(guard.cond, bound, inner, Done, memory, deeper);
        var b := ExprReached(arm.body, o.state, last, end, g.memory, Deeper(deeper, g.value, guard.key));
        r := Noting(Decided(arm.key, tested) + g.notes + Decided(guard.key, g.value), b);
      }
  }

  // ----- loops -----

  lemma {:induction false} WhileReached(
      e: Expr, st: State, active: Keys, end: End, m: Memory, keys: iset<ControlKey>) returns (r: Ran)
    requires st.Live? && e.While? && CanEnd(EvalKind(e, st, active), end)
    ensures RunsKind(e, m, keys, r) && r.end == end
    decreases e, 3
  {
    hide Eval, Runs, EvalStmts, RunsStmts, Bind, Head;
    var h := Head(e, iset{}, st.slots, active);
    var o := Test(e, h, active);
    if o.state.Dead? {
      NothingFromDead(e, o.value, active);
    }
    var t := ExprReached(e.cond, Live(h), active, end, m, keys);
    r := if end.Done? then Ran(Done, iset{}, t.memory, t.notes + Decided(e.key, t.value)) else t;
    assert Iterates(e, iset{}, m, keys, 0, r);
  }

  lemma NothingFromDead(e: Expr, value: Facts, active: Keys)
    requires e.While?
    ensures EvalStmts(e.body, Bind(e.pattern, value, Dead), Narrow(active, value, e.key)).flow == NoFlow()
  {
    BindLive(e.pattern, value, Dead);
  }

  lemma {:induction false} LoopReached(
      e: Expr, st: State, active: Keys, end: End, m: Memory, keys: iset<ControlKey>) returns (r: Ran)
    requires st.Live? && e.Loop? && CanEnd(EvalKind(e, st, active), end)
    ensures RunsKind(e, m, keys, r) && r.end == end
    decreases e, 3
  {
    hide EvalStmts, RunsStmts, Head;
    var h := Head(e, iset{}, st.slots, active);
    var b := StmtsReached(e.body, Live(h), active, Broke, m, keys);
    r := Ran(Done, b.value, b.memory, iset{} + b.notes);
    assert GoesRound(e, iset{}, keys, 0, iset{}, b, r);
    assert Iterates(e, iset{}, m, keys, 1, r);
  }

  lemma {:induction false} ForReached(
      e: Expr, st: State, active: Keys, end: End, m: Memory, keys: iset<ControlKey>) returns (r: Ran)
    requires st.Live? && e.For? && CanEnd(EvalKind(e, st, active), end)
    ensures RunsKind(e, m, keys, r) && r.end == end
    decreases e, 3
  {
    hide Eval, Runs, EvalStmts, RunsStmts, Head;
    var i := ExprReached(e.iter, st, active, end, m, keys);
    r := i;
    if end.Done? {
      var s := Ran(Done, iset{}, i.memory, iset{});
      assert Iterates(e, i.value, i.memory, keys, 0, s);
      r := Noting(i.notes + Decided(e.key, i.value), s);
    }
  }

  // ----- functions -----

  /** The end of a function's body counts as reached exactly when some call of the function
      gets there. */
  lemma EndIsReached(body: Stmts, tail: ExitKey)
    requires ExitSeen(tail) !in Meaning(body, None)
    ensures ExitSeen(tail) in Meaning(body, Some(tail)) <==>
            exists notes :: FunctionNotes(body, Some(tail), notes) && ExitSeen(tail) in notes
  {
    hide EvalStmts, RunsStmts;
    if ExitSeen(tail) in Meaning(body, Some(tail)) {
      var r := StmtsReached(body, Live(iset{}), iset{}, Done, map[], iset{});
      assert FunctionNotes(body, Some(tail), r.notes + Left(tail, r.value));
    }
    forall notes | FunctionNotes(body, Some(tail), notes)
      ensures notes <= Meaning(body, Some(tail))
    {
      NotesAreRecorded(body, Some(tail), notes);
    }
  }
}
