/** The analysis covers every run: whatever an execution notes, the analysis records, and
    whatever a value is made from, the analysis finds. */
module DependSound {
  import opened Options
  import opened DependSyntax
  import opened DependMeaning
  import opened DependMonotone
  import opened DependRuns

  // ----- covering -----

  ghost function SlotsOf(m: Memory): iset<Slot> {
    iset s: Slot | s.0 in m && s.1 in m[s.0]
  }

  ghost predicate Within(m: Memory, st: State) {
    st.Live? && SlotsOf(m) <= st.slots
  }

  /** The outcome of an analysis has room for a run. */
  ghost predicate Covers(o: Out, r: Ran) {
    && r.notes <= o.records
    && match r.end
       case Done => r.value <= o.value && Within(r.memory, o.state)
       case Broke => r.value <= o.flow.value && Within(r.memory, o.flow.breaks)
       case Continued => Within(r.memory, o.flow.continues)
       case Gone => true
  }

  lemma JoinHasRoom(m: Memory, a: State, b: State)
    requires Within(m, a) || Within(m, b)
    ensures Within(m, Join(a, b))
  {
  }

  /** A run that did not get past the first part. */
  lemma FirstCovers(a: Out, b: Out, r: Ran)
    requires Covers(a, r) && !r.end.Done?
    ensures Covers(Then(a, b), r)
  {
  }

  /** A run that did. */
  lemma SecondCovers(a: Out, b: Out, notes: iset<Record>, r: Ran)
    requires Covers(b, r) && notes <= a.records
    ensures Covers(Then(a, b), Noting(notes, r))
  {
  }

  // ----- values and memories -----

  lemma GotCovered(m: Memory, id: nat, at: Range, st: State)
    requires Within(m, st)
    ensures Got(m, id, at) <= Read(id, st, at)
  {
    assert forall f :: f in Held(m, id) ==> (id, f) in SlotsOf(m);
    forall f | f in Got(m, id, at)
      ensures f in Read(id, st, at)
    {
      if f != Data(id, at) && f !in Held(m, id) {
        var r :| Data(f.id, r) in Held(m, id);
        assert (id, Data(f.id, r)) in st.slots;
      }
    }
  }

  lemma KeysCovered(keys: iset<ControlKey>, active: Keys, v: iset<Fact>, w: Facts, key: ControlKey)
    requires keys <= active && v <= w
    ensures Deciding(keys) <= AsFacts(active)
    ensures Deeper(keys, v, key) <= Narrow(active, w, key)
    ensures Decided(key, v) <= ControlRecords(key, w)
  {
  }

  lemma LeftCovered(exit: ExitKey, v: iset<Fact>, w: Facts)
    requires v <= w
    ensures Left(exit, v) <= ExitRecords(exit, w)
  {
  }

  lemma CallCovered(text: string, v: iset<Fact>, w: Facts)
    requires v <= w
    ensures ThroughCall(text, v) <= Passed(text, w)
  {
    forall f | f in ThroughCall(text, v)
      ensures f in Passed(text, w)
    {
      if f.Literal? {
        var with, via :| && Literal(LiteralFact(f.literal.span, with, f.literal.condition, via)) in v
                         && f.literal.comparedWith == if with == None then Some(text) else with;
        var l := LiteralFact(f.literal.span, with, f.literal.condition, via);
        assert Literal(l) in w && f.literal == Related(text, l);
      }
    }
  }

  lemma ComparedCovered(text: string, condition: string, v: iset<Fact>, w: Facts)
    requires v <= w
    ensures ComparedWith(text, condition, v) <= Compared(text, condition, w)
  {
    forall f | f in ComparedWith(text, condition, v)
      ensures f in Compared(text, condition, w)
    {
      var with, when :| Literal(LiteralFact(f.literal.span, with, when, f.literal.viaCall)) in v;
      var l := LiteralFact(f.literal.span, with, when, f.literal.viaCall);
      assert Literal(l) in w && f.literal == ComparedTo(text, condition, l);
    }
  }

  lemma StoreCovered(m: Memory, st: State, id: nat, v: iset<Fact>, w: Facts)
    requires Within(m, st) && v <= w
    ensures Within(m[id := v], Store(st, id, w))
  {
  }

  lemma AddCovered(m: Memory, st: State, id: nat, v: iset<Fact>, w: Facts)
    requires Within(m, st) && v <= w
    ensures Within(m[id := Held(m, id) + v], Add(st, id, w))
  {
    assert forall f :: f in Held(m, id) ==> (id, f) in SlotsOf(m);
  }

  lemma {:induction false} BindCovered(pattern: Pattern, v: iset<Fact>, w: Facts, m: Memory, st: State)
    requires Within(m, st) && v <= w
    ensures Within(Holding(pattern, v, m), Bind(pattern, w, st))
    decreases |pattern|
  {
    hide Store, Within;
    if pattern != [] {
      var b := pattern[0];
      var held := if b.bare then v + iset{Unknown(BarePattern)} else v;
      StoreCovered(m, st, b.id, held, Bound(b, w));
      BindCovered(pattern[1..], v, w, m[b.id := held], Store(st, b.id, Bound(b, w)));
    }
  }

  lemma {:induction false} BlurCovered(m: Memory, visible: seq<nat>, st: State)
    requires Within(m, st)
    ensures Within(Blurred(m, visible), AddAll(st, visible, iset{Unknown(MacroMayAssign)}))
    decreases |visible|
  {
    hide Add, Within;
    if visible != [] {
      var id, unknown := visible[0], iset{Unknown(MacroMayAssign)};
      AddCovered(m, st, id, unknown, unknown);
      BlurCovered(m[id := Held(m, id) + unknown], visible[1..], Add(st, id, unknown));
    }
  }

  lemma {:induction false} WrittenIsTarget(place: Place)
    ensures Written(place) == Target(place)
    decreases place
  {
    match place
    case Field(_, base) => WrittenIsTarget(base);
    case Indexed(_, base, _) => WrittenIsTarget(base);
    case _ =>
  }

  lemma BaseCovered(base: Place, m: Memory, st: State)
    requires Within(m, st)
    ensures GotBase(base, m) <= ReadTarget(base, st)
  {
    hide Got, Read, Within;
    WrittenIsTarget(base);
    if Target(base).Some? {
      GotCovered(m, Target(base).value, base.span, st);
    }
  }

  // ----- expressions -----

  lemma {:induction false} ExprCovered(e: Expr, m: Memory, keys: iset<ControlKey>, r: Ran, st: State, active: Keys)
    requires Runs(e, m, keys, r) && Within(m, st) && keys <= active
    ensures Covers(Eval(e, st, active), r)
    decreases e, 5
  {
    hide RunsKind, EvalKind, Within;
    var own: Ran :| RunsKind(e, m, keys, own) &&
      r == if own.end.Done? then own.(value := own.value + Deciding(keys)) else own;
    KindCovered(e, m, keys, own, st, active);
    assert st.Live? by {
      LiveState(m, st);
    }
  }

  lemma LiveState(m: Memory, st: State)
    requires Within(m, st)
    ensures st.Live?
  {
  }

  lemma {:induction false} OptionCovered(e: Option<Expr>, m: Memory, keys: iset<ControlKey>, r: Ran, st: State,
                                         active: Keys)
    requires RunsOption(e, m, keys, r) && Within(m, st) && keys <= active
    ensures Covers(EvalOption(e, st, active), r)
    decreases e, 6
  {
    hide Runs, Eval, Within;
    if e.Some? {
      ExprCovered(e.value, m, keys, r, st, active);
    }
  }

  lemma {:induction false} KindCovered(e: Expr, m: Memory, keys: iset<ControlKey>, r: Ran, st: State, active: Keys)
    requires RunsKind(e, m, keys, r) && Within(m, st) && keys <= active
    ensures Covers(EvalKind(e, st, active), r)
    decreases e, 4
  {
    hide RunsMany, EvalMany, RunsStmts, EvalStmts, Got, Read, Blurred, AddAll, Within, Iterates;
    match e
    case Constant(_, _) =>
    case Path(span, binding, _) =>
      if binding.Some? {
        GotCovered(m, binding.value, span, st);
      }
    case Opaque(_) =>
    case Group(parts) => ManyCovered(parts, m, keys, r, st, active);
    case Call(_, _, _) => CallRun(e, m, keys, r, st, active);
    case MethodCall(_, _, _, _, _) => MethodCallRun(e, m, keys, r, st, active);
    case Binary(_, _, _, _, _, _, _) => BinaryRun(e, m, keys, r, st, active);
    case Assign(_, _, _, _) => AssignRun(e, m, keys, r, st, active);
    case If(_, _, _, _, _) => IfRun(e, m, keys, r, st, active);
    case While(_, _, _, _) => WhileRun(e, m, keys, r, st, active);
    case Loop(_) => LoopRun(e, m, keys, r, st, active);
    case For(_, _, _, _) => ForRun(e, m, keys, r, st, active);
    case Match(_, _) => MatchRun(e, m, keys, r, st, active);
    case Block(stmts) => StmtsCovered(stmts, m, keys, r, st, active);
    case Ret(_, _) => RetRun(e, m, keys, r, st, active);
    case TryOp(_, _, _) => TryRun(e, m, keys, r, st, active);
    case Break(_, _) => BreakRun(e, m, keys, r, st, active);
    case Continue(_) =>
    case Macro(visible) => BlurCovered(m, visible, st);
  }

  lemma {:induction false} CallRun(e: Expr, m: Memory, keys: iset<ControlKey>, r: Ran, st: State, active: Keys)
    requires e.Call? && RunsKind(e, m, keys, r) && Within(m, st) && keys <= active
    ensures Covers(EvalKind(e, st, active), r)
    decreases e, 3
  {
    hide Runs, RunsArgs, Eval, EvalArgs, Within;
    var f: Ran :| Runs(e.callee, m, keys, f) &&
      if !f.end.Done? then r == f
      else exists a: Ran :: RunsArgs(e.args, e.text, f.memory, keys, a) &&
             r == Noting(f.notes, if a.end.Done? then a.(value := f.value + a.value) else a);
    ExprCovered(e.callee, m, keys, f, st, active);
    var x := Eval(e.callee, st, active);
    var y := EvalArgs(e.args, e.text, x.state, active);
    if !f.end.Done? {
      FirstCovers(x, y, f);
    } else {
      var a: Ran :| RunsArgs(e.args, e.text, f.memory, keys, a) &&
        r == Noting(f.notes, if a.end.Done? then a.(value := f.value + a.value) else a);
      ArgsCovered(e.args, e.text, f.memory, keys, a, x.state, active);
      SecondCovers(x, y, f.notes, a);
    }
  }

  lemma {:induction false} MethodCallRun(e: Expr, m: Memory, keys: iset<ControlKey>, r: Ran, st: State, active: Keys)
    requires e.MethodCall? && RunsKind(e, m, keys, r) && Within(m, st) && keys <= active
    ensures Covers(EvalKind(e, st, active), r)
    decreases e, 3
  {
    hide Runs, RunsArgs, Eval, EvalArgs, Within, Add;
    var f: Ran :| Runs(e.receiver, m, keys, f) &&
      if !f.end.Done? then r == f
      else exists a: Ran :: RunsArgs(e.args, e.text, f.memory, keys, a) &&
             r == Noting(f.notes,
                         if a.end.Done? then Pushed(a, e.target, f.value + a.value + iset{Unknown(e.why)}) else a);
    ExprCovered(e.receiver, m, keys, f, st, active);
    var x := Eval(e.receiver, st, active);
    var y := EvalArgs(e.args, e.text, x.state, active);
    if !f.end.Done? {
      FirstCovers(x, y, f);
    } else {
      var a: Ran :| RunsArgs(e.args, e.text, f.memory, keys, a) &&
        r == Noting(f.notes, if a.end.Done? then Pushed(a, e.target, f.value + a.value + iset{Unknown(e.why)}) else a);
      ArgsCovered(e.args, e.text, f.memory, keys, a, x.state, active);
      SecondCovers(x, y, f.notes, a);
      if a.end.Done? && e.target.Some? {
        AddCovered(a.memory, y.state, e.target.value, OnlyLiterals(a.value), Literals(y.value));
      }
    }
  }

  lemma {:induction false} BinaryRun(e: Expr, m: Memory, keys: iset<ControlKey>, r: Ran, st: State, active: Keys)
    requires e.Binary? && RunsKind(e, m, keys, r) && Within(m, st) && keys <= active
    ensures Covers(EvalKind(e, st, active), r)
    decreases e, 3
  {
    hide RunsKind, EvalKind, Within;
    if e.op.Lazy? {
      LazyRun(e, m, keys, r, st, active);
    } else {
      EagerRun(e, m, keys, r, st, active);
    }
  }

  lemma {:induction false} LazyRun(e: Expr, m: Memory, keys: iset<ControlKey>, r: Ran, st: State, active: Keys)
    requires e.Binary? && e.op.Lazy? && RunsKind(e, m, keys, r) && Within(m, st) && keys <= active
    ensures Covers(EvalKind(e, st, active), r)
    decreases e, 2
  {
    hide Runs, Eval, Within, Narrow, Deeper, Decided, ControlRecords, Join;
    var l: Ran :| Runs(e.left, m, keys, l) &&
      if !l.end.Done? then r == l
      else
        || r == l.(notes := l.notes + Decided(e.key, l.value))
        || exists s: Ran :: Runs(e.right, l.memory, Deeper(keys, l.value, e.key), s) &&
             r == Noting(l.notes + Decided(e.key, l.value), if s.end.Done? then s.(value := l.value + s.value) else s);
    ExprCovered(e.left, m, keys, l, st, active);
    var x := Eval(e.left, st, active);
    var inner := Narrow(active, x.value, e.key);
    var y := Eval(e.right, x.state, inner);
    if !l.end.Done? {
      FirstCovers(x, y, l);
    } else {
      KeysCovered(keys, active, l.value, x.value, e.key);
      if r == l.(notes := l.notes + Decided(e.key, l.value)) {
        JoinHasRoom(l.memory, x.state, y.state);
      } else {
        var s: Ran :| Runs(e.right, l.memory, Deeper(keys, l.value, e.key), s) &&
          r == Noting(l.notes + Decided(e.key, l.value), if s.end.Done? then s.(value := l.value + s.value) else s);
        ExprCovered(e.right, l.memory, Deeper(keys, l.value, e.key), s, x.state, inner);
        SecondCovers(x, y, l.notes, s);
        if s.end.Done? {
          JoinHasRoom(s.memory, x.state, y.state);
        }
      }
    }
  }

  lemma {:induction false} EagerRun(e: Expr, m: Memory, keys: iset<ControlKey>, r: Ran, st: State, active: Keys)
    requires e.Binary? && !e.op.Lazy? && RunsKind(e, m, keys, r) && Within(m, st) && keys <= active
    ensures Covers(EvalKind(e, st, active), r)
    decreases e, 2
  {
    hide Runs, Eval, Within, Compared, ComparedWith, Both;
    var l: Ran :| Runs(e.left, m, keys, l) &&
      if !l.end.Done? then r == l
      else exists s: Ran :: Runs(e.right, l.memory, keys, s) &&
             r == Noting(l.notes, if s.end.Done?
                                  then s.(value := Both(e.op, l.value, e.leftText, s.value, e.rightText, e.condition))
                                  else s);
    ExprCovered(e.left, m, keys, l, st, active);
    var x := Eval(e.left, st, active);
    var y := Eval(e.right, x.state, active);
    if !l.end.Done? {
      FirstCovers(x, y, l);
    } else {
      var s: Ran :| Runs(e.right, l.memory, keys, s) &&
        r == Noting(l.notes, if s.end.Done?
                             then s.(value := Both(e.op, l.value, e.leftText, s.value, e.rightText, e.condition))
                             else s);
      ExprCovered(e.right, l.memory, keys, s, x.state, active);
      SecondCovers(x, y, l.notes, s);
      if s.end.Done? {
        BothCovered(e, l.value, s.value, x.value, y.value);
      }
    }
  }

  lemma BothCovered(e: Expr, l: iset<Fact>, r: iset<Fact>, v: Facts, w: Facts)
    requires e.Binary? && l <= v && r <= w
    ensures Both(e.op, l, e.leftText, r, e.rightText, e.condition)
         <= v + w + if e.op.Comparison?
                    then Compared(e.rightText, e.condition, v) + Compared(e.leftText, e.condition, w) else iset{}
  {
    hide Compared, ComparedWith;
    ComparedCovered(e.rightText, e.condition, l, v);
    ComparedCovered(e.leftText, e.condition, r, w);
  }

  lemma {:induction false} AssignRun(e: Expr, m: Memory, keys: iset<ControlKey>, r: Ran, st: State, active: Keys)
    requires e.Assign? && RunsKind(e, m, keys, r) && Within(m, st) && keys <= active
    ensures Covers(EvalKind(e, st, active), r)
    decreases e, 3
  {
    hide Runs, Eval, EvalPlace, RunsPlace, Within, Store, Read, Got, Deciding, AsFacts, Assigned;
    var p: Ran :| RunsPlace(e.place, m, keys, p) &&
      if !p.end.Done? then r == p
      else exists v: Ran :: Runs(e.rhs, p.memory, keys, v) &&
             r == Noting(p.notes, if v.end.Done? then Assigned(e.site, e.place, e.compound, keys, p.value, v) else v);
    PlaceCovered(e.place, m, keys, p, st, active);
    var x := EvalPlace(e.place, st, active);
    var y := Eval(e.rhs, x.state, active);
    if !p.end.Done? {
      FirstCovers(x, y, p);
    } else {
      var v: Ran :| Runs(e.rhs, p.memory, keys, v) &&
        r == Noting(p.notes, if v.end.Done? then Assigned(e.site, e.place, e.compound, keys, p.value, v) else v);
      ExprCovered(e.rhs, p.memory, keys, v, x.state, active);
      SecondCovers(x, y, p.notes, v);
      if v.end.Done? {
        AssignedCovered(e, keys, p, v, x, y, active);
      }
    }
  }

  lemma AssignedCovered(e: Expr, keys: iset<ControlKey>, p: Ran, v: Ran, x: Out, y: Out, active: Keys)
    requires e.Assign? && keys <= active && p.end.Done? && v.end.Done? && Covers(x, p) && Covers(y, v)
    ensures var value := y.value + x.value + AsFacts(active);
            Covers(if Target(e.place).None? then Then(x, y).(value := iset{})
                   else
                     var id := Target(e.place).value;
                     var stored :=
                       if e.compound || !Direct(e.place) then value + Read(id, y.state, e.place.span) else value;
                     Recording(Then(x, y), iset{AssignedAt(id, e.site)}).(value := iset{},
                         state := Store(y.state, id, stored)),
                   Noting(p.notes, Assigned(e.site, e.place, e.compound, keys, p.value, v)))
  {
    hide Within, Store, Read, Got;
    WrittenIsTarget(e.place);
    if Target(e.place).Some? {
      var id, value := Target(e.place).value, y.value + x.value + AsFacts(active);
      var stored := if e.compound || !Direct(e.place) then value + Read(id, y.state, e.place.span) else value;
      var own := v.value + p.value + Deciding(keys);
      var held := if e.place.Named? && !e.compound then own else own + Got(v.memory, id, e.place.span);
      GotCovered(v.memory, id, e.place.span, y.state);
      assert held <= stored;
      StoreCovered(v.memory, y.state, id, held, stored);
    }
  }

  lemma {:induction false} IfRun(e: Expr, m: Memory, keys: iset<ControlKey>, r: Ran, st: State, active: Keys)
    requires e.If? && RunsKind(e, m, keys, r) && Within(m, st) && keys <= active
    ensures Covers(EvalKind(e, st, active), r)
    decreases e, 3
  {
    hide Runs, Eval, RunsStmts, EvalStmts, RunsOption, EvalOption, Within, Narrow, Deeper, Decided, ControlRecords,
      Bind, Holding, Join;
    var c: Ran :| Runs(e.cond, m, keys, c) &&
      if !c.end.Done? then r == c
      else exists b: Ran ::
             && (|| RunsStmts(e.thenBlock, Holding(e.pattern, c.value, c.memory), Deeper(keys, c.value, e.key), b)
                 || RunsOption(e.otherwise, c.memory, Deeper(keys, c.value, e.key), b))
             && r == Noting(c.notes + Decided(e.key, c.value), b);
    ExprCovered(e.cond, m, keys, c, st, active);
    var x := Eval(e.cond, st, active);
    var inner := Narrow(active, x.value, e.key);
    var t := EvalStmts(e.thenBlock, Bind(e.pattern, x.value, x.state), inner);
    var o := EvalOption(e.otherwise, x.state, inner);
    if !c.end.Done? {
      FirstCovers(x, Then(t, o), c);
    } else {
      KeysCovered(keys, active, c.value, x.value, e.key);
      var b: Ran :|
        && (|| RunsStmts(e.thenBlock, Holding(e.pattern, c.value, c.memory), Deeper(keys, c.value, e.key), b)
            || RunsOption(e.otherwise, c.memory, Deeper(keys, c.value, e.key), b))
        && r == Noting(c.notes + Decided(e.key, c.value), b);
      if RunsStmts(e.thenBlock, Holding(e.pattern, c.value, c.memory), Deeper(keys, c.value, e.key), b) {
        BindCovered(e.pattern, c.value, x.value, c.memory, x.state);
        StmtsCovered(e.thenBlock, Holding(e.pattern, c.value, c.memory), Deeper(keys, c.value, e.key), b,
                     Bind(e.pattern, x.value, x.state), inner);
      } else {
        OptionCovered(e.otherwise, c.memory, Deeper(keys, c.value, e.key), b, x.state, inner);
      }
      BranchCovered(x, t, o, b, c.notes + Decided(e.key, c.value), ControlRecords(e.key, x.value));
    }
  }

  /** One of two branches. */
  lemma BranchCovered(x: Out, t: Out, o: Out, b: Ran, notes: iset<Record>, more: iset<Record>)
    requires (Covers(t, b) || Covers(o, b)) && notes <= x.records + more
    ensures Covers(Recording(Then(x, Then(t, o)), more).(value := t.value + o.value, state := Join(t.state, o.state)),
                   Noting(notes, b))
  {
  }

  lemma {:induction false} MatchRun(e: Expr, m: Memory, keys: iset<ControlKey>, r: Ran, st: State, active: Keys)
    requires e.Match? && RunsKind(e, m, keys, r) && Within(m, st) && keys <= active
    ensures Covers(EvalKind(e, st, active), r)
    decreases e, 3
  {
    hide Runs, Eval, RunsArms, EvalArms, Within;
    var s: Ran :| Runs(e.scrutinee, m, keys, s) &&
      if !s.end.Done? then r == s
      else if e.arms.NoArms? then r == s.(value := iset{})
      else exists a: Ran :: RunsArms(e.arms, s.value, s.memory, keys, a) && r == Noting(s.notes, a);
    ExprCovered(e.scrutinee, m, keys, s, st, active);
    var x := Eval(e.scrutinee, st, active);
    var y := EvalArms(e.arms, x.value, x.state, active);
    if !s.end.Done? {
      FirstCovers(x, y, s);
    } else if e.arms.MoreArms? {
      var a: Ran :| RunsArms(e.arms, s.value, s.memory, keys, a) && r == Noting(s.notes, a);
      ArmsCovered(e.arms, s.value, s.memory, keys, a, x.value, x.state, active);
      SecondCovers(x, y, s.notes, a);
    }
  }

  lemma {:induction false} RetRun(e: Expr, m: Memory, keys: iset<ControlKey>, r: Ran, st: State, active: Keys)
    requires e.Ret? && RunsKind(e, m, keys, r) && Within(m, st) && keys <= active
    ensures Covers(EvalKind(e, st, active), r)
    decreases e, 3
  {
    hide RunsOption, EvalOption, Within, Left, ExitRecords;
    var v: Ran :| RunsOption(e.returned, m, keys, v) &&
      if !v.end.Done? then r == v
      else Ends(r, Gone, iset{}, v.memory, v.notes + Left(e.exit, v.value + Deciding(keys)));
    OptionCovered(e.returned, m, keys, v, st, active);
    if v.end.Done? {
      var x := EvalOption(e.returned, st, active);
      LeftCovered(e.exit, v.value + Deciding(keys), x.value + AsFacts(active));
    }
  }

  lemma {:induction false} TryRun(e: Expr, m: Memory, keys: iset<ControlKey>, r: Ran, st: State, active: Keys)
    requires e.TryOp? && RunsKind(e, m, keys, r) && Within(m, st) && keys <= active
    ensures Covers(EvalKind(e, st, active), r)
    decreases e, 3
  {
    hide Runs, Eval, Within, Left, ExitRecords, Decided, ControlRecords;
    var v: Ran :| Runs(e.inner, m, keys, v) &&
      if !v.end.Done? then r == v
      else
        var value := v.value + iset{Control(e.key)};
        var notes := v.notes + Decided(e.key, v.value) + Left(e.exit, value + Deciding(keys));
        Ends(r, Done, value, v.memory, notes) || Ends(r, Gone, iset{}, v.memory, notes);
    ExprCovered(e.inner, m, keys, v, st, active);
    if v.end.Done? {
      var x := Eval(e.inner, st, active);
      KeysCovered(keys, active, v.value, x.value, e.key);
      LeftCovered(e.exit, v.value + iset{Control(e.key)} + Deciding(keys),
          x.value + iset{Control(e.key)} + AsFacts(active));
    }
  }

  lemma {:induction false} BreakRun(e: Expr, m: Memory, keys: iset<ControlKey>, r: Ran, st: State, active: Keys)
    requires e.Break? && RunsKind(e, m, keys, r) && Within(m, st) && keys <= active
    ensures Covers(EvalKind(e, st, active), r)
    decreases e, 3
  {
    hide RunsOption, EvalOption;
    var v: Ran :| RunsOption(e.carried, m, keys, v) &&
      if !v.end.Done? then r == v
      else if e.labeled then Ends(r, Gone, iset{}, v.memory, v.notes)
      else Ends(r, Broke, v.value, v.memory, v.notes);
    OptionCovered(e.carried, m, keys, v, st, active);
  }

  // ----- lists -----

  lemma {:induction false} ManyCovered(es: Exprs, m: Memory, keys: iset<ControlKey>, r: Ran, st: State, active: Keys)
    requires RunsMany(es, m, keys, r) && Within(m, st) && keys <= active
    ensures Covers(EvalMany(es, st, active), r)
    decreases es
  {
    hide Runs, Eval, Within;
    if es.MoreExprs? {
      var a: Ran :| Runs(es.first, m, keys, a) &&
        if !a.end.Done? then r == a
        else exists b: Ran :: RunsMany(es.others, a.memory, keys, b) &&
               r == Noting(a.notes, if b.end.Done? then b.(value := a.value + b.value) else b);
      ExprCovered(es.first, m, keys, a, st, active);
      var x := Eval(es.first, st, active);
      var y := EvalMany(es.others, x.state, active);
      if !a.end.Done? {
        FirstCovers(x, y, a);
      } else {
        var b: Ran :| RunsMany(es.others, a.memory, keys, b) &&
          r == Noting(a.notes, if b.end.Done? then b.(value := a.value + b.value) else b);
        ManyCovered(es.others, a.memory, keys, b, x.state, active);
        SecondCovers(x, y, a.notes, b);
      }
    }
  }

  lemma {:induction false} ArgsCovered(es: Exprs, text: string, m: Memory, keys: iset<ControlKey>, r: Ran, st: State,
                                       active: Keys)
    requires RunsArgs(es, text, m, keys, r) && Within(m, st) && keys <= active
    ensures Covers(EvalArgs(es, text, st, active), r)
    decreases es
  {
    hide Runs, Eval, Within, Passed, ThroughCall;
    if es.MoreExprs? {
      var a: Ran :| Runs(es.first, m, keys, a) &&
        if !a.end.Done? then r == a
        else exists b: Ran :: RunsArgs(es.others, text, a.memory, keys, b) &&
               r == Noting(a.notes, if b.end.Done? then b.(value := ThroughCall(text, a.value) + b.value) else b);
      ExprCovered(es.first, m, keys, a, st, active);
      var x := Eval(es.first, st, active);
      var y := EvalArgs(es.others, text, x.state, active);
      if !a.end.Done? {
        FirstCovers(x, y, a);
      } else {
        var b: Ran :| RunsArgs(es.others, text, a.memory, keys, b) &&
          r == Noting(a.notes, if b.end.Done? then b.(value := ThroughCall(text, a.value) + b.value) else b);
        ArgsCovered(es.others, text, a.memory, keys, b, x.state, active);
        SecondCovers(x, y, a.notes, b);
        CallCovered(text, a.value, x.value);
      }
    }
  }

  lemma {:induction false} PlaceCovered(place: Place, m: Memory, keys: iset<ControlKey>, r: Ran, st: State,
                                        active: Keys)
    requires RunsPlace(place, m, keys, r) && Within(m, st) && keys <= active
    ensures Covers(EvalPlace(place, st, active), r)
    decreases place, 6
  {
    hide Runs, Eval, Within, GotBase, ReadTarget;
    match place
    case Named(_, _) =>
    case Unnamed(_, _) =>
    case Field(_, base) =>
      var b: Ran :| RunsPlace(base, m, keys, b) &&
        r == if b.end.Done? then b.(value := b.value + GotBase(base, b.memory)) else b;
      PlaceCovered(base, m, keys, b, st, active);
      if b.end.Done? {
        BaseCovered(base, b.memory, EvalPlace(base, st, active).state);
      }
    case Indexed(_, base, index) =>
      var b: Ran :| RunsPlace(base, m, keys, b) &&
        if !b.end.Done? then r == b
        else exists i: Ran :: Runs(index, b.memory, keys, i) &&
               r == Noting(b.notes,
                           if i.end.Done? then i.(value := b.value + i.value + GotBase(base, i.memory)) else i);
      PlaceCovered(base, m, keys, b, st, active);
      var x := EvalPlace(base, st, active);
      var y := Eval(index, x.state, active);
      if !b.end.Done? {
        FirstCovers(x, y, b);
      } else {
        var i: Ran :| Runs(index, b.memory, keys, i) &&
          r == Noting(b.notes, if i.end.Done? then i.(value := b.value + i.value + GotBase(base, i.memory)) else i);
        ExprCovered(index, b.memory, keys, i, x.state, active);
        SecondCovers(x, y, b.notes, i);
        if i.end.Done? {
          BaseCovered(base, i.memory, y.state);
        }
      }
    case Other(_, expr, why) =>
      var v: Ran :| Runs(expr, m, keys, v) &&
        r == if v.end.Done? then v.(value := v.value + iset{Unknown(why)}) else v;
      ExprCovered(expr, m, keys, v, st, active);
  }

  // ----- statements and arms -----

  lemma {:induction false} StmtsCovered(stmts: Stmts, m: Memory, keys: iset<ControlKey>, r: Ran, st: State,
                                        active: Keys)
    requires RunsStmts(stmts, m, keys, r) && Within(m, st) && keys <= active
    ensures Covers(EvalStmts(stmts, st, active), r)
    decreases stmts, 7
  {
    hide RunsStmt, EvalStmt, Within;
    LiveState(m, st);
    if stmts.MoreStmts? {
      var a: Ran :| RunsStmt(stmts.stmt, m, keys, a) &&
        if !a.end.Done? || stmts.rest.NoStmts? then r == a
        else exists b: Ran :: RunsStmts(stmts.rest, a.memory, keys, b) && r == Noting(a.notes, b);
      StmtCovered(stmts.stmt, m, keys, a, st, active);
      var x := EvalStmt(stmts.stmt, st, active);
      var y := EvalStmts(stmts.rest, x.state, active);
      if !a.end.Done? {
        FirstCovers(x, y, a);
      } else if stmts.rest.MoreStmts? {
        var b: Ran :| RunsStmts(stmts.rest, a.memory, keys, b) && r == Noting(a.notes, b);
        StmtsCovered(stmts.rest, a.memory, keys, b, x.state, active);
        SecondCovers(x, y, a.notes, b);
      }
    }
  }

  lemma {:induction false} StmtCovered(stmt: Stmt, m: Memory, keys: iset<ControlKey>, r: Ran, st: State, active: Keys)
    requires RunsStmt(stmt, m, keys, r) && Within(m, st) && keys <= active
    ensures Covers(EvalStmt(stmt, st, active), r)
    decreases stmt, 7
  {
    hide Runs, Eval, RunsStmts, EvalStmts, Within, Bind, Holding;
    match stmt
    case LetDecl(pattern) =>
      BindCovered(pattern, iset{Unknown(NoInitializer)}, iset{Unknown(NoInitializer)}, m, st);
    case LetInit(pattern, init) =>
      var v: Ran :| Runs(init, m, keys, v) &&
        r == if v.end.Done? then v.(value := iset{}, memory := Holding(pattern, v.value, v.memory)) else v;
      ExprCovered(init, m, keys, v, st, active);
      var x := Eval(init, st, active);
      if v.end.Done? {
        BindCovered(pattern, v.value, x.value, v.memory, x.state);
      }
    case LetElse(_, _, _, _) => LetElseRun(stmt, m, keys, r, st, active);
    case Run(expr, semi) =>
      var v: Ran :| Runs(expr, m, keys, v) && r == if v.end.Done? && semi then v.(value := iset{}) else v;
      ExprCovered(expr, m, keys, v, st, active);
  }

  lemma {:induction false} LetElseRun(stmt: Stmt, m: Memory, keys: iset<ControlKey>, r: Ran, st: State, active: Keys)
    requires stmt.LetElse? && RunsStmt(stmt, m, keys, r) && Within(m, st) && keys <= active
    ensures Covers(EvalStmt(stmt, st, active), r)
    decreases stmt, 6
  {
    hide Runs, Eval, RunsStmts, EvalStmts, Within, Bind, Holding, Narrow, Deeper, Decided, ControlRecords;
    var key, pattern := stmt.key, stmt.pattern;
    var v: Ran :| Runs(stmt.init, m, keys, v) &&
      if !v.end.Done? then r == v
      else
        || Ends(r, Done, iset{}, Holding(pattern, v.value + iset{Control(key)}, v.memory),
            v.notes + Decided(key, v.value))
        || exists d: Ran :: RunsStmts(stmt.diverge, v.memory, Deeper(keys, v.value, key), d) && !d.end.Done? &&
             r == Noting(v.notes + Decided(key, v.value), d);
    ExprCovered(stmt.init, m, keys, v, st, active);
    var x := Eval(stmt.init, st, active);
    var inner := Narrow(active, x.value, key);
    var y := EvalStmts(stmt.diverge, x.state, inner);
    if !v.end.Done? {
      FirstCovers(x, y, v);
    } else {
      KeysCovered(keys, active, v.value, x.value, key);
      if Ends(r, Done, iset{}, Holding(pattern, v.value + iset{Control(key)}, v.memory),
          v.notes + Decided(key, v.value)) {
        BindCovered(pattern, v.value + iset{Control(key)}, x.value + iset{Control(key)}, v.memory, x.state);
      } else {
        var d: Ran :| RunsStmts(stmt.diverge, v.memory, Deeper(keys, v.value, key), d) && !d.end.Done? &&
          r == Noting(v.notes + Decided(key, v.value), d);
        StmtsCovered(stmt.diverge, v.memory, Deeper(keys, v.value, key), d, x.state, inner);
        SecondCovers(x, y, v.notes, d);
      }
    }
  }

  lemma {:induction false} ArmsCovered(arms: Arms, v: iset<Fact>, m: Memory, keys: iset<ControlKey>, r: Ran,
                                       w: Facts, st: State, active: Keys)
    requires RunsArms(arms, v, m, keys, r) && Within(m, st) && keys <= active && v <= w
    ensures Covers(EvalArms(arms, w, st, active), r)
    decreases arms, 7
  {
    hide RunsArm, EvalArm;
    if RunsArm(arms.arm, v, m, keys, r) {
      ArmCovered(arms.arm, v, m, keys, r, w, st, active);
    } else {
      ArmsCovered(arms.later, v, m, keys, r, w, st, active);
    }
  }

  lemma {:induction false} ArmCovered(arm: Arm, v: iset<Fact>, m: Memory, keys: iset<ControlKey>, r: Ran,
                                      w: Facts, st: State, active: Keys)
    requires RunsArm(arm, v, m, keys, r) && Within(m, st) && keys <= active && v <= w
    ensures Covers(EvalArm(arm, w, st, active), r)
    decreases arm, 7
  {
    hide Runs, Eval, Within, Bind, Holding, Narrow, Deeper, Decided, ControlRecords;
    var literals := iset f: Fact | f.Literal? && f.literal in arm.literals;
    var bound, inner := Holding(arm.pattern, v, m), Deeper(keys, v, arm.key);
    var st', inner' := Bind(arm.pattern, w, st), Narrow(active, w, arm.key);
    BindCovered(arm.pattern, v, w, m, st);
    KeysCovered(keys, active, v, w, arm.key);
    KeysCovered(keys, active, v + literals, w + literals, arm.key);
    match arm.guard
    case None =>
      var b: Ran :| Runs(arm.body, bound, inner, b) && r == Noting(Decided(arm.key, v + literals), b);
      ExprCovered(arm.body, bound, inner, b, st', inner');
    case Some(guard) =>
      var g: Ran :| Runs(guard.cond, bound, inner, g) &&
        if !g.end.Done? then r == Noting(Decided(arm.key, v + literals), g)
        else exists b: Ran :: Runs(arm.body, g.memory, Deeper(inner, g.value, guard.key), b) &&
               r == Noting(Decided(arm.key, v + literals) + g.notes + Decided(guard.key, g.value), b);
      ExprCovered(guard.cond, bound, inner, g, st', inner');
      var x := Eval(guard.cond, st', inner');
      var deeper := Narrow(inner', x.value, guard.key);
      var y := Eval(arm.body, x.state, deeper);
      if !g.end.Done? {
        FirstCovers(x, y, g);
      } else {
        var b: Ran :| Runs(arm.body, g.memory, Deeper(inner, g.value, guard.key), b) &&
          r == Noting(Decided(arm.key, v + literals) + g.notes + Decided(guard.key, g.value), b);
        KeysCovered(inner, inner', g.value, x.value, guard.key);
        ExprCovered(arm.body, g.memory, Deeper(inner, g.value, guard.key), b, x.state, deeper);
        SecondCovers(x, y, g.notes, b);
      }
  }

  // ----- loops -----

  /** What a loop comes to from a head: its last pass, and how it is left. */
  ghost function AfterLoop(e: Expr, iterated: Facts, h: iset<Slot>, active: Keys): Out
    requires IsLoop(e)
  {
    var t, b := Test(e, h, active), Pass(e, iterated, h, active);
    match e
    case While(key, _, _, _) =>
      Out(b.flow.value, Join(b.flow.breaks, t.state), t.flow, t.records + b.records + ControlRecords(key, t.value))
    case Loop(_) => Out(b.flow.value, b.flow.breaks, NoFlow(), b.records)
    case For(_, _, _, _) => Out(b.flow.value, Join(b.flow.breaks, Live(h)), NoFlow(), b.records)
  }

  /** A head that takes up what its pass sends back covers any number of rounds. */
  lemma {:induction false} IteratesCovered(e: Expr, v: iset<Fact>, m: Memory, keys: iset<ControlKey>, n: nat, r: Ran,
                                           w: Facts, h: iset<Slot>, active: Keys)
    requires IsLoop(e) && Iterates(e, v, m, keys, n, r) && SlotsOf(m) <= h && keys <= active && v <= w
    requires Back(Pass(e, w, h, active)) <= h
    ensures Covers(AfterLoop(e, w, h, active), r)
    decreases e, 2, 2 * n
  {
    hide Runs, Eval, RunsStmts, EvalStmts, Pass, Test, Bind, Holding, Narrow, Deeper, Decided, ControlRecords,
      GoesRound, Join, SlotsOf, AfterLoop;
    match e
    case While(key, cond, pattern, body) =>
      var t: Ran :| Runs(cond, m, keys, t) &&
        if !t.end.Done? then r == t
        else
          var notes := t.notes + Decided(key, t.value);
          if n == 0 then Ends(r, Done, iset{}, t.memory, notes)
          else exists b: Ran :: RunsStmts(body, Holding(pattern, t.value, t.memory), Deeper(keys, t.value, key), b) &&
                 GoesRound(e, v, keys, n - 1, notes, b, r);
      TestCovered(e, m, keys, t, h, active);
      TestEnds(e, t, w, h, active);
      if t.end.Done? && n > 0 {
        var notes := t.notes + Decided(key, t.value);
        var b: Ran :| RunsStmts(body, Holding(pattern, t.value, t.memory), Deeper(keys, t.value, key), b) &&
          GoesRound(e, v, keys, n - 1, notes, b, r);
        WhileBody(e, t, keys, b, w, h, active);
        RoundCovered(e, v, keys, n - 1, notes, b, r, w, h, active);
      }
    case Loop(body) =>
      var b: Ran :| RunsStmts(body, m, keys, b) && GoesRound(e, v, keys, n - 1, iset{}, b, r);
      LoopBody(e, m, keys, b, w, h, active);
      RoundCovered(e, v, keys, n - 1, iset{}, b, r, w, h, active);
    case For(key, pattern, _, body) =>
      if n == 0 {
        ForEnds(e, m, w, h, active);
      } else {
        var b: Ran :| RunsStmts(body, Holding(pattern, v, m), Deeper(keys, v, key), b) &&
          GoesRound(e, v, keys, n - 1, iset{}, b, r);
        ForBody(e, m, keys, b, v, w, h, active);
        RoundCovered(e, v, keys, n - 1, iset{}, b, r, w, h, active);
      }
  }

  lemma {:induction false} TestCovered(e: Expr, m: Memory, keys: iset<ControlKey>, t: Ran, h: iset<Slot>, active: Keys)
    requires e.While? && Runs(e.cond, m, keys, t) && SlotsOf(m) <= h && keys <= active
    ensures Covers(Test(e, h, active), t)
    decreases e, 1
  {
    hide Runs, Eval;
    ExprCovered(e.cond, m, keys, t, Live(h), active);
  }

  /** A test that is not passed, or not finished. */
  lemma TestEnds(e: Expr, t: Ran, w: Facts, h: iset<Slot>, active: Keys)
    requires e.While? && Covers(Test(e, h, active), t)
    ensures !t.end.Done? ==> Covers(AfterLoop(e, w, h, active), t)
    ensures t.end.Done? ==>
              Covers(AfterLoop(e, w, h, active), Ran(Done, iset{}, t.memory, t.notes + Decided(e.key, t.value)))
  {
    hide Test, Pass;
  }

  lemma ForEnds(e: Expr, m: Memory, w: Facts, h: iset<Slot>, active: Keys)
    requires e.For? && SlotsOf(m) <= h
    ensures Covers(AfterLoop(e, w, h, active), Ran(Done, iset{}, m, iset{}))
  {
    hide Test, Pass;
  }

  lemma {:induction false} WhileBody(e: Expr, t: Ran, keys: iset<ControlKey>, b: Ran, w: Facts, h: iset<Slot>,
                                     active: Keys)
    requires e.While? && t.end.Done? && Covers(Test(e, h, active), t) && keys <= active
    requires RunsStmts(e.body, Holding(e.pattern, t.value, t.memory), Deeper(keys, t.value, e.key), b)
    ensures Covers(Pass(e, w, h, active), b)
    ensures t.notes + Decided(e.key, t.value) <= AfterLoop(e, w, h, active).records
    decreases e, 1
  {
    hide RunsStmts, EvalStmts, Test, Bind, Holding, Narrow, Deeper, Decided, ControlRecords, Within;
    var x := Test(e, h, active);
    BindCovered(e.pattern, t.value, x.value, t.memory, x.state);
    KeysCovered(keys, active, t.value, x.value, e.key);
    StmtsCovered(e.body, Holding(e.pattern, t.value, t.memory), Deeper(keys, t.value, e.key), b,
                 Bind(e.pattern, x.value, x.state), Narrow(active, x.value, e.key));
  }

  lemma {:induction false} LoopBody(e: Expr, m: Memory, keys: iset<ControlKey>, b: Ran, w: Facts, h: iset<Slot>,
                                    active: Keys)
    requires e.Loop? && RunsStmts(e.body, m, keys, b) && SlotsOf(m) <= h && keys <= active
    ensures Covers(Pass(e, w, h, active), b)
    decreases e, 1
  {
    hide RunsStmts, EvalStmts;
    StmtsCovered(e.body, m, keys, b, Live(h), active);
  }

  lemma {:induction false} ForBody(e: Expr, m: Memory, keys: iset<ControlKey>, b: Ran, v: iset<Fact>, w: Facts,
                                   h: iset<Slot>, active: Keys)
    requires e.For? && SlotsOf(m) <= h && keys <= active && v <= w
    requires RunsStmts(e.body, Holding(e.pattern, v, m), Deeper(keys, v, e.key), b)
    ensures Covers(Pass(e, w, h, active), b)
    decreases e, 1
  {
    hide RunsStmts, EvalStmts, Bind, Holding, Narrow, Deeper;
    assert Within(m, Live(h));
    BindCovered(e.pattern, v, w, m, Live(h));
    KeysCovered(keys, active, v, w, e.key);
    StmtsCovered(e.body, Holding(e.pattern, v, m), Deeper(keys, v, e.key), b,
                 Bind(e.pattern, w, Live(h)), Narrow(active, w, e.key));
  }

  lemma {:induction false} RoundCovered(e: Expr, v: iset<Fact>, keys: iset<ControlKey>, n: nat, notes: iset<Record>,
                                        b: Ran,
                                        r: Ran, w: Facts, h: iset<Slot>, active: Keys)
    requires IsLoop(e) && GoesRound(e, v, keys, n, notes, b, r) && keys <= active && v <= w
    requires Covers(Pass(e, w, h, active), b) && notes <= AfterLoop(e, w, h, active).records
    requires Back(Pass(e, w, h, active)) <= h
    ensures Covers(AfterLoop(e, w, h, active), r)
    decreases e, 2, 2 * n + 1
  {
    hide Iterates, Pass, Test;
    if b.end.Done? || b.end.Continued? {
      var s: Ran :| Iterates(e, v, b.memory, keys, n, s) && r == Noting(notes + b.notes, s);
      JoinHasRoom(b.memory, Pass(e, w, h, active).state, Pass(e, w, h, active).flow.continues);
      IteratesCovered(e, v, b.memory, keys, n, s, w, h, active);
      PassRecorded(e, w, h, active);
    } else if b.end.Broke? {
      PassRecorded(e, w, h, active);
    } else {
      PassRecorded(e, w, h, active);
    }
  }

  lemma PassRecorded(e: Expr, w: Facts, h: iset<Slot>, active: Keys)
    requires IsLoop(e)
    ensures Pass(e, w, h, active).records <= AfterLoop(e, w, h, active).records
  {
    hide Pass, Test;
  }

  lemma HeadTakes(e: Expr, w: Facts, entry: iset<Slot>, active: Keys)
    requires IsLoop(e)
    ensures var h := Head(e, w, entry, active); entry <= h && Back(Pass(e, w, h, active)) <= h
  {
    hide Head, Pass, Back;
    HeadIsFixpoint(e, w, entry, active);
  }

  lemma {:induction false} WhileRun(e: Expr, m: Memory, keys: iset<ControlKey>, r: Ran, st: State, active: Keys)
    requires e.While? && RunsKind(e, m, keys, r) && Within(m, st) && keys <= active
    ensures Covers(EvalKind(e, st, active), r)
    decreases e, 3
  {
    hide Iterates, Head, Pass, Test, Back;
    var n: nat :| Iterates(e, iset{}, m, keys, n, r);
    HeadTakes(e, iset{}, st.Slots(), active);
    IteratesCovered(e, iset{}, m, keys, n, r, iset{}, Head(e, iset{}, st.Slots(), active), active);
  }

  lemma {:induction false} LoopRun(e: Expr, m: Memory, keys: iset<ControlKey>, r: Ran, st: State, active: Keys)
    requires e.Loop? && RunsKind(e, m, keys, r) && Within(m, st) && keys <= active
    ensures Covers(EvalKind(e, st, active), r)
    decreases e, 3
  {
    hide Iterates, Head, Pass, Test, Back;
    var n: nat :| Iterates(e, iset{}, m, keys, n, r);
    HeadTakes(e, iset{}, st.Slots(), active);
    IteratesCovered(e, iset{}, m, keys, n, r, iset{}, Head(e, iset{}, st.Slots(), active), active);
  }

  lemma {:induction false} ForRun(e: Expr, m: Memory, keys: iset<ControlKey>, r: Ran, st: State, active: Keys)
    requires e.For? && RunsKind(e, m, keys, r) && Within(m, st) && keys <= active
    ensures Covers(EvalKind(e, st, active), r)
    decreases e, 3
  {
    hide Runs, Eval, Iterates, Head, Pass, Test, Back, Decided, ControlRecords;
    var i: Ran :| Runs(e.iter, m, keys, i) &&
      if !i.end.Done? then r == i
      else exists n: nat, s: Ran :: Iterates(e, i.value, i.memory, keys, n, s) &&
             r == Noting(i.notes + Decided(e.key, i.value), s);
    ExprCovered(e.iter, m, keys, i, st, active);
    var x := Eval(e.iter, st, active);
    if i.end.Done? {
      var n: nat, s: Ran :| Iterates(e, i.value, i.memory, keys, n, s) &&
        r == Noting(i.notes + Decided(e.key, i.value), s);
      KeysCovered(keys, active, i.value, x.value, e.key);
      HeadTakes(e, x.value, x.state.slots, active);
      IteratesCovered(e, i.value, i.memory, keys, n, s, x.value, Head(e, x.value, x.state.slots, active), active);
    }
  }

  // ----- functions -----

  /** Whatever a call of the function notes, the analysis of its body records. */
  lemma NotesAreRecorded(body: Stmts, tail: Option<ExitKey>, notes: iset<Record>)
    requires FunctionNotes(body, tail, notes)
    ensures notes <= Meaning(body, tail)
  {
    hide RunsStmts, EvalStmts, Left, ExitRecords;
    var r: Ran :| RunsStmts(body, map[], iset{}, r) &&
      notes == if r.end.Done? && tail.Some? then r.notes + Left(tail.value, r.value) else r.notes;
    StmtsCovered(body, map[], iset{}, r, Live(iset{}), iset{});
    if r.end.Done? && tail.Some? {
      LeftCovered(tail.value, r.value, EvalStmts(body, Live(iset{}), iset{}).value);
    }
  }
}
