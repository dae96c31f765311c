/** Laws between programs: what the analysis says of one is what it says of another. They
    tell exactly what an assignment leaves in a binding and what a branch does. */
module DependLaws {
  import opened Options
  import opened DependSyntax
  import opened DependMeaning

  // ----- programs -----

  /** The statements, and one more. */
  function Append(stmts: Stmts, last: Stmt): Stmts {
    match stmts
    case NoStmts => MoreStmts(last, NoStmts)
    case MoreStmts(stmt, rest) => MoreStmts(stmt, Append(rest, last))
  }

  function Return(x: ExitKey, e: Expr): Stmt {
    Run(Ret(x, Some(e)), true)
  }

  function Var(id: nat, at: Range): Expr {
    Path(at, Some(id), NoInitializer)
  }

  /** Where a body stands: the state it is entered with, and the controls it runs under. */
  datatype Where = Where(state: State, active: Keys)

  ghost function Records(w: Where, body: Stmts): iset<Record> {
    EvalStmts(body, w.state, w.active).records
  }

  /** A function's body stands at the start, under no control. */
  lemma AtTheStart(body: Stmts)
    ensures Records(Where(Live(iset{}), iset{}), body) == Meaning(body, None)
  {
  }

  /** What the analysis says of an exit. */
  ghost function ExitFacts(w: Where, body: Stmts, x: ExitKey): iset<Fact> {
    iset f: Fact | ExitHas(x, f) in Records(w, body)
  }

  ghost predicate Reached(w: Where, body: Stmts, x: ExitKey) {
    ExitSeen(x) in Records(w, body)
  }

  /** What a return of `e` behind the body sees. */
  ghost function Sees(w: Where, body: Stmts, e: Expr, x: ExitKey): iset<Fact> {
    ExitFacts(w, Append(body, Return(x, e)), x)
  }

  ghost predicate Arrives(w: Where, body: Stmts, e: Expr, x: ExitKey) {
    Reached(w, Append(body, Return(x, e)), x)
  }

  /** The body, and `e` for its effects. */
  function After(body: Stmts, e: Expr): Stmts {
    Append(body, Run(e, true))
  }

  /** The exit is nowhere in what the analysis saw. */
  ghost predicate Absent(w: Where, body: Stmts, x: ExitKey) {
    forall r :: r in Records(w, body) ==> !(r.ExitSeen? && r.exit == x) && !(r.ExitHas? && r.exit == x)
  }

  /** A value as it is read again at another place. */
  ghost function ReadAt(id: nat, held: iset<Fact>, at: Range): iset<Fact> {
    iset f: Fact |
      || f == Data(id, at)
      || f in held
      || (f.Data? && f.occurrence == at && exists r :: Data(f.id, r) in held)
  }

  // ----- one statement more -----

  lemma {:induction false} EvalAppend(pre: Stmts, last: Stmt, st: State, active: Keys)
    ensures var a, b := EvalStmts(pre, st, active), EvalStmts(Append(pre, last), st, active);
            var c := EvalStmt(last, a.state, active);
            if a.state.Dead? then b.state == Dead && b.records == a.records
            else b.state == c.state && b.records == a.records + c.records
    decreases pre
  {
    hide EvalStmt;
    if st.Live? && pre.MoreStmts? {
      EvalAppend(pre.rest, last, EvalStmt(pre.stmt, st, active).state, active);
    } else if st.Live? {
      var c := EvalStmt(last, st, active);
      assert EvalStmts(NoStmts, c.state, active) == Quiet(iset{}, c.state);
    }
  }

  /** The end of a body from its start. */
  ghost function EndOf(w: Where, body: Stmts): Out {
    EvalStmts(body, w.state, w.active)
  }

  /** Every value has the controls it is computed under. */
  lemma HasKeys(w: Where, e: Expr, st: State)
    requires st.Live?
    ensures AsFacts(w.active) <= Eval(e, st, w.active).value
  {
    hide EvalKind;
  }

  /** What a return behind a body says, when it is reached. */
  lemma ReturnSays(w: Where, pre: Stmts, x: ExitKey, e: Expr)
    requires Absent(w, After(pre, e), x)
    ensures Arrives(w, pre, e, x) <==> EndOf(w, pre).state.Live?
    ensures EndOf(w, pre).state.Live? ==> Sees(w, pre, e, x) == Eval(e, EndOf(w, pre).state, w.active).value
  {
    hide Eval, EvalStmts;
    var st := EndOf(w, pre).state;
    EvalAppend(pre, Run(e, true), w.state, w.active);
    EvalAppend(pre, Return(x, e), w.state, w.active);
    if st.Live? {
      var v := Eval(e, st, w.active);
      assert EvalStmt(Run(e, true), st, w.active).records == v.records;
      RetRecords(w, x, e, st);
    }
  }

  lemma RetRecords(w: Where, x: ExitKey, e: Expr, st: State)
    requires st.Live?
    ensures EvalStmt(Return(x, e), st, w.active).records ==
            Eval(e, st, w.active).records + ExitRecords(x, Eval(e, st, w.active).value)
  {
    hide EvalKind;
    HasKeys(w, e, st);
    var v := Eval(e, st, w.active);
    assert EvalOption(Some(e), st, w.active) == v;
    assert v.value + AsFacts(w.active) == v.value;
    RetKind(w, x, e, st);
  }

  lemma RetKind(w: Where, x: ExitKey, e: Expr, st: State)
    ensures EvalKind(Ret(x, Some(e)), st, w.active).records ==
            EvalOption(Some(e), st, w.active).records
              + ExitRecords(x, EvalOption(Some(e), st, w.active).value + AsFacts(w.active))
  {
    hide EvalOption;
  }

  lemma VarValue(w: Where, id: nat, at: Range, st: State)
    requires st.Live?
    ensures Eval(Var(id, at), st, w.active).value == Read(id, st, at) + AsFacts(w.active)
    ensures Eval(Var(id, at), st, w.active).records == iset{}
    ensures Eval(Var(id, at), st, w.active).state == st
  {
  }

  // ----- assignments -----

  function AssignTo(site: Range, place: Place, e: Expr, compound: bool): Stmt {
    Run(Assign(site, place, e, compound), true)
  }

  /** What an assignment keeps of the binding it writes. */
  ghost function Kept(place: Place, compound: bool, id: nat, st: State): Facts {
    if compound || !place.Named? then Read(id, st, place.span) else iset{}
  }

  /** The state behind an assignment, and what it records. */
  lemma AssignState(w: Where, site: Range, place: Place, e: Expr, compound: bool, st: State, id: nat)
    requires st.Live? && Target(place) == Some(id)
    ensures var o := EvalStmt(AssignTo(site, place, e, compound), st, w.active);
            var p := EvalPlace(place, st, w.active);
            var v := Eval(e, p.state, w.active);
            var stored := v.value + p.value + Kept(place, compound, id, v.state);
            && o.state == Store(v.state, id, stored)
            && o.records == p.records + v.records + iset{AssignedAt(id, site)}
  {
    hide Eval, EvalPlace, Read;
    var p := EvalPlace(place, st, w.active);
    var v := Eval(e, p.state, w.active);
    var stored := v.value + p.value + Kept(place, compound, id, v.state);
    if p.state.Live? {
      HasKeys(w, e, p.state);
      assert v.value + p.value + AsFacts(w.active) == v.value + p.value;
    } else {
      DeadStays(w, e, p.state);
    }
    assert Direct(place) <==> place.Named?;
    OuterEval(w, Assign(site, place, e, compound), st);
  }

  lemma OuterEval(w: Where, e: Expr, st: State)
    requires st.Live?
    ensures Eval(e, st, w.active).state == EvalKind(e, st, w.active).state
    ensures Eval(e, st, w.active).records == EvalKind(e, st, w.active).records
  {
  }

  lemma ReadStored(id: nat, at: Range, st: State, stored: Facts)
    requires st.Live?
    ensures Read(id, Store(st, id, stored), at) == ReadAt(id, stored, at)
  {
    var after := Store(st, id, stored);
    assert forall f :: (id, f) in after.Slots() <==> f in stored;
  }

  lemma KeysStay(id: nat, stored: Facts, at: Range, keys: Facts)
    requires keys <= stored
    ensures ReadAt(id, stored, at) + keys == ReadAt(id, stored, at)
  {
  }

  /** What a return of a binding says behind an assignment to it. */
  lemma ReturnAfter(w: Where, pre: Stmts, site: Range, place: Place, e: Expr, compound: bool, id: nat, at: Range,
                    x: ExitKey)
    requires Target(place) == Some(id) && Absent(w, Append(pre, AssignTo(site, place, e, compound)), x)
    requires Arrives(w, Append(pre, AssignTo(site, place, e, compound)), Var(id, at), x)
    ensures EndOf(w, pre).state.Live?
    ensures var p := EvalPlace(place, EndOf(w, pre).state, w.active);
            var v := Eval(e, p.state, w.active);
            var stored := v.value + p.value + Kept(place, compound, id, v.state);
            v.state.Live? && Sees(w, Append(pre, AssignTo(site, place, e, compound)), Var(id, at), x)
                             == ReadAt(id, stored, at)
  {
    hide Eval, EvalPlace, EvalStmts, EvalStmt, Read, ReadAt;
    var mid := Append(pre, AssignTo(site, place, e, compound));
    EvalAppend(pre, AssignTo(site, place, e, compound), w.state, w.active);
    NothingBehind(w, mid, x, id, at);
    ReturnSays(w, mid, x, Var(id, at));
    var st := EndOf(w, pre).state;
    assert EndOf(w, mid).state.Live?;
    AssignState(w, site, place, e, compound, st, id);
    VarValue(w, id, at, EndOf(w, mid).state);
    var p := EvalPlace(place, st, w.active);
    var v := Eval(e, p.state, w.active);
    StoreLive(v.state, id);
    DeadStays(w, e, p.state);
    HasKeys(w, e, p.state);
    var stored := v.value + p.value + Kept(place, compound, id, v.state);
    ReadStored(id, at, v.state, stored);
    KeysStay(id, stored, at, AsFacts(w.active));
  }

  lemma StoreLive(st: State, id: nat)
    ensures forall v :: Store(st, id, v).Live? ==> st.Live?
  {
  }

  /** Evaluating a binding for nothing records nothing. */
  lemma NothingBehind(w: Where, pre: Stmts, x: ExitKey, id: nat, at: Range)
    requires Absent(w, pre, x)
    ensures Absent(w, After(pre, Var(id, at)), x)
  {
    hide EvalStmts;
    EvalAppend(pre, Run(Var(id, at), true), w.state, w.active);
    var st := EndOf(w, pre).state;
    if st.Live? {
      VarValue(w, id, at, st);
      assert EvalStmt(Run(Var(id, at), true), st, w.active).records == iset{};
    }
  }

  /** After `x = e` a read of `x` sees what a return of `e` would, and nothing else. */
  lemma PlainAssignment(w: Where, pre: Stmts, site: Range, span: Range, id: nat, e: Expr, at: Range, x: ExitKey)
    requires Absent(w, After(pre, e), x)
    requires Arrives(w, Append(pre, AssignTo(site, Named(span, id), e, false)), Var(id, at), x)
    ensures Sees(w, Append(pre, AssignTo(site, Named(span, id), e, false)), Var(id, at), x)
         == ReadAt(id, Sees(w, pre, e, x), at)
  {
    hide Eval, EvalStmts, EvalStmt, ReadAt, Read, Arrives, Sees, After;
    AssignAbsent(w, pre, site, Named(span, id), e, false, id, x);
    ReturnAfter(w, pre, site, Named(span, id), e, false, id, at, x);
    ReturnSays(w, pre, x, e);
    var st := EndOf(w, pre).state;
    var v := Eval(e, st, w.active);
    assert v.value + iset{} == v.value;
    NamedPlace(w, span, id, st);
  }

  lemma NamedPlace(w: Where, span: Range, id: nat, st: State)
    ensures EvalPlace(Named(span, id), st, w.active) == Quiet(iset{}, st) && Target(Named(span, id)) == Some(id)
  {
  }

  /** After `x op= e` it also sees everything that `x` held when `e` was evaluated. */
  lemma CompoundAssignment(w: Where, pre: Stmts, site: Range, span: Range, id: nat, e: Expr, at: Range, x: ExitKey)
    requires Absent(w, After(pre, e), x)
    requires Arrives(w, Append(pre, AssignTo(site, Named(span, id), e, true)), Var(id, at), x)
    ensures Sees(w, Append(pre, AssignTo(site, Named(span, id), e, true)), Var(id, at), x)
         == ReadAt(id, Sees(w, pre, e, x)
                     + Sees(w, After(pre, e), Var(id, span), x), at)
  {
    hide Eval, EvalStmts, EvalStmt, ReadAt, Read, Arrives, Sees, After;
    AssignAbsent(w, pre, site, Named(span, id), e, true, id, x);
    ReturnAfter(w, pre, site, Named(span, id), e, true, id, at, x);
    ReturnSays(w, pre, x, e);
    var st := EndOf(w, pre).state;
    var v := Eval(e, st, w.active);
    NamedPlace(w, span, id, st);
    ReadBehind(w, pre, e, id, span, x);
    HasKeys(w, e, st);
    assert v.value + iset{} + Read(id, v.state, span) == v.value + (Read(id, v.state, span) + AsFacts(w.active));
  }

  lemma AfterRun(w: Where, pre: Stmts, e: Expr)
    requires EndOf(w, pre).state.Live?
    ensures EndOf(w, After(pre, e)).state == Eval(e, EndOf(w, pre).state, w.active).state
    ensures EndOf(w, After(pre, e)).records == EndOf(w, pre).records + Eval(e, EndOf(w, pre).state, w.active).records
  {
    hide Eval, EvalStmts;
    EvalAppend(pre, Run(e, true), w.state, w.active);
  }

  lemma AssignAbsent(w: Where, pre: Stmts, site: Range, place: Place, e: Expr, compound: bool, id: nat, x: ExitKey)
    requires Absent(w, After(pre, e), x) && Target(place) == Some(id)
    requires place.Named? || (place.Field? && place.base.Named?)
    ensures Absent(w, Append(pre, AssignTo(site, place, e, compound)), x)
  {
    hide Eval, EvalStmts, EvalStmt, Read;
    AbsentBefore(w, pre, e, x);
    EvalAppend(pre, AssignTo(site, place, e, compound), w.state, w.active);
    var st := EndOf(w, pre).state;
    if st.Live? {
      AfterRun(w, pre, e);
      AssignState(w, site, place, e, compound, st, id);
    }
  }

  /** Behind `x.f = e` it sees them, and what the address read of `x`. */
  lemma FieldAssignment(w: Where, pre: Stmts, site: Range, span: Range, base: Range, id: nat, e: Expr, compound: bool,
                        at: Range, x: ExitKey)
    requires Absent(w, After(pre, e), x)
    requires Arrives(w, Append(pre, AssignTo(site, Field(span, Named(base, id)), e, compound)), Var(id, at), x)
    ensures Sees(w, Append(pre, AssignTo(site, Field(span, Named(base, id)), e, compound)), Var(id, at), x)
         == ReadAt(id, Sees(w, pre, e, x)
                     + Sees(w, pre, Var(id, base), x)
                     + Sees(w, After(pre, e), Var(id, span), x), at)
  {
    hide Eval, EvalStmts, EvalStmt, ReadAt, Read, Arrives, Sees, After;
    var place := Field(span, Named(base, id));
    AssignAbsent(w, pre, site, place, e, compound, id, x);
    ReturnAfter(w, pre, site, place, e, compound, id, at, x);
    ReturnSays(w, pre, x, e);
    var st := EndOf(w, pre).state;
    var v := Eval(e, st, w.active);
    AbsentBefore(w, pre, e, x);
    NothingBehind(w, pre, x, id, base);
    ReturnSays(w, pre, x, Var(id, base));
    VarValue(w, id, base, st);
    ReadBehind(w, pre, e, id, span, x);
    FieldPlace(w, span, base, id, st);
    HasKeys(w, e, st);
    var keys := AsFacts(w.active);
    assert v.value + Read(id, st, base) + Read(id, v.state, span)
        == v.value + (Read(id, st, base) + keys) + (Read(id, v.state, span) + keys);
  }

  lemma FieldPlace(w: Where, span: Range, base: Range, id: nat, st: State)
    ensures EvalPlace(Field(span, Named(base, id)), st, w.active) == Quiet(Read(id, st, base), st)
  {
    hide Read;
    assert iset{} + Read(id, st, base) == Read(id, st, base);
  }

  /** Behind `x[i] = e` it sees them too, and what `i` does; `i` is evaluated first. */
  lemma IndexAssignment(w: Where, pre: Stmts, site: Range, span: Range, base: Range, id: nat, i: Expr, e: Expr,
                        compound: bool, at: Range, x: ExitKey)
    requires Absent(w, After(After(pre, i), e), x)
    requires Arrives(w, Append(pre, AssignTo(site, Indexed(span, Named(base, id), i), e, compound)), Var(id, at), x)
    ensures Sees(w, Append(pre, AssignTo(site, Indexed(span, Named(base, id), i), e, compound)), Var(id, at), x)
         == ReadAt(id, Sees(w, After(pre, i), e, x)
                     + Sees(w, pre, i, x)
                     + Sees(w, After(pre, i), Var(id, base), x)
                     + Sees(w, After(After(pre, i), e), Var(id, span), x), at)
  {
    hide Eval, EvalStmts, EvalStmt, ReadAt, Read, Arrives, Sees, After, Append, EvalPlace;
    var place := Indexed(span, Named(base, id), i);
    var st := EndOf(w, pre).state;
    var mid := After(pre, i);
    IndexAbsent(w, pre, site, span, base, id, i, e, compound, x);
    ReturnAfter(w, pre, site, place, e, compound, id, at, x);
    var j := Eval(i, st, w.active);
    var v := Eval(e, j.state, w.active);
    IndexPlace(w, span, base, id, i, st);
    DeadStays(w, e, j.state);
    AfterRun(w, pre, i);
    AbsentBefore(w, mid, e, x);
    ReturnSays(w, mid, x, e);
    ReturnSays(w, pre, x, i);
    NothingBehind(w, mid, x, id, base);
    ReturnSays(w, mid, x, Var(id, base));
    VarValue(w, id, base, j.state);
    ReadBehind(w, mid, e, id, span, x);
    HasKeys(w, e, j.state);
    var keys := AsFacts(w.active);
    assert v.value + (j.value + Read(id, j.state, base)) + Read(id, v.state, span)
        == v.value + j.value + (Read(id, j.state, base) + keys) + (Read(id, v.state, span) + keys);
  }

  lemma IndexPlace(w: Where, span: Range, base: Range, id: nat, i: Expr, st: State)
    ensures var p, j := EvalPlace(Indexed(span, Named(base, id), i), st, w.active), Eval(i, st, w.active);
            p.value == j.value + Read(id, j.state, base) && p.state == j.state && p.records == j.records
  {
    hide Read, Eval;
    var j := Eval(i, st, w.active);
    assert iset{} + j.value == j.value;
    assert iset{} + j.records == j.records;
  }

  lemma IndexAbsent(w: Where, pre: Stmts, site: Range, span: Range, base: Range, id: nat, i: Expr, e: Expr,
                    compound: bool, x: ExitKey)
    requires Absent(w, After(After(pre, i), e), x)
    ensures Absent(w, Append(pre, AssignTo(site, Indexed(span, Named(base, id), i), e, compound)), x)
  {
    hide Eval, EvalStmts, EvalStmt, Read, EvalPlace;
    var place, mid := Indexed(span, Named(base, id), i), After(pre, i);
    AbsentBefore(w, mid, e, x);
    AbsentBefore(w, pre, i, x);
    EvalAppend(pre, AssignTo(site, place, e, compound), w.state, w.active);
    var st := EndOf(w, pre).state;
    if st.Live? {
      AfterRun(w, pre, i);
      AssignState(w, site, place, e, compound, st, id);
      IndexPlace(w, span, base, id, i, st);
      if EndOf(w, mid).state.Live? {
        AfterRun(w, mid, e);
      } else {
        NothingDead(w, e);
      }
    }
  }

  lemma NothingDead(w: Where, e: Expr)
    ensures Eval(e, Dead, w.active).records == iset{}
  {
  }

  lemma DeadStays(w: Where, e: Expr, st: State)
    ensures Eval(e, st, w.active).state.Live? ==> st.Live?
  {
  }

  /** A binding read behind an expression. */
  lemma ReadBehind(w: Where, pre: Stmts, e: Expr, id: nat, span: Range, x: ExitKey)
    requires EndOf(w, pre).state.Live? && Absent(w, After(pre, e), x)
    ensures var v := Eval(e, EndOf(w, pre).state, w.active);
            v.state.Live? ==>
              Sees(w, After(pre, e), Var(id, span), x) == Read(id, v.state, span) + AsFacts(w.active)
  {
    hide Eval, EvalStmts, EvalStmt, Read, Arrives, Sees, After, Append;
    var v := Eval(e, EndOf(w, pre).state, w.active);
    if v.state.Live? {
      NothingBehind(w, After(pre, e), x, id, span);
      ReturnSays(w, After(pre, e), x, Var(id, span));
      AfterRun(w, pre, e);
      VarValue(w, id, span, v.state);
    }
  }

  lemma AbsentBefore(w: Where, pre: Stmts, e: Expr, x: ExitKey)
    requires Absent(w, After(pre, e), x)
    ensures Absent(w, pre, x)
  {
    hide EvalStmts, EvalStmt;
    EvalAppend(pre, Run(e, true), w.state, w.active);
  }

  // ----- bindings -----

  /** After `let x = e` a read of `x` sees what a return of `e` would; a name that may also
      be a constant is marked. */
  lemma Declaration(w: Where, pre: Stmts, b: Binding, e: Expr, at: Range, x: ExitKey)
    requires Absent(w, After(pre, e), x)
    requires Arrives(w, Append(pre, LetInit([b], e)), Var(b.id, at), x)
    ensures Sees(w, Append(pre, LetInit([b], e)), Var(b.id, at), x)
         == ReadAt(b.id, Sees(w, pre, e, x) + if b.bare then iset{Unknown(BarePattern)} else iset{}, at)
  {
    hide Eval, EvalStmts, ReadAt, Read, Arrives, Sees, Append;
    var mid := Append(pre, LetInit([b], e));
    LetAbsent(w, pre, b, e, x);
    NothingBehind(w, mid, x, b.id, at);
    ReturnSays(w, mid, x, Var(b.id, at));
    EvalAppend(pre, LetInit([b], e), w.state, w.active);
    var st := EndOf(w, pre).state;
    var v := Eval(e, st, w.active);
    ReturnSays(w, pre, x, e);
    OneBound(b, v.value, v.state);
    HasKeys(w, e, st);
    VarValue(w, b.id, at, EndOf(w, mid).state);
    ReadStored(b.id, at, v.state, Bound(b, v.value));
    KeysStay(b.id, Bound(b, v.value), at, AsFacts(w.active));
  }

  lemma OneBound(b: Binding, value: Facts, st: State)
    ensures Bind([b], value, st) == Store(st, b.id, Bound(b, value))
  {
    assert [b][1..] == [];
  }

  lemma LetAbsent(w: Where, pre: Stmts, b: Binding, e: Expr, x: ExitKey)
    requires Absent(w, After(pre, e), x)
    ensures Absent(w, Append(pre, LetInit([b], e)), x)
  {
    hide Eval, EvalStmts;
    AbsentBefore(w, pre, e, x);
    EvalAppend(pre, LetInit([b], e), w.state, w.active);
    if EndOf(w, pre).state.Live? {
      AfterRun(w, pre, e);
    }
  }

  // ----- branches -----

  /** The controls a branch adds. */
  ghost function Deciding(key: ControlKey, condition: iset<Fact>): iset<Fact> {
    iset f: Fact | f.Control? && (f.key == key || f in condition)
  }

  /** A return behind both branches may as well stand at the end of each: it sees the same,
      and the controls of the branch. */
  lemma BranchesJoin(w: Where, pre: Stmts, key: ControlKey, cond: Expr, pattern: Pattern, yes: Stmts, no: Stmts,
                     id: nat, at: Range, x: ExitKey)
    requires Absent(w, After(pre, If(key, cond, pattern, yes, Some(Block(no)))), x)
    requires Arrives(w, After(pre, If(key, cond, pattern, yes, Some(Block(no)))), Var(id, at), x)
    ensures var ret := Return(x, Var(id, at));
            ExitFacts(w, After(pre, If(key, cond, pattern, Append(yes, ret), Some(Block(Append(no, ret))))), x)
              == Sees(w, After(pre, If(key, cond, pattern, yes, Some(Block(no)))), Var(id, at), x)
                 + Deciding(key, Sees(w, pre, cond, x))
  {
    hide Eval, EvalStmts, Read, Arrives, Append;
    var ret := Return(x, Var(id, at));
    var whole := If(key, cond, pattern, yes, Some(Block(no)));
    var split := If(key, cond, pattern, Append(yes, ret), Some(Block(Append(no, ret))));
    NothingBehind(w, After(pre, whole), x, id, at);
    ReturnSays(w, After(pre, whole), x, Var(id, at));
    EvalAppend(pre, Run(whole, true), w.state, w.active);
    var st := EndOf(w, pre).state;
    assert st.Live?;
    AfterRun(w, pre, whole);
    AfterRun(w, pre, split);
    AfterRun(w, pre, cond);
    IfOut(w, key, cond, pattern, yes, no, st);
    IfOut(w, key, cond, pattern, Append(yes, ret), Append(no, ret), st);
    ReturnSays(w, pre, x, cond);
    var c := Eval(cond, st, w.active);
    var inner := Narrow(w.active, c.value, key);
    var there, here := Where(Bind(pattern, c.value, c.state), inner), Where(c.state, inner);
    EndSays(there, yes, id, at, x);
    EndSays(here, no, id, at, x);
    var a, b := EndOf(there, yes).state, EndOf(here, no).state;
    VarValue(w, id, at, Join(a, b));
    ReadJoin(id, a, b, at);
    DecidingKeys(w, key, c.value);
    HasKeys(w, cond, st);
  }

  lemma DecidingKeys(w: Where, key: ControlKey, value: Facts)
    ensures AsFacts(Narrow(w.active, value, key)) == AsFacts(w.active) + Deciding(key, value)
  {
  }

  lemma ReadJoin(id: nat, a: State, b: State, at: Range)
    ensures Read(id, Join(a, b), at) == Read(id, a, at) + Read(id, b, at)
  {
  }

  /** What an `if` with two blocks yields. */
  lemma IfOut(w: Where, key: ControlKey, cond: Expr, pattern: Pattern, yes: Stmts, no: Stmts, st: State)
    requires st.Live?
    ensures var o := Eval(If(key, cond, pattern, yes, Some(Block(no))), st, w.active);
            var c := Eval(cond, st, w.active);
            var inner := Narrow(w.active, c.value, key);
            var there, here := Where(Bind(pattern, c.value, c.state), inner), Where(c.state, inner);
            && o.state == Join(EndOf(there, yes).state, EndOf(here, no).state)
            && o.records == c.records + ControlRecords(key, c.value) + Records(there, yes) + Records(here, no)
  {
    hide EvalStmts, Bind;
    var c := Eval(cond, st, w.active);
    var inner := Narrow(w.active, c.value, key);
    BlockOut(Where(c.state, inner), no);
    OuterEval(w, If(key, cond, pattern, yes, Some(Block(no))), st);
  }

  lemma BlockOut(w: Where, stmts: Stmts)
    ensures var o := EvalOption(Some(Block(stmts)), w.state, w.active);
            o.state == EndOf(w, stmts).state && o.records == Records(w, stmts)
  {
    assert EvalOption(Some(Block(stmts)), w.state, w.active) == Eval(Block(stmts), w.state, w.active);
    if w.state.Live? {
      OuterEval(w, Block(stmts), w.state);
      assert EvalKind(Block(stmts), w.state, w.active) == EvalStmts(stmts, w.state, w.active);
    }
  }

  /** A return of a binding at the end of a block. */
  lemma EndSays(w: Where, body: Stmts, id: nat, at: Range, x: ExitKey)
    requires Absent(w, body, x)
    ensures forall r :: r in Records(w, Append(body, Return(x, Var(id, at)))) && r.ExitHas? && r.exit == x <==>
                        r.ExitHas? && r.exit == x && EndOf(w, body).state.Live?
                        && r.fact in Read(id, EndOf(w, body).state, at) + AsFacts(w.active)
  {
    hide Eval, EvalStmts, EvalStmt, Read;
    NothingBehind(w, body, x, id, at);
    ReturnSays(w, body, x, Var(id, at));
    EvalAppend(body, Return(x, Var(id, at)), w.state, w.active);
    if EndOf(w, body).state.Live? {
      VarValue(w, id, at, EndOf(w, body).state);
    }
  }
}
