/** What an execution sees: runs of a function body in which every value carries the facts
    it was made from. A run takes one branch of every choice and goes round a loop as often
    as it likes. It knows nothing of joins, fixpoints or unreachable states: it is what the
    analysis has to cover. */
module DependRuns {
  import opened Options
  import opened DependSyntax

  /** What each binding holds. */
  type Memory = map<nat, iset<Fact>>

  /** How a run of a piece of syntax ends: behind it, at the innermost loop, or outside the
      function (also by a jump with a label). */
  datatype End = Done | Broke | Continued | Gone

  /** A run: its value, the memory at its end, and what was noted on the way. The value of
      a run that broke out of a loop is what it carries. */
  datatype Ran = Ran(end: End, value: iset<Fact>, memory: Memory, notes: iset<Record>)

  // ----- values -----

  ghost function Held(m: Memory, id: nat): iset<Fact> {
    if id in m then m[id] else iset{}
  }

  /** Reading a binding at an occurrence: the binding itself, what it holds, and the
      bindings behind what it holds, as if they were read here. */
  ghost function Got(m: Memory, id: nat, at: Range): iset<Fact> {
    iset f: Fact |
      || f == Data(id, at)
      || f in Held(m, id)
      || (f.Data? && f.occurrence == at && exists r :: Data(f.id, r) in Held(m, id))
  }

  ghost function Deciding(keys: iset<ControlKey>): iset<Fact> {
    iset f: Fact | f.Control? && f.key in keys
  }

  /** The controls inside a region that a value decides on. */
  ghost function Deeper(keys: iset<ControlKey>, value: iset<Fact>, key: ControlKey): iset<ControlKey> {
    iset k: ControlKey | k in keys || k == key || Control(k) in value
  }

  /** What is noted of a decision: its operands, unknowns and literals. */
  ghost function Decided(key: ControlKey, value: iset<Fact>): iset<Record> {
    iset n: Record | n == ControlSeen(key) || (n.ControlHas? && n.key == key && n.fact in value && !n.fact.Control?)
  }

  ghost function Left(exit: ExitKey, value: iset<Fact>): iset<Record> {
    iset n: Record | n == ExitSeen(exit) || (n.ExitHas? && n.exit == exit && n.fact in value)
  }

  /** A literal that goes through a call is marked, and related to the callee unless it is
      related to something already. */
  ghost function ThroughCall(text: string, value: iset<Fact>): iset<Fact> {
    iset f: Fact |
      || (!f.Literal? && f in value)
      || (f.Literal? && f.literal.viaCall && exists with, via ::
           && Literal(LiteralFact(f.literal.span, with, f.literal.condition, via)) in value
           && f.literal.comparedWith == if with == None then Some(text) else with)
  }

  /** A literal that is compared is related to the other side. */
  ghost function ComparedWith(text: string, condition: string, value: iset<Fact>): iset<Fact> {
    iset f: Fact |
      && f.Literal? && f.literal.comparedWith == Some(text) && f.literal.condition == Some(condition)
      && exists with, when :: Literal(LiteralFact(f.literal.span, with, when, f.literal.viaCall)) in value
  }

  ghost function OnlyLiterals(value: iset<Fact>): iset<Fact> {
    iset f: Fact | f in value && f.Literal?
  }

  /** Every binding of a pattern holds the value; one that may be no binding says so. */
  ghost function Holding(pattern: Pattern, value: iset<Fact>, m: Memory): Memory {
    if pattern == [] then m
    else
      var b := pattern[0];
      Holding(pattern[1..], value, m[b.id := if b.bare then value + iset{Unknown(BarePattern)} else value])
  }

  ghost function Blurred(m: Memory, visible: seq<nat>): Memory
    decreases visible
  {
    if visible == [] then m
    else Blurred(m[visible[0] := Held(m, visible[0]) + iset{Unknown(MacroMayAssign)}], visible[1..])
  }

  // ----- expressions -----

  ghost predicate Ends(r: Ran, end: End, value: iset<Fact>, m: Memory, notes: iset<Record>) {
    r == Ran(end, value, m, notes)
  }

  /** The same run with more noted before it. */
  ghost function Noting(notes: iset<Record>, r: Ran): Ran {
    r.(notes := notes + r.notes)
  }

  /** A run of an expression: its value carries the controls in force. */
  ghost predicate Runs(e: Expr, m: Memory, keys: iset<ControlKey>, r: Ran)
    decreases e, 5
  {
    exists own: Ran :: RunsKind(e, m, keys, own) &&
      r == if own.end.Done? then own.(value := own.value + Deciding(keys)) else own
  }

  ghost predicate RunsOption(e: Option<Expr>, m: Memory, keys: iset<ControlKey>, r: Ran)
    decreases e, 6
  {
    match e
    case None => Ends(r, Done, iset{}, m, iset{})
    case Some(expr) => Runs(expr, m, keys, r)
  }

  ghost predicate RunsKind(e: Expr, m: Memory, keys: iset<ControlKey>, r: Ran)
    decreases e, 4
  {
    match e
    case Constant(span, known) =>
      Ends(r, Done, if known then iset{Literal(LiteralFact(span, None, None, false))} else iset{}, m, iset{})
    case Path(span, binding, why) =>
      Ends(r, Done, if binding.Some? then Got(m, binding.value, span) else iset{Unknown(why)}, m, iset{})
    case Opaque(why) => Ends(r, Done, iset{Unknown(why)}, m, iset{})
    case Group(parts) => RunsMany(parts, m, keys, r)
    case Call(callee, text, args) =>
      exists f: Ran :: Runs(callee, m, keys, f) &&
        if !f.end.Done? then r == f
        else exists a: Ran :: RunsArgs(args, text, f.memory, keys, a) &&
               r == Noting(f.notes, if a.end.Done? then a.(value := f.value + a.value) else a)
    case MethodCall(receiver, text, target, args, why) =>
      exists f: Ran :: Runs(receiver, m, keys, f) &&
        if !f.end.Done? then r == f
        else exists a: Ran :: RunsArgs(args, text, f.memory, keys, a) &&
               r == Noting(f.notes,
                           if a.end.Done? then Pushed(a, target, f.value + a.value + iset{Unknown(why)}) else a)
    case Binary(op, left, leftText, key, right, rightText, condition) =>
      exists l: Ran :: Runs(left, m, keys, l) &&
        if !l.end.Done? then r == l
        else if op.Lazy? then
          || r == l.(notes := l.notes + Decided(key, l.value))
          || exists s: Ran :: Runs(right, l.memory, Deeper(keys, l.value, key), s) &&
               r == Noting(l.notes + Decided(key, l.value), if s.end.Done? then s.(value := l.value + s.value) else s)
        else exists s: Ran :: Runs(right, l.memory, keys, s) &&
               r == Noting(l.notes,
                           if s.end.Done? then s.(value := Both(op, l.value, leftText, s.value, rightText, condition))
                           else s)
    case Assign(site, place, rhs, compound) =>
      exists p: Ran :: RunsPlace(place, m, keys, p) &&
        if !p.end.Done? then r == p
        else exists v: Ran :: Runs(rhs, p.memory, keys, v) &&
               r == Noting(p.notes, if v.end.Done? then Assigned(site, place, compound, keys, p.value, v) else v)
    case If(key, cond, pattern, thenBlock, otherwise) =>
      exists c: Ran :: Runs(cond, m, keys, c) &&
        if !c.end.Done? then r == c
        else exists b: Ran ::
               && (|| RunsStmts(thenBlock, Holding(pattern, c.value, c.memory), Deeper(keys, c.value, key), b)
                   || RunsOption(otherwise, c.memory, Deeper(keys, c.value, key), b))
               && r == Noting(c.notes + Decided(key, c.value), b)
    case While(_, _, _, _) => exists n: nat :: Iterates(e, iset{}, m, keys, n, r)
    case Loop(_) => exists n: nat :: Iterates(e, iset{}, m, keys, n, r)
    case For(key, _, iter, _) =>
      exists i: Ran :: Runs(iter, m, keys, i) &&
        if !i.end.Done? then r == i
        else exists n: nat, s: Ran :: Iterates(e, i.value, i.memory, keys, n, s) &&
               r == Noting(i.notes + Decided(key, i.value), s)
    case Match(scrutinee, arms) =>
      exists s: Ran :: Runs(scrutinee, m, keys, s) &&
        if !s.end.Done? then r == s
        else if arms.NoArms? then r == s.(value := iset{})
        else exists a: Ran :: RunsArms(arms, s.value, s.memory, keys, a) && r == Noting(s.notes, a)
    case Block(stmts) => RunsStmts(stmts, m, keys, r)
    case Ret(exit, returned) =>
      exists v: Ran :: RunsOption(returned, m, keys, v) &&
        if !v.end.Done? then r == v
        else Ends(r, Gone, iset{}, v.memory, v.notes + Left(exit, v.value + Deciding(keys)))
    case TryOp(exit, key, inner) =>
      exists v: Ran :: Runs(inner, m, keys, v) &&
        if !v.end.Done? then r == v
        else
          var value := v.value + iset{Control(key)};
          var notes := v.notes + Decided(key, v.value) + Left(exit, value + Deciding(keys));
          Ends(r, Done, value, v.memory, notes) || Ends(r, Gone, iset{}, v.memory, notes)
    case Break(labeled, carried) =>
      exists v: Ran :: RunsOption(carried, m, keys, v) &&
        if !v.end.Done? then r == v
        else if labeled then Ends(r, Gone, iset{}, v.memory, v.notes)
        else Ends(r, Broke, v.value, v.memory, v.notes)
    case Continue(labeled) =>
      if labeled then Ends(r, Gone, iset{}, m, iset{}) else Ends(r, Continued, iset{}, m, iset{})
    case Macro(visible) => Ends(r, Done, iset{Unknown(OpaqueMacro)}, Blurred(m, visible), iset{})
  }

  /** A method call leaves the literals of its arguments in the binding it is called on. */
  ghost function Pushed(a: Ran, target: Option<nat>, value: iset<Fact>): Ran {
    match target
    case None => a.(value := value)
    case Some(id) => a.(value := value, memory := a.memory[id := Held(a.memory, id) + OnlyLiterals(a.value)])
  }

  /** An assignment to a binding as a whole replaces what it holds; any other keeps it, as
      read at the place. */
  ghost function Assigned(site: Range, place: Place, compound: bool, keys: iset<ControlKey>, address: iset<Fact>,
                          v: Ran): Ran {
    match Written(place)
    case None => v.(value := iset{})
    case Some(id) =>
      var value := v.value + address + Deciding(keys);
      var stored := if place.Named? && !compound then value else value + Got(v.memory, id, place.span);
      Ran(Done, iset{}, v.memory[id := stored], v.notes + iset{AssignedAt(id, site)})
  }

  ghost function Both(op: Operator, l: iset<Fact>, leftText: string, r: iset<Fact>, rightText: string,
                      condition: string): iset<Fact> {
    l + r + if op.Comparison? then ComparedWith(rightText, condition, l) + ComparedWith(leftText, condition, r)
            else iset{}
  }

  ghost predicate RunsMany(es: Exprs, m: Memory, keys: iset<ControlKey>, r: Ran)
    decreases es
  {
    match es
    case NoExprs => Ends(r, Done, iset{}, m, iset{})
    case MoreExprs(first, others) =>
      exists a: Ran :: Runs(first, m, keys, a) &&
        if !a.end.Done? then r == a
        else exists b: Ran :: RunsMany(others, a.memory, keys, b) &&
               r == Noting(a.notes, if b.end.Done? then b.(value := a.value + b.value) else b)
  }

  ghost predicate RunsArgs(es: Exprs, text: string, m: Memory, keys: iset<ControlKey>, r: Ran)
    decreases es
  {
    match es
    case NoExprs => Ends(r, Done, iset{}, m, iset{})
    case MoreExprs(first, others) =>
      exists a: Ran :: Runs(first, m, keys, a) &&
        if !a.end.Done? then r == a
        else exists b: Ran :: RunsArgs(others, text, a.memory, keys, b) &&
               r == Noting(a.notes, if b.end.Done? then b.(value := ThroughCall(text, a.value) + b.value) else b)
  }

  // ----- assigned places -----

  /** The binding that an assignment writes. */
  function Written(place: Place): Option<nat> {
    match place
    case Named(_, id) => Some(id)
    case Unnamed(_, _) => None
    case Field(_, base) => Written(base)
    case Indexed(_, base, _) => Written(base)
    case Other(_, _, _) => None
  }

  /** What a place reads on the way to what is assigned. */
  ghost function GotBase(base: Place, m: Memory): iset<Fact> {
    match Written(base) case None => iset{} case Some(id) => Got(m, id, base.span)
  }

  ghost predicate RunsPlace(place: Place, m: Memory, keys: iset<ControlKey>, r: Ran)
    decreases place, 6
  {
    match place
    case Named(_, _) => Ends(r, Done, iset{}, m, iset{})
    case Unnamed(_, why) => Ends(r, Done, iset{Unknown(why)}, m, iset{})
    case Field(_, base) =>
      exists b: Ran :: RunsPlace(base, m, keys, b) &&
        r == if b.end.Done? then b.(value := b.value + GotBase(base, b.memory)) else b
    case Indexed(_, base, index) =>
      exists b: Ran :: RunsPlace(base, m, keys, b) &&
        if !b.end.Done? then r == b
        else exists i: Ran :: Runs(index, b.memory, keys, i) &&
               r == Noting(b.notes, if i.end.Done? then i.(value := b.value + i.value + GotBase(base, i.memory)) else i)
    case Other(_, expr, why) =>
      exists v: Ran :: Runs(expr, m, keys, v) &&
        r == if v.end.Done? then v.(value := v.value + iset{Unknown(why)}) else v
  }

  // ----- statements and arms -----

  /** The value is that of the last statement. */
  ghost predicate RunsStmts(stmts: Stmts, m: Memory, keys: iset<ControlKey>, r: Ran)
    decreases stmts, 7
  {
    match stmts
    case NoStmts => Ends(r, Done, iset{}, m, iset{})
    case MoreStmts(stmt, rest) =>
      exists a: Ran :: RunsStmt(stmt, m, keys, a) &&
        if !a.end.Done? || rest.NoStmts? then r == a
        else exists b: Ran :: RunsStmts(rest, a.memory, keys, b) && r == Noting(a.notes, b)
  }

  ghost predicate RunsStmt(stmt: Stmt, m: Memory, keys: iset<ControlKey>, r: Ran)
    decreases stmt, 7
  {
    match stmt
    case LetDecl(pattern) => Ends(r, Done, iset{}, Holding(pattern, iset{Unknown(NoInitializer)}, m), iset{})
    case LetInit(pattern, init) =>
      exists v: Ran :: Runs(init, m, keys, v) &&
        r == if v.end.Done? then v.(value := iset{}, memory := Holding(pattern, v.value, v.memory)) else v
    case LetElse(pattern, init, key, diverge) =>
      exists v: Ran :: Runs(init, m, keys, v) &&
        if !v.end.Done? then r == v
        else
          || Ends(r, Done, iset{}, Holding(pattern, v.value + iset{Control(key)}, v.memory),
                  v.notes + Decided(key, v.value))
          || exists d: Ran :: RunsStmts(diverge, v.memory, Deeper(keys, v.value, key), d) && !d.end.Done? &&
               r == Noting(v.notes + Decided(key, v.value), d)
    case Run(expr, semi) =>
      exists v: Ran :: Runs(expr, m, keys, v) && r == if v.end.Done? && semi then v.(value := iset{}) else v
  }

  /** One of the arms; the guards of the others leave no trace. */
  ghost predicate RunsArms(arms: Arms, scrutinee: iset<Fact>, m: Memory, keys: iset<ControlKey>, r: Ran)
    decreases arms, 7
  {
    arms.MoreArms? && (RunsArm(arms.arm, scrutinee, m, keys, r) || RunsArms(arms.later, scrutinee, m, keys, r))
  }

  ghost predicate RunsArm(arm: Arm, scrutinee: iset<Fact>, m: Memory, keys: iset<ControlKey>, r: Ran)
    decreases arm, 7
  {
    var tested := scrutinee + (iset f: Fact | f.Literal? && f.literal in arm.literals);
    var bound, inner := Holding(arm.pattern, scrutinee, m), Deeper(keys, scrutinee, arm.key);
    match arm.guard
    case None => exists b: Ran :: Runs(arm.body, bound, inner, b) && r == Noting(Decided(arm.key, tested), b)
    case Some(guard) =>
      exists g: Ran :: Runs(guard.cond, bound, inner, g) &&
        if !g.end.Done? then r == Noting(Decided(arm.key, tested), g)
        else exists b: Ran :: Runs(arm.body, g.memory, Deeper(inner, g.value, guard.key), b) &&
               r == Noting(Decided(arm.key, tested) + g.notes + Decided(guard.key, g.value), b)
  }

  // ----- loops -----

  /** A loop that goes round `n` times from here, and then leaves. */
  ghost predicate Iterates(e: Expr, iterated: iset<Fact>, m: Memory, keys: iset<ControlKey>, n: nat, r: Ran)
    requires e.While? || e.Loop? || e.For?
    decreases e, 3, 2 * n
  {
    match e
    case While(key, cond, pattern, body) =>
      exists t: Ran :: Runs(cond, m, keys, t) &&
        if !t.end.Done? then r == t
        else
          var notes := t.notes + Decided(key, t.value);
          if n == 0 then Ends(r, Done, iset{}, t.memory, notes)
          else exists b: Ran :: RunsStmts(body, Holding(pattern, t.value, t.memory), Deeper(keys, t.value, key), b) &&
                 GoesRound(e, iterated, keys, n - 1, notes, b, r)
    case Loop(body) =>
      n > 0 && exists b: Ran :: RunsStmts(body, m, keys, b) && GoesRound(e, iterated, keys, n - 1, iset{}, b, r)
    case For(key, pattern, _, body) =>
      if n == 0 then Ends(r, Done, iset{}, m, iset{})
      else exists b: Ran :: RunsStmts(body, Holding(pattern, iterated, m), Deeper(keys, iterated, key), b) &&
             GoesRound(e, iterated, keys, n - 1, iset{}, b, r)
  }

  /** After a round: leave with a break, leave the function, or go on. */
  ghost predicate GoesRound(e: Expr, iterated: iset<Fact>, keys: iset<ControlKey>, n: nat, notes: iset<Record>, b: Ran,
                            r: Ran)
    requires e.While? || e.Loop? || e.For?
    decreases e, 3, 2 * n + 1
  {
    match b.end
    case Broke => Ends(r, Done, b.value, b.memory, notes + b.notes)
    case Gone => r == Noting(notes, b)
    case _ => exists s: Ran :: Iterates(e, iterated, b.memory, keys, n, s) && r == Noting(notes + b.notes, s)
  }

  // ----- functions -----

  /** What a call of the function notes: its last value leaves by the tail. */
  ghost predicate FunctionNotes(body: Stmts, tail: Option<ExitKey>, notes: iset<Record>) {
    exists r: Ran :: RunsStmts(body, map[], iset{}, r) &&
      notes == if r.end.Done? && tail.Some? then r.notes + Left(tail.value, r.value) else r.notes
  }
}
