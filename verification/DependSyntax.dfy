/** The syntax and the facts of the dependence analysis (src/frontend_facts/depend.rs).

    Names are already resolved: a binding is a number, and a pattern is the list of
    bindings it introduces. Spans stand for themselves and for the text they cover,
    except where the analysis records the text. */
module DependSyntax {
  import opened Options

  datatype Range = Range(start: nat, end: nat)

  datatype ControlKind = Branch | Loops | Matches | ShortCircuit | Tries

  datatype ControlKey = ControlKey(range: Range, kind: ControlKind)

  datatype LiteralFact = LiteralFact(span: Range, comparedWith: Option<string>,
      condition: Option<string>, viaCall: bool)

  /** Why a dependency is unknown; `Because` carries the text of the other reasons. */
  datatype Why = NoInitializer | BarePattern | MacroMayAssign | OpaqueMacro | Because(text: string)

  /** One element of a dependency value: a value is a set of facts. */
  datatype Fact =
    | Data(id: nat, occurrence: Range)
    | Control(key: ControlKey)
    | Unknown(why: Why)
    | Literal(literal: LiteralFact)

  datatype ExitKind = Tail | Return | Try

  datatype ExitKey = ExitKey(kind: ExitKind, range: Range)

  /** One element of the analyser's tables. */
  datatype Record =
    | ExitSeen(exit: ExitKey)
    | ExitHas(exit: ExitKey, fact: Fact)
    | ControlSeen(control: ControlKey)
    | ControlHas(key: ControlKey, fact: Fact)
    | AssignedAt(id: nat, site: Range)

  /** A binding of a pattern; a bare uppercase name may not be a binding at all. */
  datatype Binding = Binding(id: nat, bare: bool)

  type Pattern = seq<Binding>

  datatype Operator = Arithmetic | Comparison | Lazy

  datatype Expr =
    | Constant(span: Range, known: bool)
    | Path(span: Range, binding: Option<nat>, why: Why)
    | Opaque(why: Why)
    | Group(parts: Exprs)
    | Call(callee: Expr, text: string, args: Exprs)
    | MethodCall(receiver: Expr, text: string, target: Option<nat>, args: Exprs, why: Why)
    | Binary(op: Operator, left: Expr, leftText: string, key: ControlKey,
        right: Expr, rightText: string, condition: string)
    | Assign(site: Range, place: Place, rhs: Expr, compound: bool)
    | If(key: ControlKey, cond: Expr, pattern: Pattern, thenBlock: Stmts, otherwise: Option<Expr>)
    | While(key: ControlKey, cond: Expr, pattern: Pattern, body: Stmts)
    | Loop(body: Stmts)
    | For(key: ControlKey, pattern: Pattern, iter: Expr, body: Stmts)
    | Match(scrutinee: Expr, arms: Arms)
    | Block(stmts: Stmts)
    | Ret(exit: ExitKey, returned: Option<Expr>)
    | TryOp(exit: ExitKey, key: ControlKey, inner: Expr)
    | Break(labeled: bool, carried: Option<Expr>)
    | Continue(labeled: bool)
    | Macro(visible: seq<nat>)

  datatype Exprs = NoExprs | MoreExprs(first: Expr, others: Exprs)

  datatype Stmts = NoStmts | MoreStmts(stmt: Stmt, rest: Stmts)

  datatype Stmt =
    | LetDecl(pattern: Pattern)
    | LetInit(pattern: Pattern, init: Expr)
    | LetElse(pattern: Pattern, init: Expr, key: ControlKey, diverge: Stmts)
    | Run(expr: Expr, semi: bool)

  datatype Arms = NoArms | MoreArms(arm: Arm, later: Arms)

  datatype Arm = Arm(key: ControlKey, pattern: Pattern, literals: set<LiteralFact>, guard: Option<Guard>, body: Expr)

  datatype Guard = Guard(key: ControlKey, cond: Expr)

  datatype Place =
    | Named(span: Range, id: nat)
    | Unnamed(span: Range, why: Why)
    | Field(span: Range, base: Place)
    | Indexed(span: Range, base: Place, index: Expr)
    | Other(span: Range, expr: Expr, why: Why)

  /** The binding an assignment writes, if it can be told. */
  function Target(place: Place): Option<nat> {
    match place
    case Named(_, id) => Some(id)
    case Field(_, base) => Target(base)
    case Indexed(_, base, _) => Target(base)
    case _ => None
  }

  /** Whether the assignment overwrites the whole binding. */
  predicate Direct(place: Place) {
    place.Named? || place.Unnamed?
  }

  /** A literal passed to a call. */
  function Related(text: string, l: LiteralFact): LiteralFact {
    l.(viaCall := true, comparedWith := if l.comparedWith.None? then Some(text) else l.comparedWith)
  }

  /** A literal on one side of a comparison. */
  function ComparedTo(text: string, condition: string, l: LiteralFact): LiteralFact {
    l.(comparedWith := Some(text), condition := Some(condition))
  }
}
