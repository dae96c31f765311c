# Verification of the analysis core

This project models the parts of the repository where the reasoning is hard, and proves
what each of them is for. Every claim is about all inputs, all runs or all reachable states
of the model.

- **The Datalog engine** (`src/datafrog`). Relations are strictly sorted sequences. A
  variable keeps its tuples in three stages. A program is a list of rules (join, join with a
  relation, antijoin, map, leapjoin with several leapers or with one), each applied once
  between two calls of `Iteration::changed`. When the loop stops, the variables hold exactly
  the least set of facts that contains the inserts and is closed under the rules. In a
  finite universe it stops when every cycle of derivations has a de-duplicating variable on
  it, within a bound that counts the facts and the other variables. What rules compute is also
  said without rules: the three documented examples hold for every input (a self-join gives
  the connected pairs, a map what its tuples visit, a turning antijoin the pairs whose key is
  absent), and leapjoins equal joins, antijoins and filters. Below that stand the exactness of
  galloping, merging, deduplication, the merge join and the leapjoin. Tuples are ordered by any
  strict total order that is passed in; logic closures are pure functions.
- **The dependence analyser** (`src/frontend_facts/depend.rs`). A meaning is given to every
  expression over sets of facts, in which a loop is the least fixpoint of its body. The meaning
  is monotone and stays in a finite universe; the analyser, which iterates every loop until its
  head stops changing and keeps break and continue flows on a stack, terminates and computes
  exactly that meaning. The meaning itself is held against runs: executions that take one
  branch of every choice, go round a loop any number of times, and carry with every value what
  it was made from. Whatever a run notes is recorded, and a point is found reachable exactly
  when a run gets there. An exit depends on every control that it stands under by syntax. Laws
  between programs say what a read sees after each kind of assignment and after a branch.
- **The template language** (`frontend_diag_template`). A grammar says which text is which
  tree: placeables, selects, calls, literals, and the dedent rule of multiline patterns with
  placeables in them. It is unambiguous. The parser terminates, accepts exactly the messages
  that the grammar spells and gives back their one tree. Without placeables this comes to the
  line-based dedent; every text without a line feed and every 64-bit number can be written as
  a message that renders as it. So can every variable, every select over names and numbers,
  every comparison and every coded character, with the characters spelled out; other names,
  escapes and numbers are refused. Where a reading ends, and with what error, is determined by
  the parts that can be read. Which variant a select takes is said for texts, numbers, plurals
  and comparisons. The renderer reports missing references only, in the order of the
  template: every reference it meets, while a variant that is not chosen is not looked at. It
  depends on the referenced arguments alone, and supplying an argument is the same as writing
  it into the template.
- **The snapshot vector** (`src/ena`). Whatever a client does between the start of a snapshot
  and its rollback, nested snapshots included, the rollback restores the vector. A whole run is
  the same as its kept steps alone.
- **The arenas** (`frontend_arena`). A log holds every call that was answered, at any depth:
  an iterator may allocate in the arena that consumes it. In every history all slices of the
  log are aligned, inside their chunk and disjoint, and hold exactly their contents; nothing
  else is ever written. Each slice lies as high in the free space as its size and alignment
  allow, so slices are packed. When the retry after `grow` succeeds is stated exactly, for every
  alignment, and so is when the loop around it ends wherever the chunks lie.
- **The diagnostic splitters** (`src/frontend_facts/mod.rs`, `effects.rs`). The splitter that
  slices the text agrees with the one that groups lines, for every mix of line breaks, and
  diagnostics that are written one after the other come back as they were written.

Four promises of the source's comments turn out not to hold, and are stated with their exact
conditions: `Relation::from_antijoin` gives the antijoin only when it is empty
(`RelationFromAntijoin`); an accepted select may have no default, exactly when some line of the
message starts with a `*` that stands alone before a closing brace (`Parse`,
`DefaultsOfPattern`, `SelectWithoutDefault`); the retry in `alloc_raw` may fail when a chunk
base is misaligned (`RetryExact`, `RetryCanFail`), and the loop around it need not end
(`EndsExactly`, `NeverFits`); a chunk of a typed arena that is not the last one keeps spare
capacity exactly when a slice longer than its room started the next one (`Store`,
`RoomLeftBehind`).

How the state is modelled: an object that the source updates in place is a class with those
fields; the contents of its vectors are sequences. A panic is a result value (`None`, `Stopped`)
or a precondition that the source asserts. `Sort` stands for the library's `sort`.

## Model

| member | source | states |
|---|---|---|
| Orders.SortedListingIsUnique | src/datafrog/mod.rs:44-53 | a relation is determined by its set of tuples: two strictly sorted listings of one set are equal |
| Orders.LexIsStrictTotal | src/datafrog/mod.rs:44-53 | pairs ordered by key, then value, are totally ordered, so relations of pairs are sorted by key |
| Orders.FilterElems | src/datafrog/mod.rs:541-553 | retaining keeps exactly the elements that satisfy the predicate |
| Orders.FilterSorted | src/datafrog/mod.rs:541-553 | retaining keeps a batch strictly sorted |
| Orders.SortedIsKeyAscending | src/datafrog/mod.rs:44-53 | a relation of pairs is sorted by key, which galloping relies on |
| Search.Gallop | src/datafrog/join.rs:121-142 | for a predicate true on a prefix, exactly the suffix from the first failure, within 2*floor(log2 d)+2 calls for d skipped elements; always a suffix, never out of range |
| Search.BinarySearch | src/datafrog/treefrog.rs:664-679 | the index of the first element that fails the predicate |
| Search.FirstFailureAt | src/datafrog/join.rs:121-142 | an element that passes before one that fails marks the end of the prefix |
| Search.Log2 | src/datafrog/join.rs:121-142 | the logarithm of the bound lies between two powers of two |
| Relations.Merge | src/datafrog/mod.rs:57-116 | merging two relations gives the strictly sorted union, shared tuples once |
| Relations.MergeStarts | src/datafrog/mod.rs:78-100 | the first tuple of the merged relation, dropped from the other side when shared |
| Relations.MergeTakesFirst | src/datafrog/mod.rs:102-110 | a step that takes from the first side keeps the merged prefix, and skips the duplicate |
| Relations.MergeTakesSecond | src/datafrog/mod.rs:102-105 | a step that takes from the second side keeps the merged prefix |
| Relations.MergeEnds | src/datafrog/mod.rs:112-115 | appending what is left of one side completes the union |
| Relations.Sort | src/datafrog/mod.rs:171-175 | an ascending permutation |
| Relations.Dedup | src/datafrog/mod.rs:171-175 | each element of an ascending vector once |
| Relations.FromVec | src/datafrog/mod.rs:171-175 | the relation of a vector: strictly sorted, the same elements, empty only for nothing |
| Relations.MoveCursor | src/datafrog/mod.rs:541-553 | a gallop or a step-by-step loop brings the cursor to the first batch element not below the candidate |
| Relations.CursorAdvances | src/datafrog/mod.rs:541-553 | a gallop from the cursor is a gallop from the start, because everything before it is smaller |
| Relations.CursorDecides | src/datafrog/mod.rs:541-553 | membership in the batch is decided at the cursor |
| Relations.RetainAbsent | src/datafrog/mod.rs:541-553 | both retain loops equal plain set difference and keep the order |
| Joins.JoinHelper | src/datafrog/join.rs:85-119 | on key-sorted slices the results are those of the nested loop: each matching pair exactly once, in order |
| Joins.NestedLoopRows | src/datafrog/join.rs:85-119 | the nested loop holds a row exactly when both slices hold its halves |
| Joins.GroupStep | src/datafrog/join.rs:98-113 | two runs of one key contribute their cross product and the rest is joined on its own |
| Joins.SkipSmaller | src/datafrog/join.rs:95-116 | the side with the smaller key is galloped forward past smaller keys only |
| Joins.LeadingGroup | src/datafrog/join.rs:99-101 | the run of equal keys at the front, everything behind it larger |
| Joins.CrossProduct | src/datafrog/join.rs:103-108 | all pairs of two runs of one key |
| Joins.JoinSlices | src/datafrog/join.rs:85-119 | the set of results is the join of the two sets |
| Joins.JoinBatchesRight | src/datafrog/join.rs:31-33 | joining with every stable batch is joining with their union |
| Joins.JoinBatchesLeft | src/datafrog/join.rs:35-37 | the same with the batches on the left |
| Joins.JoinInto | src/datafrog/join.rs:15-43 | the sorted results of recent with everything and stable with recent |
| Joins.Antijoin | src/datafrog/join.rs:61-83 | the sorted results of the recent tuples whose key is absent |
| Joins.AntijoinRows | src/datafrog/join.rs:66-80 | the moving cursor keeps exactly the tuples with an absent key |
| Joins.RelationFromAntijoin | src/datafrog/mod.rs:155-161 | the result is always empty; it is the documented antijoin exactly when every key is present |
| Joins.RelationAntijoinLosesTuples | src/datafrog/mod.rs:149-161 | one tuple and no keys: the documented result is not what the recent slice gives |
| Leapjoin.FindRange | src/datafrog/treefrog.rs:373-380 | a bisection and a gallop find exactly the run of the key |
| Leapjoin.RangeColumn | src/datafrog/treefrog.rs:381-391 | the values of the run are sorted and are exactly the values paired with the key |
| Leapjoin.Seek | src/datafrog/treefrog.rs:385-391 | galloping to the first value not below the candidate |
| Leapjoin.Retain | src/datafrog/treefrog.rs:468-480 | intersecting or subtracting two sorted columns is membership filtering |
| Leapjoin.Leaper.Count | src/datafrog/treefrog.rs:373-380 | the stored range is current for the tuple, and the count is its length, zero or unbounded by the kind of leaper |
| Leapjoin.Leaper.Propose | src/datafrog/treefrog.rs:381-384 | the proposed values are sorted and exactly the allowed ones |
| Leapjoin.Leaper.Intersect | src/datafrog/treefrog.rs:385-391 | exactly the values the leaper allows stay, in order |
| Leapjoin.ForEachCount | src/datafrog/treefrog.rs:62-78 | the smallest count; it is unbounded exactly when no leaper proposes, zero means no value is allowed, else its index proposes |
| Leapjoin.NothingProposed | src/datafrog/treefrog.rs:31-32 | a leaper with count zero allows nothing |
| Leapjoin.ValuesFor | src/datafrog/treefrog.rs:17-43 | for one tuple: exactly the values all leapers allow; `None` exactly when the count is unbounded |
| Leapjoin.Leapjoin | src/datafrog/treefrog.rs:9-48 | for several leapers, or one that extends: exactly the sorted results of the naive meaning; it panics exactly when some source tuple is bounded by no leaper |
| Leapjoin.FilterJoin | src/datafrog/treefrog.rs:175-197 | a single filter or anti-filter proposes the unit value and never panics: exactly the sorted results of the tuples it allows |
| Variables.TowerGrows | src/datafrog/mod.rs:514-528 | k batches, each more than twice the next, force 2^k - 1 tuples in the first |
| Variables.TowerHeight | src/datafrog/mod.rs:514-528 | the number of stable batches is at most log2 of the number of tuples plus one |
| Variables.FoldRecent | src/datafrog/mod.rs:514-528 | folding recent into the batches keeps the tower, the contents and disjointness |
| Variables.MergeAll | src/datafrog/mod.rs:531-536 | all pending batches as one sorted union |
| Variables.Deduplicate | src/datafrog/mod.rs:537-556 | what is new: the pending tuples minus every stable batch |
| Variables.AdvancesConserves | src/datafrog/mod.rs:512-567 | a step loses and invents no tuple; for distinct variables a recent tuple was never visible before, so visible contents grow strictly |
| Variables.Variable.constructor | src/datafrog/mod.rs:461-470 | an empty, well-formed variable |
| Variables.Variable.Insert | src/datafrog/mod.rs:476-480 | adds exactly the tuples to the pending stage |
| Variables.Variable.Changed | src/datafrog/mod.rs:512-567 | one step of the stages: well-formed, contents conserved, pending emptied; true exactly when something is recent |
| Variables.Variable.Complete | src/datafrog/mod.rs:500-508 | the assertions fail exactly when work is left; otherwise all tuples, strictly sorted |
| Iteration.DerivesMonotone | src/datafrog/mod.rs:330-445 | every rule derives at least as much from more facts |
| Iteration.AdvanceFacts | src/datafrog/mod.rs:227-235 | a round moves visible facts to stable and pending facts to visible |
| Iteration.AdvanceSaturates | src/datafrog/mod.rs:227-235 | after a round every rule instance over stable facts is accounted for again |
| Iteration.AdvanceSound | src/datafrog/mod.rs:227-235 | a round adds no underivable fact |
| Iteration.StepSaturates | src/datafrog/mod.rs:323-327 | applying the next rule extends the round invariant by that rule |
| Iteration.StepSound | src/datafrog/mod.rs:323-327 | applying a rule adds only facts of the least fixpoint |
| Iteration.FixpointIsLeast | src/datafrog/mod.rs:227-235 | with nothing recent and nothing pending, the facts are exactly the least fixpoint |
| Iteration.JoinStep | src/datafrog/mod.rs:330-337 | a semi-naive join derives exactly what involves a recent tuple, and nothing without one |
| Iteration.JoinRelationStep | src/datafrog/mod.rs:330-337 | the same against a fixed relation |
| Iteration.AntijoinStepFacts | src/datafrog/mod.rs:368-375 | an antijoin of the recent tuples is a complete step of its rule |
| Iteration.MapStep | src/datafrog/mod.rs:406-408 | mapping the recent tuples is a complete step of its rule |
| Iteration.LeapStep | src/datafrog/mod.rs:438-445 | a leapjoin of the recent tuples is a complete step of its rule |
| Iteration.LeapFilterStep | src/datafrog/mod.rs:438-445 | so is a leapjoin with a single filter |
| Iteration.MapInto | src/datafrog/map.rs:8-16 | the sorted images of the recent tuples |
| Iteration.Evaluate | src/datafrog/mod.rs:330-445 | each kind of rule computes a complete step |
| Iteration.Apply | src/datafrog/mod.rs:330-445 | and inserts it into the output variable only |
| Iteration.Changed | src/datafrog/mod.rs:227-235 | every variable advances; true exactly when some variable has recent tuples |
| Iteration.RoundGrows | src/datafrog/mod.rs:512-567 | a round in which a distinct variable shows tuples makes strictly more facts known |
| Iteration.TrailIsShort | src/datafrog/mod.rs:273-276 | when every cycle of derivations has a distinct variable on it, a path of indistinct variables visits each at most once |
| Iteration.AdvanceTrails | src/datafrog/mod.rs:512-567 | when only indistinct variables show tuples, these were pending, each at the end of such a path |
| Iteration.FedTrails | src/datafrog/mod.rs:323-327 | what the rules then add is one step further on the path |
| Iteration.RoundInTime | src/datafrog/mod.rs:227-235 | so between two rounds that show a distinct variable there are at most as many rounds as indistinct variables |
| Iteration.DistinctSuffices | src/datafrog/mod.rs:273-276 | when all variables are distinct every cycle has one, and the bound is one round more than facts |
| Iteration.KnownWithinUniverse | src/datafrog/mod.rs:227-235 | the known facts never leave a universe that is closed under the rules |
| Iteration.ApplyAll | src/datafrog/mod.rs:323-325 | one body of the loop: the round invariant holds for all rules afterwards |
| Iteration.Run | src/datafrog/mod.rs:227-235 | when `changed` returns false the variables hold exactly the least fixpoint; when every cycle of derivations has a distinct variable on it, that happens within (facts + 1) * (indistinct variables + 1) rounds for every finite universe |
| Iteration.Solve | src/datafrog/mod.rs:500-508 | then `complete` succeeds for every variable and returns the least fixpoint strictly sorted |
| RuleLaws.MapVisits | src/datafrog/mod.rs:380-408 | a map from a variable to itself computes exactly what its tuples visit when the map is applied over and over |
| RuleLaws.AntijoinTurns | src/datafrog/mod.rs:341-375 | an antijoin that turns pairs round adds exactly the turned pairs whose key is absent, for every set of pairs and keys |
| RuleLaws.JoinConnects | src/datafrog/mod.rs:291-337 | joining a symmetric variable with itself computes exactly the pairs that a walk connects |
| RuleLaws.RunRule | src/datafrog/mod.rs:291-337 | a run of one rule returns what the rule computes, and ends when the rounds exceed a finite universe |
| RuleLaws.ConnectedPairs | src/datafrog/mod.rs:291-337 | a whole run of the engine on any edges: it ends, with the sorted pairs that a walk along the edges connects |
| RuleLaws.ChainPairs | src/datafrog/mod.rs:309-329 | the documented example for a chain of any length: every pair of its nodes |
| RuleLaws.SameProgram | src/datafrog/mod.rs:323-327 | rules that derive the same from the same facts may replace each other in a program |
| RuleLaws.ExtendIsJoin | src/datafrog/mod.rs:410-445 | a leapjoin with one relation on the key derives what the join with it does |
| RuleLaws.FilterIsAntijoin | src/datafrog/mod.rs:410-445 | an anti-filter on the key derives what the antijoin does |
| RuleLaws.FiltersDivide | src/datafrog/mod.rs:410-445 | a filter takes the tuples whose key is a member, an anti-filter the others, a prefix filter those it accepts |
| RuleLaws.ExtendsBut | src/datafrog/mod.rs:410-445 | a relation that is subtracted takes away exactly its own values |
| RuleLaws.ExtendsWhere | src/datafrog/mod.rs:410-445 | a value filter takes away exactly the values it refuses |
| DependMonotone.JoinMono | src/frontend_facts/depend.rs:353-368 | merging states is monotone, unreachable states being least |
| DependMonotone.StoreMono | src/frontend_facts/depend.rs:1430-1445 | strong and weak updates are monotone |
| DependMonotone.BindMono | src/frontend_facts/depend.rs:1475-1563 | binding a pattern is monotone |
| DependMonotone.EvalMono | src/frontend_facts/depend.rs:717-724 | the meaning of every expression is monotone in the state and the active controls, nested loops included |
| DependMonotone.PassMono | src/frontend_facts/depend.rs:1153-1305 | one pass of a loop is monotone in its head |
| DependMonotone.HeadMono | src/frontend_facts/depend.rs:1153-1305 | the least head is monotone in the entry state |
| DependMonotone.HeadIsFixpoint | src/frontend_facts/depend.rs:1153-1305 | the head of a loop equals its entry joined with what its body sends back |
| DependMonotone.HeadIsLeast | src/frontend_facts/depend.rs:1153-1305 | and lies below every state the pass does not leave |
| DependBounded.EvalIn | src/frontend_facts/depend.rs:717-724 | evaluation only makes facts from the bindings, spans, texts and keys of the program |
| DependBounded.HeadIn | src/frontend_facts/depend.rs:1153-1305 | so does every loop head |
| DependBounded.SlotSetHasAll | src/frontend_facts/depend.rs:1153-1305 | and these are finitely many, which bounds the iteration |
| DependUnder.ExitsUnderControls | src/frontend_facts/depend.rs:1110-1356 | an exit that stands under a key wherever it stands (either branch of an `if`, a loop body, a match arm or behind its guard, a lazy right side, a let-else block) has that control whenever it is recorded |
| DependUnder.BranchMarked | src/frontend_facts/depend.rs:1110-1356 | the same of one `if`, loop or match, under any active controls |
| DependSound.GotCovered | src/frontend_facts/depend.rs:1463-1473 | what a run reads from a binding is among the facts that the analysis reads from it |
| DependSound.ExprCovered | src/frontend_facts/depend.rs:717-724 | for every run of an expression: its value, the memory it leaves, what it sends to a loop and what it notes are within those of the analysis |
| DependSound.IfRun | src/frontend_facts/depend.rs:1110-1151 | the same of a run through either branch of an `if` |
| DependSound.AssignRun | src/frontend_facts/depend.rs:1358-1380 | the same of a run of an assignment |
| DependSound.ArmCovered | src/frontend_facts/depend.rs:1307-1356 | the same of a run through one arm of a match |
| DependSound.IteratesCovered | src/frontend_facts/depend.rs:1153-1305 | the same of a loop that goes round any number of times: every head it passes is within the least fixpoint |
| DependSound.NotesAreRecorded | src/frontend_facts/depend.rs:492-517 | whatever any call of the function notes of its exits, decisions and assignments, the meaning of its body records |
| DependReach.ExprReached | src/frontend_facts/depend.rs:717-724 | where the meaning finds an expression can complete, break or continue, from any memory a run does |
| DependReach.EndIsReached | src/frontend_facts/depend.rs:492-517 | the end of a body counts as reached exactly when some call of the function gets there |
| DependLaws.AtTheStart | src/frontend_facts/depend.rs:492-517 | a law for a body anywhere holds for the body of a function |
| DependLaws.PlainAssignment | src/frontend_facts/depend.rs:1358-1380 | behind `x = e`, wherever it stands, a read of `x` sees exactly what a return of `e` sees, and itself |
| DependLaws.CompoundAssignment | src/frontend_facts/depend.rs:1358-1380 | behind `x op= e` it sees exactly that and all that `x` held |
| DependLaws.FieldAssignment | src/frontend_facts/depend.rs:1382-1428 | behind `x.f = e` it sees exactly what `e`, the address and `x` before had |
| DependLaws.IndexAssignment | src/frontend_facts/depend.rs:1382-1428 | behind `x[i] = e` it sees exactly what `i`, `e`, the address and `x` before had, `i` being evaluated first |
| DependLaws.Declaration | src/frontend_facts/depend.rs:690-715 | behind `let x = e` it sees exactly what a return of `e` sees; a bare uppercase name is marked |
| DependLaws.BranchesJoin | src/frontend_facts/depend.rs:1110-1151 | a return behind an `if` sees exactly what returns at the end of both branches see, without the controls of the branch |
| DependAnalyzer.Merge | src/frontend_facts/depend.rs:353-368 | merging computes the join of states |
| DependAnalyzer.MergeOption | src/frontend_facts/depend.rs:440-455 | merging into a break or continue flow computes the join |
| DependAnalyzer.ReadBinding | src/frontend_facts/depend.rs:1463-1473 | reading a binding re-locates its data facts at the occurrence and keeps the others |
| DependAnalyzer.StoreBinding | src/frontend_facts/depend.rs:1430-1445 | a strong update replaces the facts of one binding |
| DependAnalyzer.LastPassCounts | src/frontend_facts/depend.rs:1168-1215 | records and flows of earlier passes are covered by the last pass, so repeating passes leaves no trace |
| DependAnalyzer.RisingContinues | src/frontend_facts/depend.rs:1197-1209 | heads ascend below the least fixpoint, and a head that does not change is it |
| DependAnalyzer.RisingHasRoom | src/frontend_facts/depend.rs:1197-1209 | each changed head is strictly larger within the finite universe |
| DependAnalyzer.ContributionMono | src/frontend_facts/depend.rs:1153-1305 | a larger head contributes at least as many records and flows |
| DependAnalyzer.Analyzer.BindPattern | src/frontend_facts/depend.rs:1475-1563 | binding a pattern stores the value for each binding, bare ones marked |
| DependAnalyzer.Analyzer.AnalyzeExpr | src/frontend_facts/depend.rs:717-724 | exactly the meaning: value, state, flows and records; unreachable code has none |
| DependAnalyzer.Analyzer.AnalyzeKind | src/frontend_facts/depend.rs:726-1005 | the same by kind of expression |
| DependAnalyzer.Analyzer.AnalyzeCall | src/frontend_facts/depend.rs:745-765 | literals that pass through a call are marked with the callee |
| DependAnalyzer.Analyzer.AnalyzeMethodCall | src/frontend_facts/depend.rs:766-803 | argument literals reach the value and the receiver binding |
| DependAnalyzer.Analyzer.AnalyzeBinary | src/frontend_facts/depend.rs:804-850 | the lazy right side runs under the left side's control and its state is joined; comparisons relate literals |
| DependAnalyzer.Analyzer.AnalyzeAssignment | src/frontend_facts/depend.rs:1358-1380 | a direct assignment is a strong update, a compound or partial one keeps the old facts |
| DependAnalyzer.Analyzer.AnalyzePlace | src/frontend_facts/depend.rs:1382-1428 | evaluating an assigned place and the binding it reaches |
| DependAnalyzer.Analyzer.AnalyzeIf | src/frontend_facts/depend.rs:1110-1151 | both branches run under the condition's controls and are joined, exactly as in the meaning that `ExitsUnderControls`, `IfRun` and `BranchesJoin` pin down |
| DependAnalyzer.Analyzer.AnalyzeMatch | src/frontend_facts/depend.rs:1307-1356 | every arm runs from the scrutinee's state and the ends are joined |
| DependAnalyzer.Analyzer.AnalyzeTry | src/frontend_facts/depend.rs:913-931 | the try records a control and an exit, and its value carries the control |
| DependAnalyzer.Analyzer.AnalyzeBreak | src/frontend_facts/depend.rs:947-964 | an unlabelled break joins its state and value into the innermost loop; code after it is dead |
| DependAnalyzer.Analyzer.AnalyzeBlock | src/frontend_facts/depend.rs:663-688 | the statements in order, the tail expression giving the value |
| DependAnalyzer.Analyzer.AnalyzeStmt | src/frontend_facts/depend.rs:690-715 | declarations, initialisers and let-else |
| DependAnalyzer.Analyzer.AnalyzeBody | src/frontend_facts/depend.rs:1153-1305 | one body on a fresh loop frame: the flows come back apart and the stack is restored |
| DependAnalyzer.Analyzer.AnalyzeWhile | src/frontend_facts/depend.rs:1153-1216 | terminates; the head is the least fixpoint, and value, state and records are those of its last pass |
| DependAnalyzer.Analyzer.AnalyzeLoop | src/frontend_facts/depend.rs:1218-1250 | terminates with the least head; the state after it is the join of its breaks |
| DependAnalyzer.Analyzer.AnalyzeFor | src/frontend_facts/depend.rs:1252-1305 | terminates with the least head of binding the iterated value and running the body |
| DependAnalyzer.Analyzer.IterateFor | src/frontend_facts/depend.rs:1259-1305 | the iteration alone, from the state after the iterated expression |
| DependAnalyzer.AnalyzeFunction | src/frontend_facts/depend.rs:492-517 | a function's exits, controls and assignment sites are exactly those of its meaning; so every exit that is recorded has each control it stands under, whatever a run notes is recorded, and the end of the body is recorded as an exit only if a run gets there |
| Template.UnresolvedAreReferences | frontend_diag_template/src/lib.rs:814-912 | the unresolved list is a subsequence of the references and names only missing arguments |
| Template.SuppliedResolves | frontend_diag_template/src/lib.rs:798-805 | nothing is unresolved when every reference is supplied |
| Template.RenderDependsOnReferences | frontend_diag_template/src/lib.rs:814-912 | arguments that agree on the references render identically |
| Template.DefaultsAnswer | frontend_diag_template/src/lib.rs:829-851 | a select renders nothing exactly when it has no default and no key matches |
| Template.FirstMatch | frontend_diag_template/src/lib.rs:834-841 | the first variant whose key matches |
| Template.FirstDefault | frontend_diag_template/src/lib.rs:842-847 | the first variant marked default |
| TemplateSelects.FirstAnswer | frontend_diag_template/src/lib.rs:829-851 | a select renders as the first variant whose key its argument answers to: a text its own name, a number itself and `one` or `other` |
| TemplateSelects.NoAnswer | frontend_diag_template/src/lib.rs:842-848 | when the argument answers to no key, as the first default |
| TemplateSelects.NothingAnswers | frontend_diag_template/src/lib.rs:842-848 | and as nothing when there is none |
| TemplateSelects.MissingSelector | frontend_diag_template/src/lib.rs:878-887 | on a missing variable the variable is reported and the first default is rendered |
| TemplateSelects.Plural | frontend_diag_template/src/lib.rs:914-933 | `[one]` is taken for 1 and -1 only, `[other]` for every other number, in either order |
| TemplateSelects.NumberedVariant | frontend_diag_template/src/lib.rs:829-851 | a number key is taken for that number; behind a default with a key the number also answers to, it is not |
| TemplateSelects.NamedVariant | frontend_diag_template/src/lib.rs:829-851 | a name key is taken for exactly that text |
| TemplateSelects.NoOtherCategory | frontend_diag_template/src/lib.rs:914-933 | no other plural category ever answers to a number |
| TemplateSelects.TextIsNoNumber | frontend_diag_template/src/lib.rs:829-851 | no number key answers to a text |
| TemplateSelects.LiteralSelector | frontend_diag_template/src/lib.rs:889-894 | a number literal selects like an argument exactly within 32 bits |
| TemplateSelects.EqualTexts | frontend_diag_template/src/lib.rs:895-904 | `STREQ` gives `true` or `false` on two texts, and its error text when an argument is a number |
| TemplateSelects.SelectEqual | frontend_diag_template/src/lib.rs:895-904 | a select on it takes `[true]` exactly for two equal texts |
| TemplateSelects.VariableRenders | frontend_diag_template/src/lib.rs:853-876 | a variable renders as its argument; a missing one is written back and reported |
| TemplateRender.VariableReferences | frontend_diag_template/src/lib.rs:149-186 | the walk collects the references in source order, duplicates kept |
| TemplateRender.WalkExpression | frontend_diag_template/src/lib.rs:163-173 | it appends a selector's references before those of the variants |
| TemplateRender.WalkInline | frontend_diag_template/src/lib.rs:175-185 | and those of both sides of a comparison in order |
| TemplateRender.RenderMessage | frontend_diag_template/src/lib.rs:814-818 | rendering into a fresh accumulator gives the meaning of the pattern, which `FirstAnswer` to `VariableRenders` say in terms of the arguments |
| TemplateRender.WritePattern | frontend_diag_template/src/lib.rs:820-827 | a pattern appends its own rendering to whatever was written before |
| TemplateRender.WriteExpression | frontend_diag_template/src/lib.rs:829-851 | so does an expression, the selector's missing variables first |
| TemplateRender.WriteChosen | frontend_diag_template/src/lib.rs:834-848 | the two loops write the first match, else the first default, else nothing; which keys match is said by `FirstAnswer` |
| TemplateRender.WriteInline | frontend_diag_template/src/lib.rs:853-876 | so does an inline expression; a missing variable is written back and reported |
| TemplateRender.ResolveInto | frontend_diag_template/src/lib.rs:878-912 | resolving writes no text and reports missing variables in order |
| TemplateRender.FillRenders | frontend_diag_template/src/lib.rs:814-912 | supplying an argument renders as the template with the argument written in its place |
| TemplateRender.FillChooses | frontend_diag_template/src/lib.rs:829-851 | the chosen variant depends on keys and defaults alone |
| TemplateRender.FillResolves | frontend_diag_template/src/lib.rs:878-912 | a supplied argument and its literal are the same selector |
| TemplateLines.CommonIsLeast | frontend_diag_template/src/lib.rs:423-428 | the common indentation is the least one of the non-blank later lines |
| TemplateLines.TrimBlankLines | frontend_diag_template/src/lib.rs:455-478 | blank lines at the end are trimmed away with the end of the last line |
| TemplateLexis.DecimalRoundTrip | frontend_diag_template/src/lib.rs:345-361 | what the renderer prints for a number reads back as that number |
| TemplateLexis.EscapeRoundTrip | frontend_diag_template/src/lib.rs:735-776 | every text can be escaped, and unescaping gives it back |
| TemplateLexis.Unescape | frontend_diag_template/src/lib.rs:735-776 | copying the runs between the escapes computes the meaning of the escaped text |
| TemplateLexis.QuotedTextCloses | frontend_diag_template/src/lib.rs:610-638 | the scan of a quoted text stops at its own closing quote |
| TemplateGrammar.CommonIndentIsLeast | frontend_diag_template/src/lib.rs:423-448 | the common indentation is the least limit any part sets: a line of text its own, a placeable in column zero none |
| TemplateGrammar.ColumnZero | frontend_diag_template/src/lib.rs:391-399 | with a placeable in column zero no run loses a space |
| TemplateUnique.UniquePattern | frontend_diag_template/src/lib.rs:378-481 | the grammar is unambiguous: from one position it spells at most one pattern, with one end |
| TemplateUnique.UniqueParts | frontend_diag_template/src/lib.rs:391-448 | the runs and placeables that tile a pattern are determined by the source |
| TemplateUnique.UniqueExpression | frontend_diag_template/src/lib.rs:543-560 | the same of expressions, selects included |
| TemplateUnique.UniqueList | frontend_diag_template/src/lib.rs:562-594 | the same of lists of variants |
| TemplateUnique.UniqueInline | frontend_diag_template/src/lib.rs:608-685 | the same of inline expressions |
| TemplateCollect.GatheredHole | frontend_diag_template/src/lib.rs:393-400 | collecting a placeable collects a part of the grammar; in column zero it takes the common indentation to zero |
| TemplateCollect.GatheredText | frontend_diag_template/src/lib.rs:401-448 | collecting a text collects a run of the grammar: whether it is kept, blank, and limits the indentation |
| TemplateCollect.GatheredPattern | frontend_diag_template/src/lib.rs:450-481 | dedenting, trimming and dropping the tail of what was collected gives the pattern of the grammar |
| TemplateCollect.GoesOn | frontend_diag_template/src/lib.rs:391-448 | every tiling of the source goes on from what was read |
| TemplateCollect.NoPatternHere | frontend_diag_template/src/lib.rs:391-421 | where neither a run nor a placeable is next and the pattern does not end, there is no pattern |
| TemplateCollect.NoPatternBlank | frontend_diag_template/src/lib.rs:450-481 | blank text alone is no pattern |
| TemplateCollect.ReadingsAgree | frontend_diag_template/src/lib.rs:391-448 | the parts of a reading that ends (over, at a stray brace, or at what is no part) are determined by the source |
| TemplateCollect.NothingFollows | frontend_diag_template/src/lib.rs:391-448 | a reading that is over, or stopped at a stray brace, is the last of its parts |
| TemplateAbsent.NoSelect | frontend_diag_template/src/lib.rs:543-560 | an arrow without a line break or without a list of variants spoils the expression |
| TemplateAbsent.Unclosed | frontend_diag_template/src/lib.rs:535-541 | so does a missing closing brace, behind line breaks for an inline expression and behind spaces for a select |
| TemplateAbsent.ListGoesOn | frontend_diag_template/src/lib.rs:562-594 | every list of variants goes on from those that were read |
| TemplateAbsent.SecondStar | frontend_diag_template/src/lib.rs:567-575 | a second `*` spoils a list of variants |
| TemplateAbsent.MissingDefault | frontend_diag_template/src/lib.rs:588-593 | so does the lack of any |
| TemplateAbsent.NoCallWith | frontend_diag_template/src/lib.rs:689-715 | so does a call without exactly two arguments and a parenthesis |
| TemplateDefaults.DefaultsOfPattern | frontend_diag_template/src/lib.rs:562-594 | in every pattern each select has at most one default, and each has one exactly when no line inside starts with a lone `*` before a closing brace |
| TemplateDefaults.ClosesList | frontend_diag_template/src/lib.rs:562-594 | a brace that closes a list of variants stands behind a lone `*` that starts its line exactly when the list ended with it |
| TemplatePlain.TilesAreLines | frontend_diag_template/src/lib.rs:391-421 | without braces and carriage returns the parts of a pattern are its lines |
| TemplatePlain.LinesTile | frontend_diag_template/src/lib.rs:391-421 | and its lines are parts as long as they continue the text |
| TemplatePlain.LinesLaid | frontend_diag_template/src/lib.rs:450-481 | laid out they are the line-based dedent, trimmed at the end |
| TemplatePlain.PlainPattern | frontend_diag_template/src/lib.rs:378-481 | such a message that is a pattern has only lines that continue it, and renders as its dedent under any arguments |
| TemplatePlain.AcceptedPattern | frontend_diag_template/src/lib.rs:378-481 | and every such message whose lines continue it, one of them not blank, is a pattern |
| TemplateParser.Parser.SkipEol | frontend_diag_template/src/lib.rs:267-280 | behind a line feed, alone or after a carriage return, or nowhere |
| TemplateParser.Parser.SkipBlankBlock | frontend_diag_template/src/lib.rs:290-299 | behind exactly the blank lines |
| TemplateParser.Parser.SkipBlank | frontend_diag_template/src/lib.rs:301-309 | behind exactly the spaces and line breaks |
| TemplateParser.Parser.GetIdentifier | frontend_diag_template/src/lib.rs:330-336 | a whole identifier, exactly when a letter is next; which characters those are is spelled out by `ParseVariable` |
| TemplateParser.Parser.GetNumberLiteral | frontend_diag_template/src/lib.rs:345-361 | a whole number of the grammar or there is none; no digit and a fraction are told apart from a number beyond 64 bits |
| TemplateParser.Parser.GetTextSlice | frontend_diag_template/src/lib.rs:486-528 | a run up to a break or a brace; exactly a closing brace before both is the error, reported at the brace as unbalanced |
| TemplateParser.Parser.OpenPattern | frontend_diag_template/src/lib.rs:383-390 | where the grammar starts a pattern, and whether that starts a line |
| TemplateParser.Parser.GetPiece | frontend_diag_template/src/lib.rs:401-421 | the run of the grammar; it stops exactly at a line that does not continue the pattern, and fails only where there is no run |
| TemplateParser.Parser.GetPattern | frontend_diag_template/src/lib.rs:378-481 | terminates; the pattern of the grammar, or no pattern is spelled from here, and then the error is the stray brace or lies in the placeable where the reading stopped |
| TemplateParser.Parser.GetPlaceable | frontend_diag_template/src/lib.rs:535-541 | the placeable of the grammar, or there is none |
| TemplateParser.Parser.GetExpression | frontend_diag_template/src/lib.rs:543-560 | the inline expression or the select of the grammar, or there is none |
| TemplateParser.Parser.GetVariants | frontend_diag_template/src/lib.rs:562-594 | the list of variants of the grammar, or there is none; no variant is the default exactly when it ends in a lone `*` |
| TemplateParser.Parser.GetVariantKey | frontend_diag_template/src/lib.rs:596-606 | the name or number key of the grammar, or there is none |
| TemplateParser.Parser.GetInlineExpression | frontend_diag_template/src/lib.rs:608-685 | the inline expression of the grammar, or there is none |
| TemplateParser.Parser.GetStringLiteral | frontend_diag_template/src/lib.rs:610-638 | accepted exactly when it closes with whole escapes |
| TemplateParser.Parser.GetCall | frontend_diag_template/src/lib.rs:689-715 | `STREQ` with its two arguments in order, or no call is spelled |
| TemplateParser.Parse | frontend_diag_template/src/lib.rs:124-145 | the result is a tree exactly when the grammar spells it for the whole message; a pattern that ends early is the error at its end; which error is reported is determined by the parts that can be read: a stray brace at its place, an early end at its place, an empty message, or an error behind the opening brace of the placeable that fails; each select has at most one default, and all have one exactly when no line starts with a lone `*` before a closing brace; a plain message is accepted exactly when its lines continue it and renders as its dedent |
| TemplateParser.OneReading | frontend_diag_template/src/lib.rs:378-481 | a message is read in one way only, so the report does not depend on the parts it is stated with |
| TemplateMessages.ParseQuoted | frontend_diag_template/src/lib.rs:106-145 | for every text without a line feed, its string literal in braces parses to that literal and renders as the text under any arguments |
| TemplateMessages.ParseNumber | frontend_diag_template/src/lib.rs:345-361 | every 64-bit number, printed and in braces, parses to that number and renders as it was printed |
| TemplateMessages.DecimalSpelt | frontend_diag_template/src/lib.rs:345-361 | what the renderer prints for a number is a number of the grammar wherever no digit or point follows |
| TemplateMessages.DecimalRefused | frontend_diag_template/src/lib.rs:345-361 | before a point, or beyond 64 bits, it is none |
| TemplateWriting.ParseVariable | frontend_diag_template/src/lib.rs:317-336 | `{$t}` is accepted exactly when `t` is a letter and then letters, digits, `-` and `_`, for every `t` without blanks and braces; it renders as its argument, or as written |
| TemplateWriting.ParseSelect | frontend_diag_template/src/lib.rs:543-606 | a select with any list of name and number keys and one default parses to exactly those variants |
| TemplateWriting.ParseTwoWay | frontend_diag_template/src/lib.rs:562-606 | `[k] a` and `*[d] b` parse, and render as `a` exactly for the arguments that answer to `k` |
| TemplateWriting.ParsePlural | frontend_diag_template/src/lib.rs:914-933 | `[one] a` and `*[other] b` parse, and render as `a` exactly for 1 and -1 |
| TemplateWriting.ParseEquals | frontend_diag_template/src/lib.rs:687-715 | `{STREQ($a, $b)}` parses, and renders as whether the two texts are equal |
| TemplateWriting.ParseOtherName | frontend_diag_template/src/lib.rs:657-675 | any other name in braces is refused, whatever follows it |
| TemplateWriting.ParseOtherNumber | frontend_diag_template/src/lib.rs:345-361 | a number with a point, or beyond 64 bits, is refused, whatever follows it |
| TemplateWriting.ParseEscape | frontend_diag_template/src/lib.rs:735-776 | four and six hexadecimal digits, in either case, are the character with that number, or the replacement character |
| TemplateWriting.ParseOtherEscape | frontend_diag_template/src/lib.rs:610-638 | a backslash before any other character is refused |
| TemplateWriting.ParseStray | frontend_diag_template/src/lib.rs:486-528 | a closing brace in a line of text is reported as unbalanced, at its own position |
| TemplateMessages.OneInline | frontend_diag_template/src/lib.rs:535-541 | an inline expression between braces is a pattern of one placeable |
| TemplateMessages.SelectWithoutDefault | frontend_diag_template/src/lib.rs:567-593 | the message `{0 ->`, a line break and `*}` is spelled by, and parses to, a select without a variant, which renders as nothing under any arguments |
| SnapshotVec.UndoPush | src/ena/snapshot_vec.rs:50-67 | a change and its undo entry cancel out |
| SnapshotVec.UndoInTwo | src/ena/undo_log.rs:182-198 | undoing to an inner and then to an outer length is undoing to the outer one |
| SnapshotVec.ChangeKeeps | src/ena/snapshot_vec.rs:229-277 | a logged change keeps every open snapshot restorable |
| SnapshotVec.RollbackKeeps | src/ena/undo_log.rs:182-198 | rolling the inner snapshot back keeps the outer ones restorable |
| SnapshotVec.VecLog.RollbackTo | src/ena/undo_log.rs:182-198 | pops and takes back exactly the entries above the snapshot |
| SnapshotVec.VecLog.Commit | src/ena/undo_log.rs:200-214 | only the root commit clears the log |
| SnapshotVec.Vector.constructor | src/ena/snapshot_vec.rs:163-168 | empty, with nothing open |
| SnapshotVec.Vector.Push | src/ena/snapshot_vec.rs:229-238 | appends and stays restorable |
| SnapshotVec.Vector.Set | src/ena/snapshot_vec.rs:242-247 | replaces one element and stays restorable |
| SnapshotVec.Vector.SetAll | src/ena/snapshot_vec.rs:251-261 | both branches replace every element |
| SnapshotVec.Vector.Update | src/ena/snapshot_vec.rs:263-273 | changes one element in place and stays restorable |
| SnapshotVec.Vector.Extend | src/ena/snapshot_vec.rs:334-346 | appends all elements, logging them afterwards in order |
| SnapshotVec.Vector.ChangeAndRecord | src/ena/snapshot_vec.rs:204-227 | a change the delegate can take back is restorable once recorded |
| SnapshotVec.Vector.StartSnapshot | src/ena/snapshot_vec.rs:282-287 | opens a snapshot of the present values |
| SnapshotVec.Vector.RollbackTo | src/ena/snapshot_vec.rs:293-296 | restores exactly the values at the start of the innermost snapshot; no assertion fails and outer snapshots stay restorable |
| SnapshotVec.Vector.Commit | src/ena/snapshot_vec.rs:298-302 | keeps the values; outer rollbacks are not weakened, and the log is empty once nothing is open |
| SnapshotVec.Run | src/ena/undo_log.rs:84-97 | a whole run with nested scopes and recorded delegate changes computes what it means without any log, which is what its kept steps mean without any scope |
| SnapshotVec.ScopesVanish | src/ena/snapshot_vec.rs:282-302 | committed scopes are their steps inline, and scopes that are rolled back are no steps at all |
| SnapshotVec.StepAt | src/ena/snapshot_vec.rs:229-277 | what each step leaves at each index |
| Alignment.AndNotLow | frontend_arena/src/lib.rs:221-224 | clearing the low bits with a mask takes away the remainder by the power of two |
| Alignment.AlignDown | frontend_arena/src/lib.rs:221-224 | the greatest multiple not above the value |
| Alignment.AlignUp | frontend_arena/src/lib.rs:227-230 | the least multiple not below the value |
| ArenaRoom.RoomMeans | frontend_arena/src/lib.rs:321-336 | bumping down from the end succeeds exactly when the request would fit aligned at the bottom |
| ArenaRoom.BumpPlaces | frontend_arena/src/lib.rs:321-336 | the range is aligned as asked, inside the free space, and the new end keeps the arena's alignment; it is the highest such place (`BumpIsHighest`) |
| ArenaRoom.BumpIsHighest | frontend_arena/src/lib.rs:321-336 | the address is the greatest one with the asked and the arena's alignment that leaves room for the size below the end, and none is found exactly when there is none |
| ArenaRoom.PacksTightly | frontend_arena/src/lib.rs:321-336 | for alignments up to eight the place that many bytes below the end, rounded up to eight, is a place for the request |
| ArenaRoom.ChunkSize | frontend_arena/src/lib.rs:277-294 | the least whole pages that hold the padded request and twice the last chunk, up to huge pages |
| ArenaRoom.RetryFits | frontend_arena/src/lib.rs:274-306 | with an aligned base the request that made the arena grow fits in the new chunk, for every size and alignment |
| ArenaRoom.RetryExact | frontend_arena/src/lib.rs:274-306 | for every alignment and every chunk, the retry succeeds exactly when the rounded request, aligned up from the base, ends within the chunk as counted from the base rounded down |
| ArenaRoom.RetryAnywhere | frontend_arena/src/lib.rs:274-306 | a chunk is large enough wherever it lies exactly when it holds the rounded request and its alignment, or eight |
| ArenaRoom.RetryFromWorst | frontend_arena/src/lib.rs:274-306 | just above an address with the alignment of the request a chunk takes it only if it would from every base |
| ArenaRoom.RetryOfSmallAlignment | frontend_arena/src/lib.rs:274-306 | for alignments up to eight the retry succeeds exactly when the base is aligned or the chunk exceeds the padded request |
| ArenaRoom.ThirdRoundFits | frontend_arena/src/lib.rs:309-342 | up to huge pages the chunk of the third round is large enough wherever it lies |
| ArenaRoom.NeverFits | frontend_arena/src/lib.rs:309-342 | a request that fills whole huge pages fits in none of its own chunks when their bases are misaligned, so the loop goes on |
| ArenaRoom.LargestIsLargest | frontend_arena/src/lib.rs:277-294 | no chunk made for a request exceeds the one after a huge page, and from half a huge page on it is that one |
| ArenaRoom.EndsExactly | frontend_arena/src/lib.rs:309-342 | some chunk of the sequence takes the request wherever it lies exactly when the largest holds the rounded request and its alignment, or eight; otherwise every round can fail |
| ArenaRoom.RetryCanFail | frontend_arena/src/lib.rs:312-314 | from an odd base the first request of 4089 bytes does not fit in its own chunk |
| DroplessArena.NewReservation | frontend_arena/src/lib.rs:326-334 | a range carved from the free space is apart from everything handed out before |
| DroplessArena.MemoryWritten | frontend_arena/src/lib.rs:396-426 | writing on in one reservation leaves the contents of all others alone |
| DroplessArena.LogIsIntact | frontend_arena/src/lib.rs:429-483 | every slice of the log is aligned and holds its bytes, and no two share an address |
| DroplessArena.AfterGrow | frontend_arena/src/lib.rs:309-342 | whether the retry succeeds: with aligned bases at once, up to huge pages after one more chunk, for other requests from half a huge page on exactly as the largest chunk allows |
| DroplessArena.Arena.constructor | frontend_arena/src/lib.rs:258-269 | no free space, so the first request grows |
| DroplessArena.Arena.Grow | frontend_arena/src/lib.rs:274-306 | a chunk apart from all others: the least whole pages of 4096 bytes for the padded request and a page or twice the last chunk, up to two megabytes; no computed size overflows |
| DroplessArena.Arena.AllocRaw | frontend_arena/src/lib.rs:309-342 | the highest aligned place in the free space of the newest chunk, which becomes the new end; no chunk is added when the free space has any such place; with aligned bases at most two rounds, up to huge pages at most three, and eleven whenever the largest chunk takes the request anywhere; otherwise, with the worst bases, no number is enough |
| DroplessArena.NextSize | frontend_arena/src/lib.rs:277-294 | the size of a chunk in numbers: whole pages of 4096, enough for both demands, and no page more |
| DroplessArena.AllocAll | frontend_arena/src/lib.rs:309-342 | requests of small alignment that fit together are packed end to end without a new chunk |
| DroplessArena.Arena.Reserve | frontend_arena/src/lib.rs:326-334 | moving the end down reserves exactly the range |
| DroplessArena.Arena.Write | frontend_arena/src/lib.rs:396-426 | bytes go behind what a reservation holds, and nowhere else; only a reservation that no answered call has is written |
| DroplessArena.Arena.AllocBytes | frontend_arena/src/lib.rs:345-395 | a new reservation holds the bytes; every earlier one keeps its contents |
| DroplessArena.Arena.WriteFromIter | frontend_arena/src/lib.rs:402-426 | the reservation ends up holding exactly the first values, at most the promised number; the calls the iterator makes meanwhile, those of the `next` call that finds the end included, are logged and keep what they were given |
| DroplessArena.Arena.FromExactIter | frontend_arena/src/lib.rs:438-454 | the slice holds as many elements as the iterator gave, up to its hint; the iterator is asked once more than that, or to its end |
| DroplessArena.Arena.CollectAndStore | frontend_arena/src/lib.rs:460-483 | an error stores nothing, otherwise the slice holds all elements in order, stored after the iterator is done |
| DroplessArena.Arena.Collect | frontend_arena/src/lib.rs:460-483 | the iterator is asked up to its first error or its end; the calls made meanwhile are exactly those, logged in order |
| DroplessArena.Arena.Perform | frontend_arena/src/lib.rs:429-457 | logs the calls of the iterator and then the call itself, each answered as its request alone determines |
| DroplessArena.Arena.Answer | frontend_arena/src/lib.rs:429-457 | one call without its own entry: its slice has a reservation that nothing in the log has |
| DroplessArena.Arena.PerformAll | frontend_arena/src/lib.rs:429-483 | the log of any history is exactly the calls made, at every depth; every slice in it is aligned and still holds its bytes, and no two share an address |
| TypedArena.ExtendedKeeps | frontend_arena/src/lib.rs:130-140 | within the reserved room elements keep their chunk and offset |
| TypedArena.LogStays | frontend_arena/src/lib.rs:130-140 | slices of the log stay stored when elements keep their chunk and offset |
| TypedArena.BeyondLog | frontend_arena/src/lib.rs:178-191 | a slice behind everything stored is apart from every slice of the log |
| TypedArena.Arena.Grow | frontend_arena/src/lib.rs:197-217 | a new empty chunk, old chunks untouched; its room is the request or, if that is more, what fits into 4096 bytes at first and twice the last chunk later, up to two megabytes |
| TypedArena.NextCapacity | frontend_arena/src/lib.rs:197-217 | that room in numbers, for every element size |
| TypedArena.Arena.Store | frontend_arena/src/lib.rs:178-191 | a contiguous slice in order behind everything stored, no buffer outgrown; room is left behind in an older chunk exactly when the slice is longer than the room of a last chunk that is not full, and never by a single element |
| TypedArena.RoomLeftBehind | frontend_arena/src/lib.rs:108-109 | a history after which the first chunk keeps spare capacity |
| TypedArena.Arena.Collect | frontend_arena/src/lib.rs:163-176 | the iterator is asked up to its first error; its values, and exactly the calls it made |
| TypedArena.Arena.TryAllocFromIter | frontend_arena/src/lib.rs:163-192 | an error adds nothing beyond what the iterator allocated; otherwise the slice holds its values; the calls the iterator made are logged and their slices stay where they were put |
| TypedArena.Arena.Perform | frontend_arena/src/lib.rs:123-192 | logs the calls of the iterator and then the call itself: answered as its request determines, appending exactly what it produces |
| TypedArena.Arena.PerformAll | frontend_arena/src/lib.rs:123-192 | the log of any history is exactly the calls made, at every depth; the arena holds exactly what they produced, in order; every slice in the log stays where it was put and no two share a slot; single elements leave no room behind |
| Diagnostics.LinesSnoc | src/frontend_facts/mod.rs:2840-2852 | a break and one more line after a text add one line |
| Diagnostics.ToOwnedString | src/frontend_facts/mod.rs:2840-2852 | the entry's lines joined by line feeds |
| Diagnostics.NextLine | src/frontend_facts/mod.rs:2876-2886 | splitting at line feeds and stripping one carriage return gives the next line |
| Diagnostics.ContinueEntry | src/frontend_facts/mod.rs:2887-2892 | extending the slice stands for appending the line, whatever the breaks |
| Diagnostics.ForEachDiagnostic | src/frontend_facts/mod.rs:2860-2903 | the slices stand for exactly the grouped entries that start with `error`, `internal compiler error` or `warning`, in order, with their severity |
| Diagnostics.SplitDiagnostics | src/frontend_facts/mod.rs:2810-2818 | the errors are exactly the grouped entries that start with `error` or `internal compiler error`, the warnings those that start with `warning`; the errors that start with `error` are the line-based list |
| Diagnostics.ClassifiedMeans | src/frontend_facts/mod.rs:2860-2873 | classifying entries keeps those that start with one of the three words and tells the first two from the third |
| Diagnostics.WrittenLines | src/frontend_facts/mod.rs:2876-2886 | lines written with any breaks are read back as those lines |
| Diagnostics.Grouped | src/frontend_facts/mod.rs:2887-2900 | diagnostics written one after the other are grouped as they were written |
| Diagnostics.SplitWritten | src/frontend_facts/mod.rs:2810-2818 | so splitting the text of any diagnostics gives back exactly its errors and its warnings |
| Diagnostics.ErrorEntries | src/frontend_facts/effects.rs:343-357 | the grouped entries that start with `error` |
| Diagnostics.SplittersAgree | src/frontend_facts/effects.rs:343-357 | the line-based list is the other splitter's error list without internal compiler errors |

## Left out

- Everything driven by compiler queries (`TyCtxt`, `SourceMap`, the HIR), the binaries, the proc-macro crates and build scripts: input, output or wrappers over code outside the repository.
- ena's union-find, polonius, the `odht` tables and the `rustc_*` modules.
- Markdown heading scanning (`src/frontend_facts/effects.rs`): one pass over the doc lines whose only state is the open code fence and the line before.
- `run_batch` (`src/frontend_facts/session.rs`): maps a closure over the inputs in chunks; what a chunk is for, a fresh set of compiler globals, is outside the model.
- Iteration.Run: takes a bound on the rounds, because with a cycle of indistinct variables or without a finite universe the loop need not stop; what it computes when it stops does not depend on the bound.
- Iteration.Evaluate: keys and values of all variables share two types, and logic closures are pure; variables over other tuple types are not modelled.
- Relations.Sort: an insertion sort stands for the library's `sort`; only the ascending permutation matters.
- DependAnalyzer.Analyzer.AnalyzeExpr: names arrive resolved to bindings; scopes, lookup and source texts are not modelled, and neither are the tables of unknown spans and of assigned bindings or the public form that `finish` builds.
- DependAnalyzer.Analyzer.AnalyzeKind: the entries that a kind of expression makes in the table of unknown spans are not modelled; the unknown facts that it puts into values are.
- DependAnalyzer.Merge: a state is a set of facts per binding, so trailing default values are not told apart from absent ones, and the values of unreachable states are not kept; a pass that only lengthens the vector of values is not repeated.
- DependAnalyzer.AnalyzeFunction: the runs it covers carry dependence as the analysis understands it: the guards of arms that are not taken leave no trace, and a conditional break does not control later updates. An exit is recorded even if its own operand never completes, as in `return (return 1)`. A control is its span and its facts; the condition text that the source stores with it is not modelled.
- TemplateParser.Parse: the source is a sequence of characters and error offsets count characters; the texts of error messages are constructors of `Reason`, and which of them an error carries is stated for stray braces, early ends, empty messages and numbers; inside a placeable that fails only that the error lies behind its opening brace.
- Template.RenderDependsOnReferences: arguments are a map; numbers are unbounded except where `FillRenders` asks for 32 bits.
- SnapshotVec.Vector.ChangeAndRecord: writes through `get_mut` that are never recorded are documented as not undone; tokens must be given back innermost first, as the source demands.
- SnapshotVec.Vector.Update: a closure that panics in the middle is not modelled.
- DroplessArena.Arena.AllocRaw: the loop is given a number of rounds, because with badly placed chunk bases it need not end (`EndsExactly`); two are enough with aligned bases, three up to huge pages, eleven whenever any number is.
- DroplessArena.Arena.Perform: the global allocator is a function of the live chunks and the size; addresses are integers on a 64-bit machine, and drops, borrows and threads are not modelled.
- TypedArena.Arena.Perform: values are not changed through the references that were given back.
- Diagnostics.ForEachDiagnostic: texts are sequences of characters and slices are copies.
