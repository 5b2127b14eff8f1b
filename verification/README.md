# Aril, verified in Dafny

A model of the parts of the Aril toolchain whose correctness does not follow from reading one
function: statement lowering in the compiler back end, dependency and package resolution, the
structured-concurrency runtime and the placement of its joins, the scanner with newline
suppression, the ordered containers, and the lockfile. `dafny verify dfyconfig.toml` checks the
whole project.

## How it is put together

**Statement lowering.** `TryHoisting` gives an expression its left-to-right meaning (a value, a bail
out of the frame, or a panic, with the trace of its effects), a small Go target, and the walks of
`try.go`. `GoOrder` has what Go leaves open ("Order of evaluation" and "Assignment statements", The
Go Programming Language Specification): calls, `&&` and `||` happen in lexical order; a name, a
field, an element or a quotient is taken anywhere between its operands and its use; a store finds
its element last. A Go run is a schedule of nodes, and the theorems hold for every schedule.
`TryHoistingProofs` proves that a lowered statement runs as the source does in lexical order,
`GoOrderProofs` that where nothing can change places every schedule ends as the lexical one, and
`ScheduledHoisting` puts the two together. `TryLowers` says which statements lower at all.
`MovedEffects`, `MovedReads` and `LooseFrames` (with `GoSchedules` and `GoOrderExact`) are the three
ways in which a lowered statement does otherwise; `TryHoistingExact` is the exact condition,
`TryWitnesses` has concrete statements. `Patterns` and `PatternProofs` do `match`: Aril's
first-match rule against the Go `switch` that is emitted ("Switch statements" of the same
specification). `Lowering` has the statements, their Go code and both meanings; `BreakLabels`,
`Divergence`, `LoweringProofs`, `TailProofs` and `Unmatched` prove labelled breaks, the divergence
predicate, statement position, tail position, and a match that no arm fits; `LoweringDomain` says,
by the syntax alone, which patterns, statements, tails and function bodies lower, and which blocks
are taken not to fall through. `TryGenerator` and `StatementGenerator` are the generator in the form
the code has, classes that write fields and an output buffer; each method is proved to write what
the lowering functions say, and what is written for a statement or a function body runs as the
source does.

**Resolution.** `Versions`, `Constraints`, `Upgrade` and `Selection` are the version arithmetic
(sections 9, 10 and 11 of Semantic Versioning 2.0.0), `Spellings` the language of constraints: every
text that is read, and what it admits. `Resolver` is the worklist over mutable maps, `Superseded`
what versions that are no longer selected leave behind, `Imports` the depth-first walk over the
package graph.

**Concurrency.** `Groups`, `Scopes`, `ScopeJoin` and `Channels` are state machines over the steps
of the goroutines, in any interleaving; a section under a lock is one step, and a registration is
one step for each of the three maps it writes.

**Front end and containers.** `Lexing` is the scanner as a function of the text left, `LexerMachine`
(file `Lexer.dfy`) the scanner that moves an offset, a line and a column; `LexingProofs` has
re-lexing, coverage and longest match, `TokenKinds` the texts of each kind of token, the reasons of
failures, and what a token stream says of its source. `Newlines`, `Containers` and `Lockfile` follow
their source files; `Strings` has the Go string functions they use.

## Where the code falls short of what it promises

Each item is a theorem that gives the exact condition, nearly all with a concrete input beside it.

- A `try` behind an effect in the right operand of `&&` or `||` is moved before that effect:
  `(a && f()) == try g()` calls `g` first (`TryWitnesses.EffectIsReordered`). A name or field read
  before a `try` is read behind the effects of its operand: `x + try f()` reads `x` after the call
  (`TryWitnesses.ReadIsReordered`).
- Without any `try`, what Go does not order is emitted as it stands. Of `[x, f()]` Go may read `x`
  behind the call (`TryWitnesses.ElementMayBeReadLate`), of `xs[9] + f()` it may call `f` before it
  panics (`TryWitnesses.AdditionMayCallFirst`), and of `xs[9] = f()` it always does
  (`TryWitnesses.StoreCallsFirst`), although `try.go` counts a panic as an effect whose order is
  kept.
- A statement that lowers keeps its meaning, under every order that Go allows, if and only if, in
  each frame, no effect or panic, there or elsewhere, precedes a `try`; no read that may change
  precedes a `try` whose operand has an effect; and no index, division or store that may panic can
  change places with a call or with another of its kind, nor a read that may change with a call
  (`TryHoistingExact.HoistingIsExact`).
- sema does not check a match on an int, a string, an Option or a Result for missing arms. In
  statement position the code then goes on with nothing changed, and in tail position it runs
  `panic("unreachable: …")`: `func f(n: int): int { match n { 1 => 10 } }` does on 2
  (`Unmatched.UnmatchedIntRunsTheGuard`). The guard runs if and only if no arm fits
  (`Unmatched.GuardRunsExactly`).
- `ExprDiverges` goes by the spelling of a callee, and `panic` and `os` may be shadowed: behind
  `let panic = (x) => 0` the handler of `f() catch e { panic(e) }` passes the check, falls through,
  and the payload is read on Err (`LoweringProofs.ShadowedPanicFallsThrough`). A block that is
  accepted never falls through if and only if no callee it relies on is shadowed where the call
  can be reached (`Divergence.DivergenceIsExact`); a lowered catch never reads the payload of an Err
  under the same condition on its handler (`LoweringProofs.CatchIsExact`).
- A tuple arm of fresh names in the middle of a match becomes a Go `default`, which Go takes last:
  `match (a, b) { (x, y) => …, (1, 2) => … }` runs the second arm on (1, 2)
  (`PatternProofs.TupleCatchAllInTheMiddle`). The switch is the first-match rule if and only if no
  case after a default is live (`PatternProofs.SwitchIsFirstMatchExactly`).
- The label scan does not enter an expression-form `else if`, nor an initialiser whose `catch`
  handler breaks, so such a break leaves the Go switch instead of the loop; and it takes a `catch`
  for a switch, so a loop may get a label that nothing uses, which Go rejects
  (`BreakLabels.LabelsAreExact`, two exact conditions, and the three witnesses beside it).
- An exact pin that is not a released tag can lower a selection already made: a selection falls if
  and only if the new requirement pins an admitted version below it, and no version pinned before is
  admitted any more (`Selection.FallsExactly`, `Selection.UnreleasedPinLowers`). The worklist
  terminates all the same.
- The Go module of a binding package stays at the first pin seen when the package rises later
  (`Superseded.BoundStaysBehind`): the final pin is that of the package finally selected if and
  only if the version first fetched that binds the module gives the same pin
  (`Resolver.BoundFollowsExactly`).
- Requirements of versions no longer selected stay on record, and can make a conflict nobody asked
  for (`Superseded.ConflictIsLeftOver`). The selection is the one that the root and the versions
  still selected ask for if and only if it also meets what the others asked for
  (`Superseded.SelectionIsLiveExactly`).
- Raising `^1.2.0` to the tag 2.0.0-a, which the window admits, gives a window that admits 2.0.0
  (`Upgrade.PreReleaseOfCeilingEscapes`). The raised window lies inside the old one, and a second
  upgrade changes nothing, if and only if the tag is not a pre-release of the old ceiling
  (`Upgrade.InsideExactly`, `Upgrade.IdempotentExactly`).
- `comparePre` stops at two different spellings of one number, so ≤ is not transitive on `1.b`,
  `01.a`, `1.a` (`Versions.TiesBreakTransitivity`). It orders a set of versions totally if and only
  if no two of them have pre-releases that tie (`Versions.OrderedExactly`), and a pre-release fits
  between canonical versions if and only if it is canonical itself (`Versions.CanonicalExactly`); <
  is transitive on all versions. An identifier is ordered as section 11 says if and only if it is
  neither a negative number nor one beyond 64 bits (`Versions.IdOrderExactly`).
- The launch walk does not look into operands, assignment targets and loop heads. It sees exactly
  what can launch if and only if no spawn hides there (`Scopes.WalkIsExact`,
  `Scopes.OperandSpawnIsHidden`). So the join can come too late for a close of a channel
  (`ScopeJoin.FanInIsJoinedExactly`, `ScopeJoin.HiddenSpawnEscapes`), and it comes too late for a
  close inside an `if` behind the spawns (`ScopeJoin.NestedCloseEscapes`): a statement behind the
  last spawn finds all tasks finished if and only if the first close of its own behind the last
  launch seen stands between the two or is that statement
  (`ScopeJoin.StatementIsJoinedExactly`). And no task is left running
  behind the join if and only if no statement from the join on, nor the value of the scope, holds
  a spawn (`ScopeJoin.JoinCoversExactly`, `ScopeJoin.TrailingValueEscapes`).
- Registrations of one channel that overlap can leave its views on different monitors: if and only
  if one starts while the first is between its stores (`Channels.ViewsSplitExactly`,
  `Channels.OverlapSplits`).
- A send that passed its check can meet a closed channel: if and only if a close falls between the
  check and the send (`Channels.SendCrashesExactly`, `Channels.CheckedSendMayCrash`).
- The lockfile reads back if and only if no field holds a newline or a `#`
  (`Lockfile.RoundTripExactly`).

## Model

| member | source | states |
|---|---|---|
| TryLowers.WalkMeaning | internal/codegen/try.go:32-102 | the safety walk passes exactly when, in the frame of the statement and of every `try` inside it, no effect comes before a `try`; its flag says whether there was an effect |
| TryLowers.LowersExactly | internal/codegen/try.go:104-281 | a statement lowers if and only if in every frame no effect comes before a `try`, no `try` stands in the right operand of a logical operator, and, if it holds a `try`, the frame is a spawn body or a function that returns a Result or an Option |
| TryLowers.DirectTryLowersExactly | internal/codegen/try.go:195-281 | the same for a `try` that is the whole value of a statement: its operand is of that form and the frame can bail |
| TryGenerator.HoistableTries | internal/codegen/try.go:32-102 | the walk over captured flags answers that question |
| TryGenerator.SafetyWalk.Visit | internal/codegen/try.go:33-97 | one node of the walk: the flags it leaves are those of the walk over the tree |
| TryGenerator.Generator.HoistTriesIfSafe | internal/codegen/try.go:109-119 | hoists when the walk passes, else leaves map, counter and buffer as they are |
| TryGenerator.Generator.HoistExprTries | internal/codegen/try.go:137-193 | writes, for every `try` it reaches, a temp, a preamble and an entry of the hoist map |
| TryGenerator.Generator.EmitTryPreamble | internal/codegen/try.go:204-225 | bail tag and bail value of the frame, spelled out; fails if and only if the frame cannot bail or the operand is not of the form that lowers |
| TryGenerator.Generator.EmitTryBail | internal/codegen/try.go:240-281 | hoists the operand, then writes the temp and the bail, or fails on a `try` left in place |
| TryGenerator.Generator.LowerStatement | internal/codegen/stmt.go:97-123 | hoist, then emit what is left: succeeds if and only if the statement is of the form that lowers; where effects and changing reads are in place and nothing that matters can change places, the preambles written and then what is left run, under every order Go allows, as left-to-right evaluation |
| TryHoistingProofs.LoweringHoistsEveryTryOnce | internal/codegen/try.go:121-193 | a statement that lowers passed the safety walk, and every `try` of it, at any depth, has one preamble and one temp of its own; otherwise emission fails |
| TryHoistingProofs.BailCodeRuns | internal/codegen/try.go:240-281 | a preamble bails with the frame's value exactly on the bail tag, and otherwise goes on with the temp set |
| GoOrderProofs.AnyOrderIsInOrder | internal/codegen/try.go:18-31 | where nothing can change places that matters, every schedule that Go allows for the operands of a statement ends as the lexical order does: values, effects in order, panic |
| GoSchedules.NoDeadEnd | internal/codegen/try.go:18-31 | every run of some nodes is the beginning of a whole run, so a claim about all schedules is never empty |
| ScheduledHoisting.AnyOrderPreservesMeaning | internal/codegen/try.go:104-119 | under that condition, and where effects and changing reads are in place, a lowered statement has, under every plan of its preambles and every schedule of the rest, the effects in order, the panic, the bail and the operand values of left-to-right evaluation, from any state |
| ScheduledHoisting.AnyOrderOfDirectTry | internal/codegen/try.go:195-225 | the same for a `try` that is the whole value of a statement |
| ScheduledHoisting.ARunExists | internal/codegen/stmt.go:230-276 | there is such a run: the lexical order, with the store in phase two |
| MovedEffects.Culprit | internal/codegen/try.go:67-71 | a statement that the walk passes, although an effect or a panic precedes a `try`, has one that no preamble performs in front of a `try` of its frame |
| MovedEffects.MovedApart | internal/codegen/try.go:137-193 | in a world where that node panics and that `try` bails, the source panics and Go bails |
| MovedReads.SourceAllClean | internal/codegen/try.go:41-44 | a read in front of a `try` with an effect does not see that effect in the source |
| MovedReads.GoAllSpoilt | internal/codegen/try.go:137-193 | the Go program runs through, and its values show that the read saw the effect |
| GoOrderExact.FindClashIn | internal/codegen/try.go:18-31 | where the condition fails there is a pair that can change places: two nodes that may panic, one and a call, or a changing read and a call |
| GoOrderExact.ClashAllInOrder | internal/codegen/try.go:18-31 | in the world set for such a pair, how the lexical order ends |
| GoOrderExact.SomeScheduleSwaps | internal/codegen/try.go:18-31 | and a schedule that ends otherwise: another panic, a panic with or without the call, or an odd value |
| LooseFrames.LooseApart | internal/codegen/try.go:137-193 | the same in the frame of any `try` inside a statement: one plan bails where another goes on, or the panics differ |
| LooseFrames.StoreApart | internal/codegen/stmt.go:230-276 | a store whose value has a call or may panic ends otherwise in two phases |
| TryHoistingExact.HoistingIsExact | internal/codegen/try.go:18-31 | for any set of reads known not to change: a statement that lowers keeps its meaning, under every order Go allows, in every world where they do not, if and only if in every frame no effect or panic precedes a `try`, no other read precedes a `try` whose operand has an effect, and nothing that matters can change places |
| TryHoistingExact.ExactInAnyWorld | internal/codegen/try.go:18-31 | the same with every read free to change, and no assumption on the world |
| TryHoistingExact.ExactForSteadyReads | internal/codegen/try.go:18-31 | when no read of the statement changes, the order of calls and panics alone decides |
| TryHoistingExact.ExactForCalls | internal/codegen/try.go:18-31 | when besides it has no index, division or store to an element, the strict walk alone decides |
| TryWitnesses.EffectIsReordered | internal/codegen/try.go:67-71 | `(a && f()) == try g()` lowers, and under every order the Go program has the two calls the other way round |
| TryWitnesses.ReadIsReordered | internal/codegen/try.go:41-44 | `x` and `try f()` as operands lower, and under every order the Go program gives another value |
| TryWitnesses.ElementMayBeReadLate | internal/codegen/try.go:87-90 | `[x, f()]`: two schedules with different values |
| TryWitnesses.AdditionMayCallFirst | internal/codegen/try.go:77-80 | `xs[9] + f()`: the panic with and without the call |
| TryWitnesses.StoreCallsFirst | internal/codegen/stmt.go:230-276 | `xs[9] = f()`: the source panics before the call, the Go program behind it, under every order |
| PatternProofs.CompAgrees | internal/codegen/match.go:239-306 | the condition of a tuple component holds exactly when its pattern matches, and the lines bind what the pattern binds |
| PatternProofs.BindSubAgrees | internal/codegen/match.go:887-925 | the binding lines of a sub-pattern bind what it binds |
| PatternProofs.ArmAgrees | internal/codegen/match.go:31-181 | a clause is chosen exactly on the values its pattern matches, and binds what the pattern binds |
| PatternProofs.EmptyIffCatchAll | internal/codegen/match.go:372-390 | the conjunct list of a tuple arm is empty exactly when tupleArmIsCatchAll holds |
| PatternProofs.EmitsDefaultIffDefault | internal/codegen/match.go:350-366 | matchEmitsDefault holds exactly when a default clause was emitted |
| PatternProofs.FirstMatchIsFirstClause | internal/codegen/match.go:120-181 | Aril's first-match rule is the first clause that holds, with its bindings |
| PatternProofs.SwitchIsFirstMatchExactly | internal/codegen/match.go:120-181 | for all values the Go switch runs the arm of the first-match rule with the same bindings if and only if no case after a default is live |
| PatternProofs.DefaultLastIsEnough | internal/codegen/match.go:160-169 | in particular when the only catch-all is the last arm |
| PatternProofs.TupleCatchAllInTheMiddle | internal/codegen/match.go:160-169 | two arms and a value on which the switch runs another arm than the rule |
| LoweringDomain.PatternsLowerExactly | internal/codegen/match.go:31-306 | a match has a switch if and only if each arm is of a form a clause can be written for: literals, declared variants with a binder for each field, alternatives of these, tuples of these; and, over one value, literals and variants do not mix |
| Divergence.DivergenceIsExact | internal/ast/diverge.go:19-74 | a block accepted by BlockDiverges never falls through, in any world, if and only if no callee it relies on is shadowed where the call can be reached |
| Divergence.DivergenceIsSound | internal/ast/diverge.go:24-32 | on one run: such a block does not end with a value |
| Divergence.ExprDivergenceIsSound | internal/ast/diverge.go:35-53 | nor does an expression accepted by ExprDiverges |
| Divergence.StmtDivergenceIsSound | internal/ast/diverge.go:58-74 | nor a statement accepted by stmtDiverges |
| LoweringDomain.DivergesExactly | internal/ast/diverge.go:19-74 | a block is accepted by BlockDiverges if and only if everything it can end in is a `return`, `break` or `continue`, or a call spelled `panic` or `os.exit` |
| LoweringProofs.StatementPreserved | internal/codegen/stmt.go:71-285 | running the lowered statement is running the source, whatever the values: trace, variables, returned value, panic, continue, and the loop a break leaves; a match that no arm fits does nothing |
| LoweringProofs.CatchPreserved | internal/codegen/catch.go:58-108 | behind a `catch` the temp holds no Err, and its payload is what the source yields; on Err the handler has left |
| LoweringProofs.CatchIsExact | internal/codegen/catch.go:58-108 | that holds in every world if and only if no callee on which the check of the handler relies is shadowed |
| LoweringProofs.ShadowedPanicFallsThrough | internal/ast/diverge.go:38-48 | with a variable called `panic` the handler passes the check, falls through, and the payload is read on Err |
| LoweringProofs.HandlerLeaves | internal/sema/catch.go:22-41 | a handler that passes the check, and relies on no shadowed callee, leaves, in Aril and in Go, in the same way |
| LoweringProofs.IfPreserved | internal/codegen/control_flow.go:143-187 | an `if` in either form runs the branch the source runs |
| LoweringProofs.LoopPreserved | internal/codegen/labeled_break.go:29-41 | a loop runs the same iterations; break and continue act on it alone |
| LoweringProofs.MatchPreserved | internal/codegen/match.go:31-108 | a match in statement position evaluates its subject once and runs the chosen arm |
| LoweringProofs.SelectPreserved | internal/codegen/concurrency.go:151-199 | a select runs the body of the case that fires |
| LoweringProofs.ChoiceAgrees | internal/codegen/match.go:31-181 | Go's clause for a lowered match is Aril's arm, with the same bindings |
| LoweringDomain.LowersExactly | internal/codegen/stmt.go:71-285 | a statement lowers if and only if its operands can be written in place, its patterns are of the forms with a clause, an `if` has a block and no else, a block, or an `if` of its own kind, and a loop, select case or handler has a block, a handler one that does not fall through |
| BreakLabels.LabelsAreExact | internal/codegen/labeled_break.go:29-79 | every lowered break leaves the loop it left in the source if and only if the scan of each loop sees the captured breaks; a label is there exactly when a break uses it if and only if, besides, the scan sees no more |
| BreakLabels.LoweredBreaks | internal/codegen/labeled_break.go:52-79 | at any nesting, breaks are right exactly when the frame serves them, and the label of the frame is used exactly when one is captured |
| BreakLabels.ScanIsExact | internal/codegen/labeled_break.go:90-170 | without catch and expression-form else-if, the static scan sees exactly the captured breaks |
| BreakLabels.ElseIfBreakIsMissed | internal/codegen/labeled_break.go:139-147 | a break in an expression-form else-if leaves the switch |
| BreakLabels.CatchBreakIsMissed | internal/codegen/labeled_break.go:109-137 | so does a break in the catch handler of an initialiser |
| BreakLabels.CatchLabelIsUnused | internal/codegen/labeled_break.go:149-170 | a catch directly in a loop gives it a label nothing uses |
| TailProofs.TailPreserved | internal/codegen/tail.go:30-52 | for every nest of parentheses, blocks, ifs, catches and matches, the code in tail position returns the value, or leaves as the source leaves, and never falls through |
| TailProofs.BlockTailPreserved | internal/codegen/tail.go:59-80 | the same for the rest of a block |
| TailProofs.IfTailPreserved | internal/codegen/tail.go:86-92 | the same for an if expression |
| TailProofs.MatchTailPreserved | internal/codegen/match.go:324-343 | the same for a match; the unreachable guard runs where the value fits no arm, here or in a match nested in tail position, and nowhere else |
| TailProofs.CatchTailPreserved | internal/codegen/match.go:324-343 | the same for a catch, which is a switch in tail position |
| TailProofs.FunctionPreserved | internal/codegen/stmt.go:41-58 | a lowered function body returns, panics or runs on as the source body does, and ends in the guard where that is stuck at a match in tail position |
| LoweringDomain.TailLowersExactly | internal/codegen/tail.go:30-92 | an expression lowers in tail position if and only if, through parentheses, blocks, ifs, matches and catches, it ends in expressions that can be written in place or in blocks that do not fall through |
| LoweringDomain.FunctionLowersExactly | internal/codegen/stmt.go:41-58 | a function body lowers if and only if its statements do, and its trailing expression does in the position it has |
| Unmatched.StatementGoesOn | internal/codegen/match.go:310-314 | a lowered statement never runs the guard; where no arm of a match fits, only the subject has been evaluated and the code goes on |
| Unmatched.GuardRunsExactly | internal/codegen/match.go:324-343 | for a match over values in tail position the guard runs if and only if no arm fits |
| Unmatched.UnmatchedIntRunsTheGuard | internal/sema/exhaust.go:36-57 | `match n { 1 => 10 }` on the int 2: the guard as the body of a function, nothing as a statement |
| StatementGenerator.Generator.EnterSwitch | internal/codegen/labeled_break.go:56-62 | the frame of the loop is one switch deeper, the others are as they were |
| StatementGenerator.Generator.ExitSwitch | internal/codegen/labeled_break.go:64-68 | and is put back |
| StatementGenerator.Generator.EmitStmt | internal/codegen/stmt.go:71-285 | succeeds if and only if the statement is of the forms that lower; then the frames are as they were, and running what was appended to the buffer is running the source, in every world, at every loop bound |
| StatementGenerator.Generator.EmitTailReturn | internal/codegen/tail.go:30-52 | the same for an expression in tail position: it succeeds if and only if the expression is of the forms that lower there, and what was appended returns its value or leaves as it leaves |
| StatementGenerator.Generator.EmitFuncBody | internal/codegen/stmt.go:41-58 | the same for the body of a function |
| Versions.ParseInvertsShow | cmd/aril/version.go:25-73 | parsing what String prints gives the version back exactly when its pre-release holds no `+` |
| Spellings.VersionsReadExactly | cmd/aril/version.go:25-73 | a text is read as a version if and only if it is one to three numbers up to 64 bits, a pre-release behind a hyphen or none, and build metadata behind a plus or none; and it is read as that version |
| Versions.ComparePre | cmd/aril/version.go:104-128 | the loop compares the identifier lists |
| Versions.CompareSymmetric | cmd/aril/version.go:78-99 | compare is antisymmetric and answers -1, 0 or 1 |
| Versions.ZeroExactly | cmd/aril/version.go:78-128 | 0 exactly on equal versions and on pre-releases that tie on different spellings of one number |
| Versions.TotalOrder | cmd/aril/version.go:78-99 | a total order on versions with canonical numeric identifiers |
| Versions.OrderedExactly | cmd/aril/version.go:78-128 | a total order on a set of versions if and only if no two of them have pre-releases that tie |
| Versions.CanonicalExactly | cmd/aril/version.go:104-128 | at most is transitive through a pre-release, between canonical versions, if and only if its identifiers are canonical |
| Versions.StrictlyTransitive | cmd/aril/version.go:78-128 | strictly below is transitive on all versions |
| Versions.TiesBreakTransitivity | cmd/aril/version.go:106-115 | three versions on which at-most is not transitive |
| Versions.IdOrderExactly | cmd/aril/version.go:104-128 | an identifier is ordered as section 11 says exactly when it is neither a negative number nor one beyond 64 bits |
| Versions.ComparesAsSection11 | cmd/aril/version.go:78-128 | on such identifiers compare is the precedence of section 11 |
| Constraints.Floor | cmd/aril/version.go:192-203 | the greatest lower bound of a constraint, and none only if it has none |
| Constraints.LowestSatisfying | cmd/aril/version.go:419-438 | a least candidate admitted by every requirement, and none only if there is none |
| Constraints.HighestSatisfying | cmd/aril/version.go:403-415 | a greatest admitted candidate, and none only if there is none |
| Constraints.MaxFloor | cmd/aril/version.go:441-452 | a floor no admitted version is below |
| Constraints.AdmittedIsAboveFloor | cmd/aril/version.go:441-452 | every version all requirements admit is at or above maxFloor |
| Constraints.MaxFloorIsGreatest | cmd/aril/version.go:441-452 | it is the bound of a `>=`, `>` or `=` of some requirement, the floor of no requirement is above it, and there is none only if there is no such bound |
| Constraints.MvsSelect | cmd/aril/version.go:377-397 | what it selects is admitted by every requirement |
| Constraints.SelectsLeast | cmd/aril/version.go:377-397 | over candidates the selection is the least admitted one, and a conflict exactly when there is none |
| Constraints.MoreRequirementsNeverLower | cmd/aril/version.go:377-438 | over fixed candidates more requirements never lower it |
| Constraints.BothPathsAgree | cmd/aril/version.go:377-397 | when maxFloor is an admitted candidate, both paths of mvsSelect agree |
| Upgrade.WindowAdmits | cmd/aril/version.go:269-300 | a caret or tilde window admits exactly what lies from its floor up to its ceiling |
| Spellings.SpellingIsRead | cmd/aril/version.go:218-343 | every spelling (`*`, a SHA, `^`, `~`, `.*`, a list of comparisons with or without a `v`, a tag with or without `=`), with space around it, is read as a constraint that admits a version exactly if the comparison or window it writes does, said with compare and the numbers alone; a SHA admits none |
| Spellings.ConstraintsReadExactly | cmd/aril/version.go:218-343 | and nothing else is read |
| Spellings.ComparisonsAdmit | cmd/aril/version.go:315-343 | a list of comparisons with printed versions admits what is at least, above, at most, below or equal to each, as its operator says |
| Spellings.CaretMeans | cmd/aril/version.go:269-284 | a caret window admits, from its floor up, what agrees with it in the left-most number that is not 0 and in those before it, and besides only the pre-releases of the next such number |
| Spellings.TildeMeans | cmd/aril/version.go:286-313 | the same for a tilde window and the minor number, or the major one where no minor is given |
| Upgrade.RaisedReadsBack | cmd/aril/upgrade.go:124-139 | the raised spelling reads back as the window from the chosen tag |
| Upgrade.InsideExactly | cmd/aril/upgrade.go:61-85 | the raised window lies inside the old one exactly when the tag is no pre-release of the old ceiling |
| Upgrade.IdempotentExactly | cmd/aril/upgrade.go:61-85 | upgrading twice is upgrading once, whatever the tags, under the same condition |
| Upgrade.PreReleaseOfCeilingEscapes | cmd/aril/version.go:269-284 | 2.0.0-a raises `^1.2.0` to a window that admits 2.0.0 |
| Upgrade.UpgradeDep | cmd/aril/upgrade.go:53-85 | a dependency is rewritten to the raised spelling of the highest admitted tag, and only if that is above the floor |
| Upgrade.UpgradesOnce | cmd/aril/upgrade.go:53-85 | what an upgrade wrote is not rewritten again over the same tags, when the raised window lies inside the old one |
| Selection.SelectVersion | cmd/aril/getresolve.go:167-211 | the branches of selectVersion |
| Selection.SelectionMeetsAll | cmd/aril/getresolve.go:167-211 | a selection meets every requirement; from candidates it is the least that does |
| Selection.SelectsExactly | cmd/aril/getresolve.go:167-211 | without commits: the least of the versions pinned and, once a range is required, of the tags, that meets every requirement, and a conflict exactly when none does; without any such version the greatest lower bound |
| Selection.CommitsExactly | cmd/aril/getresolve.go:188-193 | a commit is selected exactly when it is all that is required; a commit and anything else is the conflict |
| Selection.SelectionStays | cmd/aril/getresolve.go:167-211 | a requirement that admits the selection and adds no candidate leaves it |
| Selection.FallsExactly | cmd/aril/getresolve.go:177-205 | a requirement lowers a selection exactly when it pins an admitted version below it and no version pinned before is admitted any more, ties or not |
| Selection.ReleasedPinsNeverLower | cmd/aril/getresolve.go:177-205 | released pins never lower a selection over tags |
| Selection.NeverLowers | cmd/aril/getresolve.go:167-211 | nothing but an unreleased pin lowers a selection, ties or not |
| Selection.UnreleasedPinLowers | cmd/aril/getresolve.go:177-205 | tags and two requirements for which the selection falls |
| Selection.ShowIsInjective | cmd/aril/getresolve.go:187-205 | pins told apart by their printed form are told apart as versions |
| Resolver.RequireKeepsSelected | cmd/aril/getresolve.go:62-123 | after every step each selection is what its requirements so far select |
| Resolver.RequireKeepsFromManifests | cmd/aril/getresolve.go:62-123 | every requirement is a dependency of the root or of a fetched version |
| Resolver.RequireKeepsComplete | cmd/aril/getresolve.go:62-123 | every manifest of a fetched version waits in the queue or has its requirements recorded |
| Resolver.QueueingSpends | cmd/aril/getresolve.go:52-125 | a step that queues a manifest uses up one of finitely many tokens, and none is given back: the loop ends over every registry |
| Resolver.RequireNeverLowers | cmd/aril/getresolve.go:72-81 | when exact pins are released tags, no step lowers a selection, and a commit stays |
| Resolver.RequireKeepsBound | cmd/aril/getresolve.go:103-120 | after every step a Go module is bound exactly when a fetched version binds it, to the pin of the first one fetched |
| Resolver.BoundFollowsExactly | cmd/aril/getresolve.go:103-120 | at the end the pin of a bound module is that of the binding package selected if and only if the version first fetched that binds the module gives the same pin |
| Resolver.ResolvedIsMet | cmd/aril/getresolve.go:34-161 | at the end every dependency of the root and of every selected version is met by the selection |
| Resolver.ResolvedIsLeast | cmd/aril/getresolve.go:34-161 | at the end each source is at the commit all its requirements name, or at the least version that meets them all, among the pins and the tags of the registry |
| Resolver.StopsExactly | cmd/aril/getresolve.go:62-101 | a dependency stops the run if and only if its version cannot be read, nothing can be selected, or the version newly selected and the dependency declare different kinds |
| Resolver.RequireKeepsTraced | cmd/aril/getresolve.go:68-101 | after every step each source goes by the name of the dependency that first required it, and each version fetched declares no other kind than a dependency that asked for it |
| Resolver.RoundsInOrder | cmd/aril/getresolve.go:52-124 | manifests are taken in the order their versions were fetched, behind the root |
| Resolver.Worklist.SelectFor | cmd/aril/getresolve.go:185-205 | tags are enumerated once for each source, and only when a range asks |
| Resolver.Worklist.AddDep | cmd/aril/getresolve.go:62-80 | one dependency: the new maps, or the error |
| Resolver.Worklist.ExpandDep | cmd/aril/getresolve.go:81-123 | fetch, kind guard, bound module, queue |
| Resolver.Worklist.LockRows | cmd/aril/getresolve.go:127-160 | one row for each selected or bound source, in order; an Aril dependency wins over a bound module |
| Resolver.LastSegment | cmd/aril/manifest.go:432-437 | what follows the last slash, or all of it |
| Resolver.Worklist.AddDeps | cmd/aril/getresolve.go:55-124 | the dependencies of one manifest: every invariant holds again, or the error of a step; tokens are used up when something is queued |
| Resolver.Worklist.ResolveGraph | cmd/aril/getresolve.go:34-161 | ends, over every registry, in the fixpoint with modules bound by the first fetched, names from the first dependency and kinds that agree, or at a dependency that cannot be read, selected or whose kind differs; either is what so many rounds of the worklist function give |
| Superseded.LeftoversMatterExactly | cmd/aril/getresolve.go:24-33 | requirements besides the live ones leave a selection as the live ones give it if and only if it meets each of them |
| Superseded.SelectionIsLiveExactly | cmd/aril/getresolve.go:24-33 | at the fixpoint a selection is the one asked for by the root and the versions still selected if and only if it also meets what superseded versions asked for |
| Superseded.BoundStaysBehind | cmd/aril/getresolve.go:103-120 | a registry and its run: a binding package rises, and its Go module stays at the old pin |
| Superseded.ConflictIsLeftOver | cmd/aril/getresolve.go:24-33 | a registry and its run: a conflict with a requirement of a version nobody selects |
| Imports.FileTargets | cmd/aril/resolve.go:70-249 | an edge of the graph is an import of one of the files that names another package of the project, or one of a dependency |
| Imports.BindsWhatIsDeclared | cmd/aril/resolve.go:105-243 | what an import binds is what the manifests declare: the table of a kind="go" dependency, or the manifest of a binding package, under the name in go.mod or else the one declared |
| Imports.PathsGoBack | cmd/aril/resolve.go:61-74 | in the order packages are finished, a path only goes back and never meets itself |
| Imports.CycleStops | cmd/aril/resolve.go:63-65 | the trail reported for a cycle is a path whose last directory occurs on it before |
| Imports.Walk.Register | cmd/aril/resolve.go:154-166 | a module is required once, as it was declared; a second table for it is the error |
| Imports.Walk.Visit | cmd/aril/resolve.go:61-249 | a package not yet seen is walked, and finished |
| Imports.Walk.Follow | cmd/aril/resolve.go:83-247 | one import, by class: its package is finished, its binding, itself and its table files are noted |
| Imports.Walk.FollowGo | cmd/aril/resolve.go:105-166 | the same for a Go module: what is required is what the dependency declares, its version and place with it |
| Imports.Walk.FollowExternal | cmd/aril/resolve.go:167-205 | the same for an external package |
| Imports.Walk.BindPackage | cmd/aril/resolve.go:212-243 | the module of a binding package, as its manifest declares it |
| Imports.Walk.ResolvePackages | cmd/aril/resolve.go:53-252 | success: the graph is acyclic and closed under imports, no import is at fault, each package is read under the manifest an import hands it, files, stripped imports and bindings are those of the packages reached, all and nothing else, and every module required has the version and place of an import that declares it with the one table registered; failure: the import reported is at fault, a cycle is a cycle, and of two tables for a module both come from packages reached |
| Imports.DedupeSorted | cmd/aril/resolve.go:405-416 | the same elements, once each, in order |
| Groups.RunsKeepInv | arilrt/concurrency.go:26-58 | what every step of the owner and the tasks keeps |
| Groups.WaitReturns | arilrt/concurrency.go:40-58 | when Wait returns, every task has finished and the context is cancelled; it returns nil exactly when every task did, else the error of the one task that entered the once |
| Groups.CancelledForAReason | arilrt/concurrency.go:40-51 | before Wait cancels, the context is cancelled only for a task that failed |
| Groups.NeverStuck | arilrt/concurrency.go:26-58 | until Wait has returned some step other than a spawn is possible |
| Groups.WaitCanReturn | arilrt/concurrency.go:26-58 | from everywhere a run can get to Wait can return: each such step leaves less to do |
| Scopes.CanLaunchExactly | internal/ast/spawn.go:58-145 | a statement can launch in some run if and only if there is a spawn in it; what the walk sees can |
| Scopes.WalkSeesExactly | internal/ast/spawn.go:58-145 | the walk sees a spawn of a statement if and only if one is left when operands, conditions, subjects, assignment targets, loop heads and communications are blank |
| Scopes.WalkIsExact | internal/ast/spawn.go:58-145 | the walk sees exactly what can launch if and only if the statement holds no spawn or one outside those places |
| Scopes.OperandSpawnIsHidden | internal/ast/spawn.go:113-145 | a spawn in an operand launches and is not seen |
| ScopeJoin.ScopeJoinBeforeIndex | internal/ast/spawn.go:17-33 | before the first close behind the last statement that launches, else at the end |
| ScopeJoin.JoinIndexIsUnique | internal/ast/spawn.go:12-33 | that says which index it is |
| ScopeJoin.JoinedBeforeClose | internal/codegen/concurrency.go:82-123 | in every interleaving, while what has run from the join on holds no spawn, every task has finished without an error and none sends any more |
| ScopeJoin.JoinCoversExactly | internal/codegen/concurrency.go:82-123 | from the join on no task is ever left running if and only if there is no spawn in any statement from there, nor in the value |
| ScopeJoin.StatementIsJoinedExactly | internal/ast/spawn.go:12-33 | a statement behind the last one with a spawn runs with all tasks finished, in every interleaving, if and only if the first statement that is a close behind the last launch the walk sees stands between the two or is that statement |
| ScopeJoin.FanInIsJoinedExactly | internal/ast/spawn.go:12-33 | so the first close behind the last statement with a spawn runs with all tasks finished if and only if some last launch that the walk sees stands before it with no close between; it does when the walk sees that statement |
| ScopeJoin.NestedCloseEscapes | internal/ast/spawn.go:12-33 | a close inside an `if` behind a spawn runs while the goroutine does |
| ScopeJoin.HiddenSpawnEscapes | internal/ast/spawn.go:113-145 | a spawn in an operand before a close: the close runs while its goroutine does |
| ScopeJoin.TrailingValueEscapes | internal/codegen/concurrency.go:107-123 | a spawn in the value of a scope is launched behind the join |
| Channels.ViewsSplitExactly | arilrt/contract.go:46-58 | the views of a channel can come apart, in some continuation of a run, if and only if a registration of it starts while the first is between its stores |
| Channels.OverlapSplits | arilrt/contract.go:46-51 | two registrations that start before either stores its second view |
| Channels.MonitorIsSafe | arilrt/contract.go:64-106 | in every run behind a registration that no other overlaps, a close passes its check exactly if none has passed before, a send exactly unless it is forbidden behind one that has, the drain check exactly behind one; no close crashes, and the channel is closed at most once and only by a close that passed |
| Channels.SendCrashesExactly | arilrt/contract.go:64-74 | a send that passed its check, on a channel whose sends a close forbids, crashes if and only if a close falls between its check and the send |
| Channels.CheckedSendMayCrash | arilrt/contract.go:64-74 | such a run |
| Channels.UnregisteredPasses | arilrt/contract.go:53-106 | every check of a channel nobody registers passes |
| Lexing.Span | internal/lexer/lexer.go:248-254 | the longest start of the text whose characters all satisfy a predicate |
| Lexing.Scan | internal/lexer/lexer.go:205-311 | every step that does not fail consumes a character, and no more than there are |
| TokenKinds.KindsExactly | internal/lexer/lexer.go:205-569 | a text scans as one token of a kind if and only if it is one of the texts of that kind: the reserved words; a letter and then letters and digits, no reserved word and not starting `_aril`; decimals and radix digits; a decimal with a fraction or an exponent; pieces between quotes, with a `${` hole or without; one character or escape in single quotes; the operators; the punctuation |
| TokenKinds.MaximalMunch | internal/lexer/lexer.go:205-424 | no word, number or operator that starts with the text of a token goes on behind it |
| TokenKinds.FailureHasReason | internal/lexer/lexer.go:205-569 | a failure has the reason its code names, at its place: no token starts there; a reserved prefix; a radix without digits or an e without one; a backslash that starts no escape; a quote inside a hole of a string that came so far; a string or comment that has no end; a rune that is none |
| LexingProofs.OperatorIsLongest | internal/lexer/lexer.go:108-116 | the operator taken is the longest the text starts with |
| LexingProofs.TokenCut | internal/lexer/lexer.go:205-311 | a token scans the same cut off behind it, at the end or before a space |
| LexingProofs.RelexingRoundTrip | internal/lexer/lexer.go:131-140 | joining the lexemes of a source that lexes with single spaces and lexing again gives the same kinds and lexemes |
| LexingProofs.StepCovers | internal/lexer/lexer.go:205-342 | what no token covers is a space, a tab, a line end or one comment, a line comment up to the end of its line |
| LexingProofs.PiecesCover | internal/lexer/lexer.go:131-140 | what the steps consume, in order, is the source, or its part before the failure |
| LexingProofs.PositionsCount | internal/lexer/lexer.go:190-202 | the line counts line ends, the column the characters since the last one |
| LexerMachine.Lexer.Advance | internal/lexer/lexer.go:190-202 | offset, line and column move together |
| LexerMachine.Lexer.LexFile | internal/lexer/lexer.go:131-140 | the source is cut into gaps and the tokens emitted, one after the other, each a text of its kind where it starts, up to the end of the file, or up to where the text left fails for the reason the diagnostic names, at its place; and this is what the scanner function says |
| LexerMachine.Lexer.Next | internal/lexer/lexer.go:205-311 | one step: the token emitted, the text consumed, the failure and where it is reported |
| LexerMachine.Lexer.NumberLit | internal/lexer/lexer.go:344-405 | the same for a number |
| LexerMachine.Lexer.ConsumeExponent | internal/lexer/lexer.go:407-424 | the same for an exponent |
| LexerMachine.Lexer.IntLitRadix | internal/lexer/lexer.go:426-452 | the same behind a radix prefix |
| LexerMachine.Lexer.StringLit | internal/lexer/lexer.go:454-510 | the same for a string, with interpolation holes |
| LexerMachine.Lexer.RuneLit | internal/lexer/lexer.go:512-534 | the same for a rune |
| LexerMachine.Lexer.ConsumeEscape | internal/lexer/lexer.go:536-569 | the same for an escape |
| LexerMachine.Lexer.BlockComment | internal/lexer/lexer.go:330-342 | the same for a block comment |
| Newlines.SuppressBracketNewlines | internal/parser/parser.go:51-81 | the loop over depth and stack keeps the tokens the specification keeps |
| Newlines.OthersAreKept | internal/parser/parser.go:51-81 | every other token is kept, in order |
| Newlines.SuppressionIsIdempotent | internal/parser/parser.go:51-81 | suppressing again changes nothing, for any stream |
| Newlines.DroppedExactlyInBrackets | internal/parser/parser.go:39-81 | while brackets nest well, a newline is dropped exactly when the innermost open bracket is `(` or `[` |
| Newlines.DroppedExactly | internal/parser/parser.go:51-81 | in any stream, nested well or not, a newline is dropped exactly when the innermost bracket still open is `(` or `[`, where `)` and `]` close the innermost one inside the block and `}` the block with all that is open in it |
| Containers.Map.Set | arilrt/containers.go:42-47 | an overwritten key keeps its place, a new one goes to the end |
| Containers.Map.Delete | arilrt/containers.go:49-60 | the key is gone, the others stay in order |
| Containers.Map.Get | arilrt/containers.go:35-40 | the value under the key, if any |
| Containers.Map.Keys | arilrt/containers.go:62-66 | the keys in order |
| Containers.Map.Values | arilrt/containers.go:68-74 | the values in the order of the keys |
| Containers.RunsKeepKeysDistinct | arilrt/containers.go:17-60 | over any run of operations no key occurs twice |
| Containers.DeleteThenSetMovesToEnd | arilrt/containers.go:42-60 | overwriting keeps a key's place, deleting it first moves it to the end |
| Containers.KeysAndValuesAlign | arilrt/containers.go:62-74 | the i-th value is what the i-th key looks up |
| Containers.OrderedSet.From | arilrt/containers.go:99-105 | the elements, once each, in the order they first occur |
| Containers.OrderedSet.Add | arilrt/containers.go:110-116 | a new element goes to the end |
| Containers.OrderedSet.Delete | arilrt/containers.go:118-129 | exactly that element is gone |
| Containers.LastInFirstOut | arilrt/containers.go:159-170 | on any stack, what is pushed comes off in reverse order, and the stack is as before |
| Containers.Stack.Pop | arilrt/containers.go:161-170 | off the top, or an error |
| Containers.List.Insert | arilrt/containers.go:246-257 | shifting in place puts the element at the clamped index |
| Containers.List.RemoveAt | arilrt/containers.go:259-266 | removes an index in range, and only that |
| Containers.RemoveUndoesInsert | arilrt/containers.go:246-266 | RemoveAt undoes Insert exactly at the indices Insert does not clamp |
| Containers.InsertedWhere | arilrt/containers.go:246-266 | a negative index inserts before the first element, one past the end behind the last; an index out of range removes nothing |
| Lockfile.WriteLock | cmd/aril/lockfile.go:32-48 | prints the two header lines, and, sorted by name, each entry with its five fields spelled out |
| Lockfile.ReadLock | cmd/aril/lockfile.go:75-123 | the entries or the error the lines give |
| Lockfile.FileReadsExactly | cmd/aril/lockfile.go:75-123 | a file is read if and only if every line is blank but for a comment, a header, or, behind a header, one of the five keys with a quoted value |
| Lockfile.AssignmentReads | cmd/aril/lockfile.go:96-120 | such a line sets that field of the last entry to the text between the quotes; otherwise it is the first error of a missing header, a value without quotes, an unknown key |
| Lockfile.ReadLinesKeepClean | cmd/aril/lockfile.go:75-123 | what is read holds no newline and no `#` |
| Lockfile.RoundTripExactly | cmd/aril/lockfile.go:32-123 | reading what was printed gives the same entries exactly when no field holds a newline or a `#` |
| Lockfile.LockRoundTrip | cmd/aril/lockfile.go:32-123 | writing then reading gives the entries sorted by name under the same condition |
| Lockfile.FieldReadsBack | cmd/aril/manifest.go:390-403 | a printed field line reads back as its value |
| Strings.JoinSplit | cmd/aril/lockfile.go:86-86 | joining what a separator splits gives the text back |
| Strings.StringLessExactly | cmd/aril/resolve.go:405-416 | the order texts are sorted in: the first difference decides, or a proper prefix comes first |
| Strings.SpacesExactly | cmd/aril/lockfile.go:86-87 | what TrimSpace takes off are the code points that Unicode calls White_Space |
| Strings.AtoiOfSpell | cmd/aril/version.go:46-73 | a number printed in decimal reads back, up to 64 bits |

## Left out

- StatementPreserved: requires what the exact conditions above ask of each handler, match and loop (no shadowed callee, no live case behind a default, no captured break the scan misses); a run is cut off after a number of loop iterations that is a parameter, equal on both sides. Values are untyped, so that a match without a catch-all arm is always taken to leave some value out, also one on a bool with both arms.
- HoistingIsExact: every index, division and store to an element is taken to be able to panic, also a division by a constant or a store to a map; a store through a field of an element is a store to a field; what a statement does with its operands comes behind them.
- ChoiceAgrees: a variant is looked up by its name, as in the generator's table, on both sides; two user sums cannot share a name (E0104), but a user variant that reuses a predeclared one, as `Ok`, is not told apart from it.
- JoinedBeforeClose: an early `return` inside the scope body leaves without Wait and is outside the model; a `try` there is rejected (E0402).
- MonitorIsSafe: the channel is registered before its first use, and no registration of it overlaps the first; ViewsSplitExactly says what happens else.
- Containers: keys and elements equal themselves; a float NaN, which Go lets be a key and never finds again, is not modelled.
- ResolveGraph: commit hashes, tree hashes and what is carried over from the previous lockfile are not kept; they do not influence the selection. The rows of the lock are LockRows.
- Groups and Channels are state machines on values, not classes, because what matters is the interleaving of many goroutines; the memory model below a step is left out.
- Labels and temps carry the identity of the syntax node instead of a counter; emitted Go text, indentation, type arguments and `//line` directives are not modelled.
- Value-position match and if (wrapped in a func literal), closures, destructuring, and spawn bodies are not part of the statement model; calls, but for their callee, and operators are atoms there, since hoisting is modelled on its own.
- Characters stand for UTF-8 bytes in the scanner; the wording of diagnostics, file names and line numbers of lockfile errors are left out.
- The file system, git, the network and the package cache are arbitrary finite tables; a manifest is what has been parsed, and its line parser is not modelled beyond comments and quoted strings.
- A package directory is governed by the first manifest that reaches it, as in the code; whether manifests agree is not asked.
- Read errors of a tag list, rewriting the manifest in place, and the outer loop of `aril upgrade` over dependencies are left out.
- Parsers, sema apart from the catch check, the binding registry, the REPL, JSON, reflection and BigInt helpers are left out.
- Deadlock on unbuffered channels is not excluded.
