# Verified model of the Serv compiler core and its runtime protocols

Serv is a small service language compiled to Go. This project models the parts of the
compiler, the runtime and the tools whose correctness is hard to see from the code, and
proves what they are for. `dafny verify dfyconfig.toml` checks all of it.

## What is modelled

**Meaning-preserving optimization** (`Ast`, `GoInt`, `Semantics`, `Optimizer`,
`OptimizerRelation`, `OptimizerSimulation`, `OptimizerMeaning`, `OptimizerAsserts`,
`OptimizerForm`, `Folding`, `Laws`, `StaticTypes`, `Flow`). `Semantics` gives Serv
programs a fuel-indexed big-step meaning: 64-bit wrap-around integers, division that
truncates, block scoping, closures, handlers that are registered now and served later,
and the outcomes normal, return, break, continue, panic and out of fuel. Library calls,
floating-point operations and everything else outside the language are an arbitrary
"world", which may keep what it is given in the heap, log effects, and call the
functions it is handed any number of times, as `map` or `filter` do, deciding what to do
next by what they answer. It is required only not to look inside the code of a closure
(`Parametric`); `LoggingWorldIsParametric` gives a world of that kind. The optimizer
rewrites the bodies of closures and handlers, so the proof is a simulation: values are
related when they agree up to such bodies. The main theorem,
`OptimizePreservesBehaviour`, says that the value or panic of a program, its final
variables and objects, its log of effects and its answers to any sequence of later
requests are the same before and after, at every fuel, unless a comparison under an
`assert` folds. Around it: `Folding` says what every operator folds to, apart from the
semantics, and which literals fold at all; the optimizer reaches a syntactic normal
form, is idempotent and never enlarges a program; it leaves static types alone, which
are right about the operators of the language; a block the flow analysis accepts cannot
fall off its end, and it accepts every block whose last statements leave no way off; and
the statements the analysis reports as unreachable are exactly those behind the point
where the optimizer cuts. `Laws` are small programs that show what the semantics says.

**Parsing and printing expressions** (`Syntax`, `Parsing`, `Parser`, `RoundTrip`,
`Terms`, `Precedence`, `Pipes`, `Lookahead`). `Parser` is the parser as a class over its
two-token window, with the loops of the original; `Parsing` is the same as functions on
the token list. Proved: printing a tree and parsing it gives the tree back, with no
error, from inside any text that does not continue the expression, although the parser
guesses at generic calls, struct literals and parameter lists by looking ahead; and of
text without parentheses (operands with signs, calls, fields, indexes, slices and `?`,
with operators, pipes and assignments between them) the parser makes the one tree in
which products bind tighter than sums, those tighter than comparisons, and so on down to
assignments.

**Edit distance** (`EditDistance`). The table against edit scripts: its last entry is
the cost of a shortest script, and that cost is a metric.

**Dependency graphs** (`Graphs`, `Workflow`, `WorkflowMeaning`, `WorkflowNeeds`,
`WorkflowCheck`, `ImportedStatements`, `Imports`). The three-colour depth-first search,
in the workflow check and in the import loader. The needs of a workflow's steps are
defined apart from the check, from the free identifiers of every `let` and function at
any depth, and compared with what the check sees. A program that loads is merged from
the statements that its imports let through.

**Actors** (`ActorProtocol`, `ActorDeadlock`, `ActorCycle`, `ActorFamilies`, `Circles`).
Any number of actors and of other goroutines sending to and asking the actors, in any
interleaving. A `receive` may call any actor, its own included, and go by the answers.
Each actor is serial, keeps every sender's order and answers each ask once; and the
family can deadlock only if some actors may message each other in a circle.

**Debug adapter framing** (`Scanner`, `Framing`, `Headers`), **source maps**
(`SourceMaps`), **the cache** (`CacheProtocol`), **the formatter** (`Formatter`,
`FormatterRules`), **raw strings** (`Dedent`), **cron schedules** (`CronFields`,
`CronWritten`, `CronSchedule`, `Counters`) and **package aliases** (`Aliases`).
`GoStrings` holds the functions of Go's `strings`, `strconv` and `fmt` packages that
these call.

Some properties one would expect are false of the code. Each comes with the exact
condition under which it holds, and with an input on which it fails:

- Optimizing an `assert` changes nothing: `assert 9007199254740993 > 9007199254740992`
  fails, for the run time compares in float64, and passes once it is folded
  (`HugeAssertPasses`). An `assert` of a comparison is safe from the optimizer if and
  only if the comparison does not fold (`AssertSafeIff`), and a program without one that
  folds keeps its meaning (`OptimizePreservesBehaviour`).
- No live entry is lost from the cache: `LiveEntryCanBeLost` loses one. A set can be
  lost if and only if, when it is made, some read under way has found an older entry of
  the key expired, or holds one that expires sooner (`SetCanBeLostIff`); a run without
  such sets finds every live entry (`UnthreatenedSetsAreFound`).
- Every ask is answered: two actors that ask each other can deadlock
  (`AskEachOtherDeadlock`), and so can one that asks itself (`AsksItselfDeadlocks`). If
  no actors may message each other in a circle and every `receive` makes a bounded
  number of calls, every ask is answered (`EveryAskIsAnswered`). Where these calls do
  not depend on answers this is exact: the family can deadlock, and an ask hang for
  ever, if and only if there is such a circle (`CanDeadlockIff`, `CanHangIff`). Where
  they do, a circle is no proof (`AskFirstNeverDeadlocks`).
- The splitter does not crash: one call panics if and only if the header is complete and
  declares a length below zero or one that overflows (`SplitPanicsIff`), and reading a
  stream does if and only if the first message whose headers declare no length that fits
  declares such a one (`StreamPanicsIff`); every negative length is an input
  (`NegativeLengthPanics`).
- The workflow check finds every cycle of needs: it misses one in an array literal, in a
  callback, in a `try` and behind a second `let` of the name (`ArrayCycleMissed`,
  `CallbackCycleMissed`, `TryCycleMissed`, `OverwrittenCycleMissed`). It misses none if
  every definition stands where it walks, is the only one of its name, and has all its
  free identifiers found (`NoCycleMissed`), as in every workflow of names, literals,
  operators, calls, indexes, fields and `await` in blocks, branches and loops
  (`AnalyzeWorkflowDAG`); each of the three conditions is needed, for
  every initialiser (`HiddenPlaceMissesCycle`, `OverwrittenStepMissesCycle`, `SafeIff`),
  and any need it does not see can be completed to a cycle it misses
  (`UnseenNeedMissesCycle`). The identifiers found decide the value of an initialiser
  without closures and short-circuit operators if and only if every identifier in an
  evaluated position is found (`ReferencesDecideIff`).
- The formatter's level is the balance of the braces: a comment in cmd_fmt.go takes
  `} else {` to be handled, but the level drops there (`ElseLosesLevel`). It is the
  balance everywhere in a file if and only if every line follows its braces, which the
  text alone tells (`LevelFollowsBracesIff`, `LevelIsBalanceIff`).
- The debugger and the build map lines alike: exactly if no two lines in a row announce
  different Serv lines (`MapsAgreeIff`). A Serv line survives the way to Go and back
  exactly if the line behind its first mark announces no other (`RoundTripIff`). Two
  marks in a row break both (`AdjacentMarksDisagree`).
- Matching a cron field ends: `*/0` goes round for ever on every value but the first
  (`ZeroStepForEver`). The loop counter has 64 bits and wraps around, so the loop over a
  range ends if and only if the value, or some number behind the end, differs from the
  start by a multiple of the greatest power of two in the step (`RangeEndsIff`). If the
  step is at least 1 and nothing wraps around, it ends and covers an arithmetic
  progression (`ForwardIsProgression`); else a range may cover more, as
  `10/9223372036854775805` covers 4 (`HugeStepWraps`).
- Names can be imported from a file in two places: the second import finds the file read
  already and nothing in it, so a program loads only if no two statements that can be
  reached import names from the same file (`LoadProject`, `DiamondSelectsTwice`). Where
  each file that names are imported from is imported by one statement alone, a program
  loads if and only if it is in order (`ErrorIsDisorder`, `LoadProject`).
- `x[:]` is a slice: the parser refuses it (`BareSliceRefused`) and reads every other
  form of slice (`ReadsSlice`).
- The type inferred for an operator is that of its result: exactly if it is no guess that
  an operand of unknown type beside an integer is one too (`InferenceRightIff`), which a
  float proves wrong (`GuessCanBeWrong`).

## Model

| member | source | states |
|---|---|---|
| OptimizerMeaning.OptimizePreservesBehaviour | compiler/optimizer.go:9-361 | For every program in which no asserted comparison folds, every world that does not look inside closures (it may store them and call them back), every fuel and sequence of later requests, the observable behaviour (outcome, variables, objects, effects, answers) is the same before and after optimization. |
| OptimizerSimulation.SimExpr | compiler/optimizer.go:195-361 | An expression, optimized or not, evaluates to related values in related stores. |
| OptimizerSimulation.SimStmt | compiler/optimizer.go:23-193 | A statement and its optimized form end with the same outcome and related stores; a statement the optimizer drops does nothing. |
| OptimizerSimulation.SimLibrary | compiler/optimizer.go:195-361 | A library routine that calls the functions it is handed makes related calls, gets related answers and ends alike, whether those functions were optimized or not. |
| OptimizerMeaning.SimServe | compiler/optimizer.go:97-180 | Handlers registered by the optimized program answer any requests as the original ones do. |
| OptimizerRelation.FoldIsNative | compiler/optimizer.go:371-519 | A folded operator on two literals is the operator the generated code would apply: int64 wrap-around, truncating division, never a division by zero. |
| OptimizerRelation.FoldInfixSound | compiler/optimizer.go:201-254 | Replacing an infix node by its folded literal changes no evaluation. |
| OptimizerMeaning.LoggingWorldIsParametric | compiler/optimizer.go:9-21 | The assumption on the outside world can be met by one that stores arrays of values, closures included, in the heap, calls back a function it is handed, logs, returns values and panics. |
| OptimizerAsserts.AssertSafeIff | compiler/codegen_expr.go:1625-1655 | No world tells an `assert` of a comparison from its optimized form if and only if the comparison does not fold. |
| OptimizerAsserts.HugeAssertPasses | runtime/perf.go:88-111 | With a run time that compares in float64, a false-looking comparison of huge integers fails as written and passes optimized. |
| GoInt.WrapIsCongruent | compiler/optimizer.go:371-414 | Wrap is the one int64 congruent to its argument modulo 2^64. |
| GoInt.TruncDivSpec | compiler/optimizer.go:371-414 | Quotient and remainder recombine; the remainder takes the sign of the dividend. |
| GoInt.StrLessTotal | compiler/optimizer.go:455-499 | Byte-wise string order is total and antisymmetric. |
| GoInt.StrLessIff | compiler/optimizer.go:473-496 | One string comes before another if and only if it is a proper prefix, or has the smaller byte where they first differ. |
| GoInt.TruncIsUnique | compiler/optimizer.go:380-391 | No other quotient and remainder recombine with a remainder smaller than the divisor and signed like the dividend. |
| Folding.StringsFold | compiler/optimizer.go:455-499 | What every operator makes of two string literals: concatenation, equality, and the four comparisons by first difference; the others stay. |
| Folding.SumsFold | compiler/optimizer.go:371-379 | A sum, difference or product of integer literals folds to the one int64 congruent to the exact result modulo 2^64. |
| Folding.QuotientsFold | compiler/optimizer.go:380-391 | Quotient and remainder of integer literals are those rounded toward zero; the one quotient that does not fit is the smallest int64. |
| Folding.ComparisonsFold | compiler/optimizer.go:392-414 | Comparisons of integer literals fold to their truth; a division by zero and every other operator stay. |
| Folding.FloatsFold | compiler/optimizer.go:416-453 | With a float on either side the other is converted and the float operation applied; a division by zero stays. |
| Folding.BooleansFold | compiler/optimizer.go:501-519 | Two boolean literals fold under and, or, equality and inequality, and under nothing else. |
| Folding.PrefixesFold | compiler/optimizer.go:256-286 | Minus of a number and the negation of a boolean fold, and nothing else does. |
| Folding.FoldsIff | compiler/optimizer.go:201-254 | An infix node becomes a literal if and only if its optimized operands are literals of kinds that its operator folds; else it stays with those operands. |
| Optimizer.Optimize | compiler/optimizer.go:9-21 | The statement loop computes OptProgram. |
| Optimizer.OptimizeBlock | compiler/optimizer.go:29-43 | The block loop, with its early exit behind a terminator, computes OptStmts. |
| Optimizer.OptimizeStatement | compiler/optimizer.go:23-193 | Computes OptStmt, the statement pass the theorems are about. |
| Optimizer.OptimizeExpression | compiler/optimizer.go:195-361 | Computes OptExpr, the expression pass the theorems are about. |
| OptimizerForm.OptimizeReachesNormalForm | compiler/optimizer.go:28-286 | Optimized programs have nothing behind a terminator, no constant condition and no foldable operator; a program is left alone exactly when it is in that form; optimizing twice is optimizing once. |
| OptimizerForm.OptimizeNeverEnlarges | compiler/optimizer.go:9-361 | Optimization never increases the number of nodes. |
| StaticTypes.OptimizeKeepsType | compiler/codegen_types.go:77-301 | The code generator infers the same type for an expression before and after optimization. |
| StaticTypes.InfixTypeIsRight | compiler/codegen_types.go:228-254 | Wherever the language defines an operator on two values, the type inferred from their types is that of the result. |
| StaticTypes.InferenceRightIff | compiler/codegen_types.go:228-254 | For operands of any two types, known or not, the inferred type is right about all values if and only if it is no guess that an operand beside an integer is one. |
| StaticTypes.GuessCanBeWrong | compiler/codegen_types.go:242-247 | A float in the place of such an operand proves the guess wrong. |
| StaticTypes.LiteralTypeIsRight | compiler/codegen_types.go:84-109 | A literal is typed as the value it evaluates to. |
| StaticTypes.PrefixTypeIsRight | compiler/codegen_types.go:284-289 | The negation of a condition is typed as the boolean it gives, minus of a number as that number. |
| StaticTypes.ArrayTypeIff | compiler/codegen_types.go:88-105 | An array literal has a known element type if and only if it is not empty and all its elements are of that type. |
| Laws.Conditions | compiler/codegen_helpers.go:29-48 | As a condition 0, the empty string, false and nil are false, other numbers and strings and true are true. |
| Laws.ShortCircuit | compiler/codegen_expr.go:1366-1367 | A left side that decides leaves the right side of a logical operator unevaluated; else the right side is the value. |
| Laws.Leaving | compiler/codegen_stmt.go:221-238 | A `break` ends the loop alone and a `return` what is around it. |
| Laws.ContinueGoesOn | compiler/codegen_stmt.go:221-238 | A loop whose body is `continue` runs like one with an empty body. |
| Laws.FirstItem | compiler/codegen_stmt.go:182-219 | The loop variable of `for x in xs` is the first value at first, and the key variable its key. |
| Laws.LeavingItems | compiler/codegen_stmt.go:182-219 | A `break` ends a loop over values as well. |
| Laws.ContinueItems | compiler/codegen_stmt.go:182-219 | With `continue` alone such a loop goes over all its values. |
| Laws.Catching | compiler/codegen_stmt.go:1450-1468 | The catch block runs on a panic alone and sees what was thrown. |
| Laws.LetAgain | compiler/codegen_stmt.go:1096-1115 | A second `let` of a name in one function assigns, as a function literal made in between can tell. |
| Laws.Assigning | compiler/codegen_expr.go:1398-1475 | An assignment leaves the value in the variable, and a compound assignment what its operator makes of the old value and the new. |
| Laws.DefaultIsLast | compiler/codegen_stmt.go:479-507 | A case that is equal runs even behind the default. |
| Flow.BlockHasReturn | compiler/analyze_flow.go:4-42 | The recursion with its default flag computes Returns. |
| Flow.ReturnsIsSound | compiler/analyze_flow.go:4-42 | No execution of an accepted block completes normally. |
| Flow.ReturnsIff | compiler/analyze_flow.go:4-41 | A block is accepted if and only if no choice of branches at its last statements leads to a block without a return, an `if` without else or a match without default. |
| Flow.AnalyzeUnreachableCode | compiler/analyze_flow.go:44-94 | The diagnostics are one report for each block the analysis enters, in order. |
| Flow.EnteredIff | compiler/analyze_flow.go:65-91 | A block is entered if and only if a path of statements and branches leads to it with no return, break or continue before any statement on it. |
| Flow.CutIff | compiler/analyze_flow.go:65-72 | The cut is the first direct return, break or continue. |
| Flow.DiagnosticsAreCuts | compiler/analyze_flow.go:44-94 | A position is reported if and only if it is that of the statement right behind the first terminator of an entered block, and known. |
| Flow.NothingRunsAfterCut | compiler/analyze_flow.go:52-64 | What is behind the first terminator is never executed: any other tail gives the same run. |
| Flow.OptimizerCutsThere | compiler/optimizer.go:29-43 | The optimizer truncates the block at the same place and keeps the terminator last. |
| Parser.ExpressionParser.NextToken | compiler/parser.go:153-156 | Moves the two-token window by one. |
| Parser.ExpressionParser.ExpectPeek | compiler/parser.go:381-393 | Advances on the wanted token, or on a keyword where an identifier is wanted, which it makes one; else records an error and stays. |
| Parser.ExpressionParser.IsTypeArgsAhead | compiler/parser_expr.go:103-164 | The bounded lookahead for type arguments, on a copy of the lexer. |
| Parser.ExpressionParser.ParseExpression | compiler/parser_expr.go:8-31 | The climbing loop computes Expression. |
| Parser.ExpressionParser.ParsePrefixExpression | compiler/parser_expr.go:33-41 | Reads an operator and its operand. |
| Parser.ExpressionParser.ParseIdentifier | compiler/parser_expr.go:43-101 | Decides between a name, a generic call and a struct literal by lookahead. |
| Parser.ExpressionParser.ParseGroupedExpression | compiler/parser_expr.go:350-358 | Reads a parenthesised expression. |
| Parser.ExpressionParser.ParseInfixExpression | compiler/parser_expr.go:360-372 | Reads the right operand at the operator's own precedence. |
| Parser.ExpressionParser.ParseExpressionList | compiler/parser_expr.go:380-402 | The argument loop computes List. |
| Parser.ExpressionParser.ParseIndexExpression | compiler/parser_expr.go:464-507 | Tells an index from a slice. |
| Parser.ExpressionParser.ParseMemberExpression | compiler/parser_expr.go:411-439 | Reads a field name, which may be a keyword. |
| Parser.ExpressionParser.ParseArrayLiteral | compiler/parser_expr.go:256-284 | The element loop, with spreads, computes ArrayForm. |
| Lookahead.ExpectedName | compiler/parser.go:381-393 | Where a name is wanted a keyword becomes one; another token is reported and stays. |
| Lookahead.KeywordsAreNames | compiler/parser_expr.go:9-18 | A keyword without a form of its own is read as a name. |
| Lookahead.BuiltinsAreNames | compiler/parser.go:85-101 | The names of builtin objects stand for themselves, whatever comes behind. |
| Lookahead.TypeArgsFit | compiler/parser_expr.go:103-164 | The lookahead recognises a list of type names if and only if it has at most ten and the right token behind its bracket. |
| Lookahead.GenericCall | compiler/parser_expr.go:43-69 | A name with up to ten type arguments and printed arguments is read as that call. |
| Lookahead.ParamsAreNoCall | compiler/parser.go:395-418 | A name in parentheses in front of a brace is left to be a parameter list. |
| Lookahead.BlockOrStruct | compiler/parser_expr.go:166-185 | A brace behind a name opens a struct literal if and only if it closes at once or a field with a colon follows; else the name is read alone. |
| Lookahead.NumberIsLiteral | compiler/parser_expr.go:224-235 | A decimal number is an integer literal, with its value, if and only if it is below 2^63. |
| Lookahead.LeadingZero | compiler/parser_expr.go:224-235 | Behind a leading zero the digits are octal, and 8 and 9 are refused. |
| RoundTrip.PrintParseRoundTrip | compiler/ast.go:743-853 | Parsing the printed form of any printable tree gives the tree back, with no error. |
| RoundTrip.ReadsExpression | compiler/parser_expr.go:8-31 | The same in context: in front of any tokens that do not continue the expression, exactly the printed tokens are consumed. |
| RoundTrip.IndexIsSafe | compiler/parser_expr.go:103-164 | The type-argument lookahead never fires on a printed index. |
| RoundTrip.ArgsAreNotParams | compiler/parser.go:395-418 | The parameter-list lookahead never fires on printed arguments. |
| Terms.ReadsTerm | compiler/parser_expr.go:20-30 | An operand as it is written, with signs, calls, fields, indexes, slices and `?`, is read whole; signs apply last. |
| Terms.ReadsSlice | compiler/parser_expr.go:464-499 | Each form of slice with a bound gives that slice, with nothing read beyond its bracket. |
| Terms.BareSliceRefused | compiler/parser_expr.go:469-480 | A slice without bounds is an error: the bracket is asked for a second time. |
| Precedence.TighterIff | compiler/parser.go:22-54 | One operator has the higher number in the precedence table if and only if its set binds tighter; all are above pipes and none above a sign. |
| Precedence.ParsesByPrecedence | compiler/parser_expr.go:8-31 | On operands and operators in alternation, written without parentheses, the parser yields a tree if and only if it has that yield, no left child binds looser than its parent and every right child binds tighter, by sets of operators: products, sums, comparisons, logic. |
| Precedence.ShapedIsUnique | compiler/parser_expr.go:360-372 | There is only one such tree. |
| Precedence.TwoOperators | compiler/parser_expr.go:360-372 | For all operands and any two operators, the second is applied first if and only if it binds tighter. |
| Precedence.SignsBindFirst | compiler/parser_expr.go:33-41 | Minus and `!` in front of an operand are applied before any operator behind it. |
| Pipes.PipesGroupLeft | compiler/parser_expr.go:594-615 | Between pipes every operator is applied first, and each stage is called with all that comes before it as first argument. |
| Pipes.AssignmentTakesAll | compiler/parser_expr.go:441-462 | An assignment, compound assignment or arrow takes the whole run before it and the whole expression behind it; a target that cannot be assigned is an error. |
| Pipes.AssignsPiped | compiler/parser_expr.go:441-462 | The value of an assignment takes in operators and pipes. |
| EditDistance.Levenshtein | compiler/errors.go:186-218 | The in-place table gives the cost of a shortest insert/delete/substitute script. |
| EditDistance.Min3 | compiler/errors.go:220-230 | The result is a lower bound of the three and one of them. |
| EditDistance.EntryIsDistance | compiler/errors.go:202-215 | Some script costs what the table's entry says, and none costs less. |
| EditDistance.DistanceIsUnique | compiler/errors.go:186-218 | Two strings have one distance, so the table's entry is the only number with that property. |
| EditDistance.ZeroIffEqual | compiler/errors.go:186-218 | The distance is zero exactly for equal strings. |
| EditDistance.DistanceIsSymmetric | compiler/errors.go:186-218 | The distance is the same in both directions. |
| EditDistance.TriangleInequality | compiler/errors.go:186-218 | A detour is never shorter. |
| EditDistance.OneEdit | compiler/errors.go:202-215 | A byte more, and another byte in a place, are at distance one. |
| EditDistance.FindSimilarKeyword | compiler/errors.go:167-183 | For the token in lower case: the first keyword in the list that at most two edits reach and that is not the token itself; empty exactly if there is none. |
| WorkflowCheck.AnalyzeWorkflowDAG | compiler/analyze.go:432-509 | A diagnostic if and only if the dependencies have a cycle, whatever the map order; its text spells out a closed walk of steps that need each other; no diagnostic means that all steps can be scheduled. In a plain workflow, a diagnostic if and only if steps need each other in a circle. |
| Workflow.Analyzer.AddLets | compiler/analyze.go:438-463 | The walk over the body records the lets of blocks, branches and loops, the last let of a name winning. |
| Workflow.Analyzer.DetectCycle | compiler/analyze.go:468-490 | The search ends; it returns a closed walk, or has finished the node with everything it depends on. |
| Workflow.Analyzer.CycleAlong | compiler/analyze.go:473-479 | The path always contains the node being visited, so the fallback is never reached. |
| Workflow.Analyzer.FindCycle | compiler/analyze.go:492-506 | Starting from every name in any order finds a cycle or a schedule. |
| Workflow.LastLetDecides | compiler/analyze.go:450-452 | A name depends on what its last let refers to, and a name without a let on nothing. |
| Workflow.BackwardReferencesHaveNoCycle | compiler/analyze.go:432-509 | Lets that refer only to earlier names never form a cycle. |
| WorkflowMeaning.EvaluatedDecide | compiler/analyze.go:511-539 | The value of an expression without closures depends on nothing but the identifiers in its evaluated positions. |
| WorkflowMeaning.ReferencesDecideIff | compiler/analyze.go:511-539 | The identifiers found decide the value of an expression without closures and short-circuit operators if and only if every identifier in an evaluated position is among them. |
| WorkflowNeeds.CheckAgainstNeeds | compiler/analyze.go:432-539 | A reported cycle is one of needs; and if every need is among the dependencies collected, no cycle of needs goes unreported. |
| WorkflowNeeds.FreeAreEvaluated | compiler/analyze.go:511-539 | The free identifiers contain the evaluated ones and, in an expression without function literals, are no others. |
| WorkflowNeeds.NoCycleMissed | compiler/analyze.go:432-539 | If every definition stands where the check walks, is the only one of its name and has all its free identifiers found, a cycle is reported if and only if the needs have one. |
| WorkflowCheck.FindsPlain | compiler/analyze.go:511-539 | In names, literals, operators, calls, indexes, fields and `await` exactly the free identifiers are found. |
| WorkflowCheck.WalksPlain | compiler/analyze.go:441-463 | The walk meets every definition of a body of lets in blocks, branches and loops. |
| WorkflowCheck.PlainIsInFullView | compiler/analyze.go:432-539 | So in a workflow of these, with one step of a name, the dependencies have a cycle if and only if the needs do. |
| WorkflowNeeds.UnseenNeedMissesCycle | compiler/analyze.go:432-509 | Whenever a need of some step is not seen and nothing is reported, steps can be added that make a cycle of needs and still nothing is reported. |
| WorkflowNeeds.SafeIff | compiler/analyze.go:511-539 | An initialiser misses no cycle with any second step if and only if all its free identifiers are found. |
| WorkflowNeeds.HiddenPlaceMissesCycle | compiler/analyze.go:441-463 | A definition inside any statement that is not walked is in a cycle of needs that is not reported. |
| WorkflowNeeds.OverwrittenStepMissesCycle | compiler/analyze.go:450-452 | So is a step whose name a later one has. |
| WorkflowNeeds.ArrayCycleMissed | compiler/analyze.go:511-539 | Two steps that need each other, one inside an array literal, are a cycle of needs that is not reported. |
| WorkflowNeeds.CallbackCycleMissed | compiler/analyze.go:511-539 | A cycle through a callback handed to a method is not reported. |
| WorkflowNeeds.CallbackReads | compiler/analyze.go:511-539 | Such a callback does read the variable: another value in it changes what the call evaluates to. |
| WorkflowNeeds.TryCycleMissed | compiler/analyze.go:441-463 | A cycle inside a `try` is not reported. |
| WorkflowNeeds.OverwrittenCycleMissed | compiler/analyze.go:450-452 | A cycle whose first step is let again behind it is not reported. |
| Graphs.SchedulableIsAcyclic | compiler/analyze.go:465-490 | A graph with a complete schedule has no cycle. |
| Imports.Loader.ParseWithDependencies | cmd_build.go:862-999 | Ends on every import graph; reads no file twice; its error is true of the program; success finishes the file and yields statements of newly read files only, none twice: its own in order, every nameless one of each, and of each file it is the first to import just what the import lets through. |
| Imports.Loader.LoadImports | cmd_build.go:893-995 | The loop over the statements of a file keeps that while it merges. |
| Imports.Loader.LoadMatches | cmd_build.go:916-943 | A wildcard without a match is the error NoMatch for this file; otherwise success means that every match was loaded, and all statements of each newly read one were added. |
| Imports.Loader.LoadImport | cmd_build.go:945-989 | An import of names from a file met before is an error; otherwise success loads the file, adds all its nameless and exported statements and no others of it, and every name asked for is declared. |
| Imports.Loader.CheckNames | cmd_build.go:951-989 | The check of the names: the error is true, and without one every name is an exported statement of the file. |
| Imports.LoadProject | cmd_build.go:862-999 | Ends and reads no file twice. An error is true of something reachable from the entry: an import cycle, a file that cannot be read or parsed, a wildcard without a match, a name that the file asked does not declare or export, or whose file another statement imports as well. Success means that none of these holds but the last, that every reachable file was read, and that no two statements import names from the same file. The merged program holds the entry's own statements in order, every nameless statement of every reachable file, of each file that the entry is the first to import its nameless and exported statements and no others, every name asked for, nothing twice and nothing else but bare statements of files read. |
| Imports.FirstImportTaken | cmd_build.go:977-989 | Statement by statement: what an import lets through is in the merged program under its file, number and name, and what it does not is not. |
| Imports.ErrorIsDisorder | cmd_build.go:862-999 | Where each file that names are imported from is imported by one statement alone, an error means a program not in order: so loading succeeds if and only if it is. |
| ImportedStatements.KeptAre | cmd_build.go:977-989 | What an import keeps of a file: all statements behind a wildcard, else the nameless and the exported ones, each once, in order and without its export. |
| ImportedStatements.OwnOfTaken | cmd_build.go:924-943 | Of the statements of the imported file itself exactly these are taken over. |
| ImportedStatements.UnnamedPass | cmd_build.go:981-985 | No import drops a statement that declares no name. |
| ImportedStatements.ImportAdds | cmd_build.go:951-989 | A selective import that passes its check declares every name asked for, and named statements come from its file alone. |
| Imports.DiamondSelectsTwice | cmd_build.go:862-870 | Two files that import the same name of a third break that, though the third exports it and no import is circular. |
| ImportedStatements.VisibleAre | cmd_build.go:977-989 | An import takes over exactly the statements without a name and the exported ones, their export taken off, in their order. |
| ImportedStatements.ReexportsDropped | cmd_build.go:977-989 | What was itself taken over by an import is bare, so only statements without a name pass through two imports. |
| ImportedStatements.VisibleIsPart | cmd_build.go:977-989 | What an import takes over are statements of the imported program, none twice. |
| ImportedStatements.FirstBadName | cmd_build.go:951-975 | A selective import passes if and only if every name is exported there; else its error is about the first that is not, and tells one that does not exist from one that is not exported. |
| ActorFamilies.ActorIsSerial | compiler/codegen_stmt.go:1541-1550 | In every interleaving each actor's fields are the fold of receive over the messages handled, one whole run of receive after the other, and its mailbox never holds more than 100. |
| ActorFamilies.MailboxTakesAHundred | compiler/codegen_stmt.go:1566 | A message waiting for a mailbox gets in if and only if it holds fewer than 100. |
| ActorFamilies.HandledInSendOrder | runtime/actor.go:14-32 | What an actor took from and has queued of a goroutine is what that goroutine sent to it, in its order; the loop handles it in that order. |
| ActorFamilies.AnswersAreOwn | runtime/actor.go:24-32 | An answer is what receive of the actor asked returned for that very ask, which was handled once. |
| ActorFamilies.ReplyNeverBlocks | compiler/codegen_stmt.go:1543-1547 | An actor's send on a reply channel always has room. |
| ActorFamilies.ReceiveSeesAnswers | runtime/actor.go:24-32 | What receive goes by is what it was answered: the calls its runs made, with their results, are those its goroutine completed, in order. |
| ActorFamilies.Progress | runtime/actor.go:14-32 | While anything is under way some step can be taken, unless some actors wait for each other, for room in a full mailbox or for an answer. |
| ActorFamilies.DeadlockIsForEver | runtime/actor.go:14-32 | Actors that wait for each other handle nothing more, whatever happens next. |
| ActorFamilies.DeadlockNeedsCycle | runtime/actor.go:14-32 | Actors come to wait for each other only if some may message each other in a circle. |
| ActorFamilies.EveryAskIsAnswered | runtime/actor.go:24-32 | If no actors may message each other in a circle and every receive makes at most m calls: once no new calls begin, every schedule ends within one bound, with every message handled and every ask answered. |
| ActorFamilies.CanDeadlockIff | runtime/actor.go:14-32 | If the calls of receive do not depend on answers and are bounded, a family with a goroutine outside can deadlock if and only if some actors may message each other in a circle. |
| ActorCycle.CanDeadlock | runtime/actor.go:14-32 | From such a circle, a run to a deadlock: every actor that is not in order is driven to a call on one of them, all their mailboxes are filled, and all begin the call. |
| ActorDeadlock.Settle | runtime/actor.go:14-32 | A part of the family whose actors message earlier ones only comes to rest, whatever state the others are in, and changes nothing of theirs but the answers to calls under way. |
| ActorFamilies.CanHangIff | runtime/actor.go:24-32 | The same for an ask that is left unanswered for ever, whatever happens next. |
| ActorFamilies.OneActorCanDeadlockIff | runtime/actor.go:14-32 | A single actor can deadlock if and only if it may message itself. |
| ActorFamilies.AskCanBeAnswered | runtime/actor.go:24-32 | Without a circle every ask can be answered, whatever its answers decide. |
| ActorFamilies.AsksItselfDeadlocks | runtime/actor.go:24-32 | An actor that puts a question to itself on every message can deadlock. |
| ActorFamilies.AskEachOtherDeadlock | runtime/actor.go:24-32 | So can two actors that ask each other, though neither messages itself. |
| ActorFamilies.AskFirstNeverDeadlocks | runtime/actor.go:24-32 | An actor that would message itself after an answer it never gets never deadlocks, circle or not. |
| Circles.OrderAll | runtime/actor.go:14-32 | A finite relation without a circle can be put in an order in which everything is related to earlier ones only. |
| ActorProtocol.StepKeeps | compiler/codegen_stmt.go:1541-1574 | Every step of every participant keeps the invariant behind these. |
| Scanner.Scan | dap/proxy.go:138-174 | With a stable split function the frames depend on the concatenation of the chunks alone, not on how bytes arrive. |
| Scanner.ReadUndoesWrite | dap/proxy.go:138-174 | If the split function takes every written message off the front, reading a written stream gives back the messages. |
| Scanner.TakenGrows | dap/proxy.go:138-174 | More bytes add to the messages taken and take none back. |
| Scanner.PumpFrames | dap/proxy.go:138-174 | After every read exactly the messages complete by then have been written, as `emit` makes them. |
| Framing.SplitDAPFrame | dap/proxy.go:287-323 | Computes SplitFrame, including the error for a bad length, end of input inside a frame, and 64-bit overflow of the bounds. |
| Framing.ContentLength | dap/proxy.go:302-311 | The header loop finds the last Content-Length, and fails if any of them is no number. |
| Headers.LastLengthCounts | dap/proxy.go:302-311 | The text of the last Content-Length line is the length, and no such line means 0. |
| Headers.DeclaredFailsIff | dap/proxy.go:304-308 | The length is refused if and only if some Content-Length line holds no number. |
| Headers.MessageSplits | dap/proxy.go:293-322 | With any header lines that declare the length of the body, a message splits off whole. |
| Headers.WrittenIs | dap/proxy.go:326-333 | A written message is one Content-Length line with the length in decimal, an empty line and the body. |
| Framing.SplitFrameIsStable | dap/proxy.go:287-323 | A yielded frame or error never changes when more bytes arrive or the stream ends. |
| Framing.FrameHasDeclaredLength | dap/proxy.go:313-322 | The frame is the n bytes behind the header if and only if the header declares n. |
| Framing.SplitPanicsIff | dap/proxy.go:313-322 | One call panics if and only if the header is complete and the length it declares is negative or makes the end of the message overflow. |
| Framing.NegativeLengthPanics | dap/proxy.go:304-322 | It does on every negative length, whatever follows. |
| Framing.StopsByHeaders | dap/proxy.go:287-323 | How reading a stream ends is told by the headers of the first message that does not fit: end of input, truncated, bad length or panic. |
| Framing.StreamPanicsIff | dap/proxy.go:138-174 | Reading a stream, by any chunks, crashes if and only if the first message whose headers declare no length that fits declares one out of range. |
| Framing.WriteThenRead | dap/proxy.go:287-333 | Splitting what was written yields the bodies in order, whatever bytes they hold. |
| Framing.WrittenSplits | dap/proxy.go:326-333 | A written message in front of any bytes splits off as its body. |
| Framing.Pump | dap/proxy.go:138-174 | Each message is translated and written as soon as it is complete: after every read the output is exactly the translations of the messages complete by then, and a reader of the whole output sees the translations in order. |
| GoStrings.AtoiUndoesDecimal | dap/proxy.go:304-327 | The length that was printed is the length that is read. |
| GoStrings.AtoiReads | dap/proxy.go:305 | A number with any sign and leading zeros is read, if it fits 64 bits. |
| GoStrings.AtoiRefuses | dap/proxy.go:305-308 | Anything with another character, and a sign alone, is refused. |
| GoStrings.FieldsUndoesJoin | cmd_cron.go:205 | Words with a space between them are the fields of the text. |
| SourceMaps.SourceMap.constructor | dap/sourcemap.go:45-94 | The parser builds GoLines, SrvLines and the ascending list of mapped lines. |
| SourceMaps.MarkOfWritten | dap/sourcemap.go:63-74 | A written marker is read back, whatever space is around it. |
| SourceMaps.NoMark | dap/sourcemap.go:63-74 | A line that does not start with the marker, or goes on with no number, announces nothing. |
| SourceMaps.GoLinesAt | dap/sourcemap.go:62-82 | The debugger takes a line for its own mark, else for the mark of the line before. |
| SourceMaps.BuildLinesAt | cmd_build.go:278-300 | The build takes it for the mark of the line before, else for its own. |
| SourceMaps.SrvLinesAt | dap/sourcemap.go:78-81 | A Serv line maps to the line behind its first mark. |
| SourceMaps.BuildMappings | cmd_build.go:278-300 | The emitted mappings are that map, each line once, in order. |
| SourceMaps.MapsAgreeIff | dap/sourcemap.go:62-82 | The two maps are equal if and only if no two lines in a row announce different Serv lines. |
| SourceMaps.RoundTripIff | dap/sourcemap.go:98-111 | Going from a marked Serv line to Go and back returns if and only if the line behind its first mark announces no other. |
| SourceMaps.AdjacentMarksDisagree | dap/sourcemap.go:62-82 | Marks of two Serv lines on adjacent Go lines make the two maps differ and send the first Serv line to Go and back to the second. |
| SourceMaps.SourceMap.SrvToGo | dap/sourcemap.go:105-111 | The recorded line, or else one whose Serv line is nearest. |
| SourceMaps.SourceMap.NearestGoLine | dap/sourcemap.go:116-132 | Minimises the line distance, and is the first line to do so. |
| SourceMaps.SourceMap.GoToSrvApprox | dap/sourcemap.go:136-155 | The greatest mapped line not behind the query, or the first mapped line. |
| CacheProtocol.GetReturnsLatest | runtime/cache.go:91-104 | In every interleaving a value returned was the one most recently set at the read, and unexpired at the check. |
| CacheProtocol.MissesLiveEntryIffLost | runtime/cache.go:99-103 | A read misses a live entry if and only if a delete has removed it. |
| CacheProtocol.LiveEntryCanBeLost | runtime/cache.go:91-104 | Such a run exists, for every key and value. |
| CacheProtocol.SetCanBeLostIff | runtime/cache.go:91-104 | In any state, the entry a set makes can be lost to a delete if and only if it is live at all and, at that moment, some CacheGet has found an older entry of the key expired or has read one that expires sooner. |
| CacheProtocol.UnthreatenedSetsAreFound | runtime/cache.go:91-104 | A run in which no set meets such a CacheGet finds every live entry, with the value last set. |
| CacheProtocol.SequentialCacheIsPlainMap | runtime/cache.go:61-104 | Calls made one at a time give the results of a plain map with expiry times. |
| Formatter.CountNetBraces | cmd_fmt.go:114-147 | The scan counts braces outside string literals and before a comment. |
| Formatter.NetOfCode | cmd_fmt.go:131-146 | A brace in code counts, other code does not, and nothing behind a comment start does. |
| Formatter.NetOfLiteral | cmd_fmt.go:120-130 | Nothing inside a string literal counts, escapes included. |
| Formatter.LevelFollowsBracesIff | cmd_fmt.go:45-82 | At any level, the level moves by the braces of a line if and only if a line that starts with a closing bracket inside a block closes one in all, and any other closes no more than are open. |
| Formatter.LevelIsBalanceIff | cmd_fmt.go:33-82 | Over a file the level is the balance of the braces after every prefix if and only if every line follows its braces at the level the text before it makes. |
| Formatter.ElseLosesLevel | cmd_fmt.go:72-82 | A line `} else {` lowers the level by one and leaves it there, though its braces balance. |
| Formatter.HeadingsStandApart | cmd_fmt.go:54-65 | A top-level keyword is written behind a blank line or behind the end of a block. |
| Formatter.LineFormatter.FormatLine | cmd_fmt.go:33-83 | One turn of the loop writes what Emit says and moves to the state Next says. |
| Formatter.FormatLines | cmd_fmt.go:17-88 | The loop and the removal of trailing blank lines compute Formatted. |
| FormatterRules.EmitIs | cmd_fmt.go:33-71 | After any lines: a blank line is written unless one stands before it; another line is written at four spaces a level, one level less behind a closing bracket at its start, and a blank line comes before it if and only if it starts at level 0 with a keyword right behind a line of text that does not close a block. |
| FormatterRules.NextLevelIs | cmd_fmt.go:49-85 | The level behind a line: a bracket at its start closes one, what it opens in all is added, what it closes otherwise comes off, never below 0. |
| FormatterRules.IndentedByBalance | cmd_fmt.go:49-85 | In a file whose lines all follow their braces a line is indented by the braces open before it, less one if it starts with a closing bracket. |
| FormatterRules.FirstWordIs | cmd_fmt.go:59-61 | The keyword of a line is what stands before its first space, without opening brackets at its end. |
| Formatter.FormatIsIdempotent | cmd_fmt.go:33-92 | Formatting a formatted file changes nothing, for any keyword set. |
| Formatter.FormattedKeepsTexts | lsp/formatting.go:70-121 | Every line that is not blank is kept, in order, up to the space around it. |
| Formatter.FormattedBlankLines | lsp/formatting.go:70-121 | No two blank lines in a row, and none at the end. |
| Dedent.DedentText | compiler/lexer.go:578-638 | The loops compute Dedent. |
| Dedent.CommonIndentIsLongest | compiler/lexer.go:584-619 | The prefix found starts every line that is not blank, and no longer run of spaces and tabs does. |
| Dedent.DedentRemovesCommonIndent | compiler/lexer.go:625-637 | Exactly that prefix comes off each such line, blank lines stay blank, no line comes or goes. |
| Dedent.LeadingIs | compiler/lexer.go:590-602 | The leading whitespace of a line is all its spaces and tabs up to the first other character. |
| Dedent.ShortBlankLine | compiler/lexer.go:625-637 | A line without the prefix is blank and loses all its leading spaces and tabs. |
| Dedent.DedentIsIdempotent | compiler/lexer.go:578-638 | Dedenting twice is dedenting once, with the same number of lines. |
| CronFields.WrittenBounds | cmd_cron.go:163-183 | A star, a number and a range, as written, mean all values, the number and the ends. |
| CronFields.WrittenStep | cmd_cron.go:153-162 | A step behind them sets the stride and nothing else. |
| CronWritten.MalformedRange | cmd_cron.go:167-174 | A range with an end that is no number covers 0 alone. |
| CronWritten.MalformedNumber | cmd_cron.go:175-183 | What is no star, range or number matches nothing. |
| CronWritten.MalformedStep | cmd_cron.go:153-162 | A step that is no number counts as 1. |
| CronWritten.ElementSays | cmd_cron.go:139-190 | A written element matches every step-th value from its first to its last, a star alone every value; the loop ends. |
| CronWritten.FieldSays | cmd_cron.go:143-151 | A written list matches what one of its elements admits. |
| CronFields.MatchField | cmd_cron.go:139-190 | A field matches exactly the values that the 64-bit counters of its list elements meet. The precondition is exactly that the range loops end. |
| CronFields.RangeEndsIff | cmd_cron.go:184-188 | The loop over a range ends if and only if the value, or a number behind the end, is the start plus a multiple of the greatest power of two in the step. |
| CronFields.ForwardIsProgression | cmd_cron.go:184-188 | With a step of at least 1 and no wrap-around the loop ends, and meets exactly the arithmetic progression from start to end. |
| CronFields.HugeStepWraps | cmd_cron.go:184-188 | A step near 2^63 wraps around into the range and meets a value in front of the start. |
| CronFields.HugeNegativeStepEnds | cmd_cron.go:184-188 | A large negative step wraps around to the far end, where the loop ends. |
| Counters.CountsInStrides | cmd_cron.go:184-188 | A wrapping counter comes only by numbers that differ from the start by a multiple of the power of two in its step. |
| Counters.CountsAllStrides | cmd_cron.go:184-188 | And it comes by all of them. |
| CronFields.ZeroStepForEver | cmd_cron.go:149-190 | A star with step 0 goes round for ever on every value but the first. |
| CronSchedule.ForwardSearchEnds | cmd_cron.go:204-219 | If every step is at least 1 and no counter wraps around, the search for the next run ends, for every calendar. |
| CronSchedule.MatchCron | cmd_cron.go:192-202 | All five fields match, Sunday being 0 or 7, whenever the range loops end. |
| CronSchedule.WrittenMatches | cmd_cron.go:192-202 | A written expression is due exactly when minute, hour, day, month and weekday, 7 being Sunday as 0 is, are each admitted by their list. |
| CronWritten.FiveNumbers | cmd_cron.go:192-202 | Five numbers ask for exactly that minute, hour, day, month and weekday. |
| CronWritten.StarIsFree | cmd_cron.go:139-142 | A star asks nothing of its place, whatever the others ask for. |
| CronSchedule.CalculateNextCron | cmd_cron.go:204-219 | Whenever the search ends: the first due minute after the start, or a failure only if none is due before the limit. For a written expression, the first minute at which the calendar reads what the expression says. |
| CronSchedule.ProjectNext5Runs | cmd_cron.go:111-123 | Whenever the searches end: up to five runs, each the next after the one before; fewer only if the last has no next. |
| CronSchedule.CronRunsSkipNothing | cmd_cron.go:111-123 | The runs increase and are exactly the due minutes between the start and the last of them. |
| CronSchedule.WrittenRunsSkipNothing | cmd_cron.go:111-123 | For a written expression they are exactly the minutes at which the calendar reads what it says. |
| Aliases.Codegen.GetPackageAlias | compiler/codegen.go:155-201 | The counter loop ends, by pigeonhole on the aliases given; a path that has an alias keeps it, another gets the least free one, and the import is recorded. |
| Aliases.FreeFromIsLeast | compiler/codegen.go:180-196 | The counter found is the least whose name is free. |
| Aliases.NewAliasIsWord | compiler/codegen.go:159-169 | An alias is a non-empty run of letters, digits and underscores. |
| Aliases.BaseIs | compiler/codegen.go:159 | The last element of a path is what stands behind the last slash that is not at its end. |
| Aliases.WordCharsAre | compiler/codegen.go:160-166 | Of it the ASCII letters, digits and underscores stay, in order. |
| Aliases.NewAliasIs | compiler/codegen.go:159-197 | A new alias is that word, or `pkg` if nothing stays; where it is taken, with an underscore and the least free number from 1 on. |
| Aliases.AliasesStayApart | compiler/codegen.go:155-201 | Over any sequence of calls different packages have different aliases, and an alias once given stays. |

## Left out

- Floating-point detail: a float is known by its bits only and its operations are the same parameter at compile time and at run time; that printing a folded float with `%f` loses digits is not captured.
- AST nodes are values: that the optimizer overwrites fields of shared nodes is not captured, nor are source tokens and positions inside the optimizer model.
- Statements outside `Ast`: multi-name and destructuring `let`, spawn expressions, actor, middleware and table bodies (the optimizer does not visit them), and the flat emission of blocks at top level.
- Parallelism of `await` and `spawn`. Go's own meaning of `break` inside the `switch` emitted for `match`, and of `return` inside the function literal emitted for `try`, is not modelled; the semantics is that of the Serv source.
- Asserts that fold but are never reached are excluded from OptimizePreservesBehaviour with the others.
- Parser.ExpressionParser.ParseExpression: map, struct and function literals and the `stream`, `assert`, `await` and `spawn` prefix forms are recorded as not modelled.
- Parser.ExpressionParser.ParseIdentifier: recognises a struct literal and records it as not modelled; its fields are not parsed.
- Parsing: statement-level parsing and error recovery do not always advance and are left out; so are the lexer and literal text below the level of tokens.
- PrintParseRoundTrip: slices and error propagation (which `ReadsTerm` covers), map literals and calls with type arguments are not printable trees here; a slice without bounds has no parsable text, map spreads are dropped by the printer, and a parenthesised list in front of a brace is read as parameters, so headers of `if` and `for` are out as well.
- EditDistance.FindSimilarKeyword: Go's case mapping is a parameter.
- Imports.LoadProject: of a file that the entry does not import first itself, the named statements that come through wildcards of other files are bounded from above only, since they depend on the order in which files are first met.
- Imports: `.srv.d` declaration files that exist beside Go package imports, whose errors the loader swallows, so that an import cycle met only there goes unreported; path resolution and wildcard expansion are done in advance.
- Actors: a family is there from the start, so `receive` spawns no actors; it goes by its fields, the payload and the answers, and not by other input; a `receive` that panics is left out, and so is the fairness of Go's channels beyond what any interleaving covers.
- Framing.Pump: the translation of messages is an arbitrary function; the 4 MB limit, read and write errors are left out.
- Cache: the Redis back end, mocks, tracing and the parsing of durations.
- Cron: the calendar, the two-year window and interval parsing are parameters.
- SourceMaps: lines are given; the scanner's own line limit is left out.
- Workflow: the needs are those of initialisers and function bodies; that a step inside an `if` or a loop also waits for the condition is not a need, nor is what assignments outside a `let` read.
- Text in Formatter and Dedent is a sequence of code points; invalid UTF-8 is not captured.
- Aliases: Windows path separators.
- Escape analysis, domain-boundary checks, route contracts, unused-variable warnings, HTML and OpenAPI emission, brokers, AI, authentication, and all command-line, network and file-system code.
