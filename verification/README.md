# Kolibrie: a verified model

Kolibrie is an RDF and SPARQL engine with RDF-stream processing (RSP). This project models the parts of it whose
correctness is not visible from one function, and proves what they promise.

- **Windows and the coordinator.** Several windows deliver bags of solution mappings; a thread collects them, decides
  under a policy (Steal, Wait, Timeout with Steal or Drop) when to emit, and joins the last result of every window with
  static data. A second, single-threaded implementation does the same without a clock. A run is a sequence of drained
  batches and passed deadlines; the concurrent part is any such sequence.
  `SolutionMappings`, `WindowJoin`, `Coordinator`, `CoordinatorRuns`, `RunOutputs`, `WaitPolicy`, `SingleThread`.
- **Joining a query's patterns.** The nested-loop join, the join that partitions the rows into four groups (sequential,
  and in chunks under an arbitrary scheduler), the two joins over groups of row positions, the loop over the patterns
  of a query, and what it delivers against the solution mappings of the query. `PatternJoin`, `FastJoins`,
  `IndexedJoins`, `OneVariableJoin`, `IndexedJoinLoops`, `BasicGraphPattern`, `PatternAlgebra`, `IndexedEvaluation`,
  `StatementStores`, `QuerySolutions`, `QueryAnswers`.
- **Filters.** The precedence parser for arithmetic, the parser for filter expressions, their evaluation on rows, and
  moving a filter across joins. `ArithmeticGrammar`, `ArithmeticRoundTrip`, `FilterGrammar`, `FilterTexts`,
  `FilterRoundTrip`, `ClosingParentheses`, `FilterClauses`, `ClauseTexts`, `UnquotedSides`, `FilterEvaluation`,
  `FilterPushdown`, `FilterSides`, `FilterMeaning`.
- **Texts of terms.** The scanner for quoted triples, BIND with TRIPLE, SUBJECT, PREDICATE and OBJECT, the dictionary
  with the store of quoted triples, and N-Triples in both directions. `TermText`, `QuotedTriples`, `BindClauses`,
  `TermStore`, `NTriples`, `NTriplesRoundTrip`, `NTriplesExactly`, `NTriplesStores`, `NTriplesLoading`,
  `NTriplesTexts`.
- **Repairs and rules.** The work-list search for maximal consistent subsets with the query on top of it, and the
  application of rules with one or two premises. `Repairs`, `RepairQueries`, `RuleMatch`.

`Options`, `Naturals`, `Sequences`, `SetListings`, `Bags` and `Triples` hold what the other modules share. Loops of the
source are methods proved against functions; what the source promises is then proved about those functions. Bags of
rows are multisets, because the engine leaves the order of its result vectors to hash maps and to the scheduler; every
such order is a parameter or a free choice here, and the theorems hold for all of them. Opaque services are parameters
too: the violation of constraints, the iteration order of sets of facts, user-defined functions, and floating-point
numbers with all their operations, about which nothing is assumed unless a lemma says so.

Where the code does not do what its purpose suggests, the model follows the code, an input that shows it is a lemma, and
so is the exact condition under which the code does it:

- A query is answered by its solution mappings on every store if and only if no predicate is a variable and every
  constant subject also stands as an object: a constant subject is used as the name of a variable, and a variable
  predicate is compared as a text (`QuerySolutions.AnsweredExactly`).
- Variant 3 of the join overwrites a fresh binding when subject and object are one variable
  (`IndexedJoins.ThirdAgreesExactly`); variant 4 also drops rows behind its early return
  (`IndexedJoins.FourthAgreesExactly`, `OneVariableJoin.FourthAgreesForOneVariable`). Over a whole query either
  variant is right on every store if and only if a pattern with one name in both positions comes only when the name is
  bound (`IndexedEvaluation.QueriesAgreeExactly`).
- A printed filter clause is parsed to the same filter if and only if no number in it is cut at its point, no group has,
  behind its first closing parenthesis, a comparison operator and a readable right side, and no bare value is taken
  for the group it begins with (`FilterRoundTrip.ClauseReadExactly`). `FilterClauses` shows a clause of each kind that
  fails, and `ClosingParentheses.SafeRoundTrip` a condition on the filter alone that suffices.
- An arithmetic expression is accepted without quotes as the left side of a comparison, and read as written, if and
  only if it stands in parentheses and is printed without another closing one (`UnquotedSides.GroupedSideExactly`,
  `UnquotedSides.BareSideRejected`).
- A filter whose variables are all bound may still not be pushed in front of a join: a comparison without a sign looks
  its left side up even when that is a constant. `FilterPushdown.ConstantSideFails` is an input,
  `FilterPushdown.ConstantSidePushedDownExactly` and `FilterPushdown.ComparisonPushedDownExactly` say when it may.
- The text of one side of a comparison that both begins and ends with a group is worth its first group, any other
  printed text what was printed (`FilterSides.PrintedTextValue`).
- A comparison with a text in which a sign stands, such as a web address, fails at the top level under every operator:
  the text is taken for arithmetic (`FilterMeaning.AddressNeverPasses`).
- A comparison at the top level of a filter does not look up its right side and knows no decimals;
  `FilterSides.TopAgreesExactly` says when it agrees with the same comparison below a connective.
- Below the top level a closing bracket in a literal may stop the splitting of a quoted triple
  (`QuotedTriples.BracketInLiteral`); without angle brackets in literals it is exact (`QuotedTriples.SplitRendered`).
- A literal that is interned is cut at its first quote, even when that is escaped (`TermStore.NormalOfRender`); the
  reader of N-Triples glues a language tag to the value, and leaves a literal with an escaped quote in its quotes
  (`NTriplesTexts.NodeCleaned`).
- Among statements without quoted triples, `NTriplesExactly.StatementExactly` says which come back from the N-Triples
  text that is written for them, and `NTriplesStores.StoreExactly` which stores do: no escape is written, so closing
  brackets, quotes, line breaks, outer white space and identifiers that end in a backslash, for example, get lost.
- The repair search, whose comment promises repairs, may also list sets that are not maximal (`Repairs.ExactIff`,
  `Repairs.ExactIffConflictsAreTight`). The query on top of it loses no answer, in any order, if and only if every
  set it can stop at keeps the facts common to all repairs; for constraints that only more facts can violate, if and
  only if the facts are consistent or each of them takes part in a conflict
  (`RepairQueries.NothingLostIffNoFreeFact`).
- Under Wait the single-threaded processor reports the largest timestamp of the last batch, not of the cycle
  (`SingleThread.SameEmissions`, `SingleThread.TimestampsMayDiffer`).

## Model

| member | source | states |
|---|---|---|
| SolutionMappings.NaturalJoin | kolibrie/src/rsp_engine.rs:684-718 | the nested loops with their compatibility flag and the empty-side shortcut deliver the join of the two bags, in loop order |
| SolutionMappings.Agree | kolibrie/src/rsp_engine.rs:696-705 | the scan for a differing shared variable decides compatibility, in whatever order the map is walked |
| SolutionMappings.Insert | kolibrie/src/rsp_engine.rs:707-711 | inserting the entries one by one in any order gives the union in which the right side wins |
| SolutionMappings.JoinCommutes | kolibrie/src/rsp_engine.rs:684-718 | the natural join is commutative on bags |
| SolutionMappings.JoinAssociates | kolibrie/src/rsp_engine.rs:684-718 | the natural join is associative, including the order of the rows |
| SolutionMappings.JoinBag | kolibrie/src/rsp_engine.rs:684-718 | permuting either operand permutes the result |
| WindowJoin.JoinWindowResults | kolibrie/src/rsp_engine.rs:721-739 | no window gives no row; otherwise a row comes as often as there are choices of one row per window that together are that row |
| WindowJoin.JoinMultiplicity | kolibrie/src/rsp_engine.rs:720-739 | a row occurs as often as there are ways to choose one row per window, pairwise compatible, whose union is that row |
| WindowJoin.JoinLast | kolibrie/src/rsp_engine.rs:732-736 | joining a window last is joining it at any earlier point |
| WindowJoin.JoinAllPermuted | kolibrie/src/rsp_engine.rs:726-736 | the bag of joined rows does not depend on the order of the windows |
| WindowJoin.EmissionOrderFree | kolibrie/src/rsp_engine.rs:657-665 | two iteration orders of the window map emit the same bag, with and without static bindings |
| WindowJoin.BackgroundAtAnyPoint | kolibrie/src/rsp_engine.rs:659-665 | joining the static bindings last equals joining them at any earlier point |
| WindowJoin.EmissionMultiplicity | kolibrie/src/rsp_engine.rs:647-680 | multiplicity of an emitted row: choices of one row per window and static bindings that justify it |
| WindowJoin.Relation2Stream.Eval | kolibrie/src/rsp/r2s.rs:37-58 | row by row: RSTREAM passes every row on, ISTREAM the rows not in the previous answer as often as they come now, DSTREAM the previous rows that are gone, once each; and what is remembered |
| WindowJoin.EmitResults | kolibrie/src/rsp_engine.rs:647-680 | how often each row is delivered under each operator, counted in choices of one row per window and static bindings, whatever the iteration order of the window map; and what the stream operator remembers |
| Coordinator.CoordinatorLoop.Receive | kolibrie/src/rsp_engine.rs:450-503 | a first result and the drained ones change the state and emit as the step of the state machine says, under every policy |
| Coordinator.CoordinatorLoop.Drain | kolibrie/src/rsp_engine.rs:468-473 | everything pending behind the first result is stored, in order |
| Coordinator.CoordinatorLoop.Expire | kolibrie/src/rsp_engine.rs:421-440 | a passed deadline steals or drops the open cycle and does nothing without one |
| Coordinator.EveryLoopHead | kolibrie/src/rsp_engine.rs:399-504 | at every loop head of every run: triggered windows are a strict subset of all windows and a subset of the stored ones, the start is set exactly when a window has triggered, the timestamp is the maximum of the cycle, and each stored result is the last one received |
| CoordinatorRuns.Serve | kolibrie/src/rsp_engine.rs:399-507 | the object, fed with any recorded sequence of wake-ups, emits at each of them what the run of the state machine emits |
| CoordinatorRuns.EmitsExactly | kolibrie/src/rsp_engine.rs:423-502 | the coordinator emits at a wake-up exactly when the history of messages demands it, with the last result of every window and the largest timestamp of the cycle |
| CoordinatorRuns.DeadlinesAreLate | kolibrie/src/rsp_engine.rs:410-423 | a deadline falls inside a partial cycle, at least the duration after the batch that opened it |
| CoordinatorRuns.PartialCyclesCloseLate | kolibrie/src/rsp_engine.rs:423-438 | outside Steal a cycle that misses a window is closed only at or after its start plus the duration |
| CoordinatorRuns.NoEmissionBeforeAllReport | kolibrie/src/rsp_engine.rs:425-428 | no emission, under any policy, before every window has reported at least once |
| CoordinatorRuns.EmissionsAreFresh | kolibrie/src/rsp_engine.rs:475-500 | under Wait and Timeout/Drop the emitted result of every window was received in the cycle that the emission closes |
| CoordinatorRuns.EmissionsBounded | kolibrie/src/rsp_engine.rs:475-500 | under Wait and Timeout/Drop no window reports less often than the coordinator emits |
| RunOutputs.Deliver | kolibrie/src/rsp_engine.rs:399-507 | over a whole run one delivery per emission, in order; under RSTREAM a row comes as often as the emission justifies it, under ISTREAM so if the emission before did not justify it and else never, under DSTREAM once if only the emission before justified it |
| RunOutputs.ReceivedCounts | kolibrie/src/rsp/r2s.rs:37-58 | that count, for every operator, every emission and every row |
| RunOutputs.EmissionsCounted | kolibrie/src/rsp_engine.rs:399-507 | there are exactly as many deliveries as emissions of the run |
| RunOutputs.EmittedInOrder | kolibrie/src/rsp_engine.rs:399-507 | the delivery of an emission comes behind as many deliveries as there were emissions before it |
| RunOutputs.StreamsRebuild | kolibrie/src/rsp/r2s.rs:37-58 | removing what DSTREAM delivers and adding what ISTREAM delivers rebuilds the rows of every emission |
| WaitPolicy.GreedyIsOptimal | kolibrie/src/rsp_engine.rs:450-503 | under Wait no cutting of the batches into consecutive segments that each cover all windows has more segments than there are emissions |
| WaitPolicy.GreedyIsAttained | kolibrie/src/rsp_engine.rs:450-503 | some such cutting has exactly as many segments as there are emissions |
| WaitPolicy.MergingNeverHelps | kolibrie/src/rsp_engine.rs:468-473 | draining two adjacent batches together never increases the number of emissions |
| SingleThread.Processor.Process | kolibrie/src/rsp_engine.rs:549-593 | one call stores everything pending, emits when every window has a result, and then forgets the results unless the policy is Steal |
| SingleThread.ProcessAll | kolibrie/src/rsp_engine.rs:549-593 | the object, called once per batch, emits what the run of the processor emits |
| SingleThread.SimulatesRun | kolibrie/src/rsp_engine.rs:408-593 | along every run the processor stores the coordinator's results (Steal), or their restriction to the triggered windows (Wait) |
| SingleThread.SameEmissions | kolibrie/src/rsp_engine.rs:408-593 | both implementations emit at the same steps with the same results; timestamps agree under Steal, and under Wait exactly when the last batch carries the largest timestamp of the cycle |
| SingleThread.MonotoneTimestampsAgree | kolibrie/src/rsp_engine.rs:549-593 | with timestamps that never decrease, emissions agree completely |
| SingleThread.TimestampsMayDiffer | kolibrie/src/rsp_engine.rs:559-575 | any two windows reporting one after the other with a smaller timestamp behind: under Wait the two implementations report different timestamps |
| PatternJoin.ExtendRow | kolibrie/src/sparql_database.rs:2190-2213 | subject first, then object: the row comes out extended exactly when both positions fit |
| PatternJoin.PerformJoin | kolibrie/src/sparql_database.rs:2172-2219 | the reference loop delivers, triple by triple, the rows extended by every matching triple |
| PatternJoin.Partition | kolibrie/src/sparql_database.rs:2546-2580 | after the pass each of the four groups holds exactly its rows, in order |
| PatternJoin.GroupsAreExact | kolibrie/src/sparql_database.rs:2603-2669 | the four groups together contribute the same bag as the nested loop, for heterogeneous rows and for equal subject and object variables |
| FastJoins.PushMatches | kolibrie/src/sparql_database.rs:2301-2368 | the four pushes append the groups' rows, each extended as far as its group needs |
| FastJoins.PerformJoinSequential | kolibrie/src/sparql_database.rs:2529-2674 | the partitioned join delivers the bag of the nested loop over the triples that pass the literal filter |
| FastJoins.PerformJoinParallel | kolibrie/src/sparql_database.rs:2221-2378 | the chunked join delivers that bag for every order in which the chunks obtain the lock |
| FastJoins.ChunksInOrder | kolibrie/src/sparql_database.rs:2280-2283 | the outputs of the first chunks, put together, are the output of the triples they cover |
| FastJoins.ScheduledOutput | kolibrie/src/sparql_database.rs:2280-2377 | any schedule of the chunks delivers a permutation of the sequential output |
| IndexedJoins.ThirdAgreesExactly | kolibrie/src/sparql_database.rs:2823-2958 | variant 3 delivers the bag of the nested loop if and only if no triple with two different values meets a row that leaves the one variable of both positions unbound |
| IndexedJoins.ThirdVersusNested | kolibrie/src/sparql_database.rs:3686-3767 | for one triple variant 3 never delivers fewer rows than the nested loop, and the same bag exactly without such a clash |
| IndexedJoins.ClashBindsAnyway | kolibrie/src/sparql_database.rs:3686-3767 | one clash: variant 3 delivers a row where the nested loop delivers none |
| IndexedJoins.FourthAgreesExactly | kolibrie/src/sparql_database.rs:2960-3072 | with two variables, variant 4 delivers the bag of the nested loop if and only if no matching triple has a row carrying both values beside a row not bound at both positions that fits |
| IndexedJoins.FourthVersusNested | kolibrie/src/sparql_database.rs:3835-3915 | for one triple: the same bag exactly when nothing is shadowed by the early return and nothing clashes; fewer rows otherwise, for two variables |
| IndexedJoins.ShadowedRowIsLost | kolibrie/src/sparql_database.rs:3835-3915 | one shadowed row: variant 4 delivers one row where the nested loop delivers two |
| OneVariableJoin.FourthAgreesForOneVariable | kolibrie/src/sparql_database.rs:3835-3915 | with one variable in both positions, variant 4 delivers the bag of the nested loop if and only if every row binds the variable, or for every value as many triples wrongly add it as drop it |
| OneVariableJoin.OneTriple | kolibrie/src/sparql_database.rs:3847-3914 | for one triple: what variant 4 delivers and drops together is what the nested loop delivers together with what variant 4 adds |
| OneVariableJoin.MistakesCanCancel | kolibrie/src/sparql_database.rs:3847-3914 | a store and rows for which one triple adds a row, another drops it, and the result is right |
| IndexedJoins.JoinKeepsHomogeneous | kolibrie/src/sparql_database.rs:2172-2219 | a join step turns rows that bind the same variables into rows that bind the same variables |
| IndexedJoins.FourthOnHomogeneousRows | kolibrie/src/sparql_database.rs:2960-3072 | on rows that bind the same variables variant 4 agrees with the nested loop |
| IndexedJoinLoops.BuildIndex | kolibrie/src/sparql_database.rs:2854-2882 | for every statement the index finds exactly the positions of the rows of its four groups |
| IndexedJoinLoops.ProcessJoin | kolibrie/src/sparql_database.rs:3686-3767 | following the positions delivers the rows of the variant, the early return of variant 4 included |
| IndexedJoinLoops.ProcessChunk | kolibrie/src/sparql_database.rs:3770-3831 | a chunk delivers the rows of its triples, whatever part of a triple is decoded first |
| IndexedJoinLoops.PerformThird | kolibrie/src/sparql_database.rs:2823-2958 | for every number of threads the collected chunks are the rows of variant 3 in triple order |
| IndexedJoinLoops.PerformFourth | kolibrie/src/sparql_database.rs:2960-3072 | for every way of folding chunks and pairing accumulators the result is the rows of variant 4 in triple order |
| BasicGraphPattern.EvaluateParallel | kolibrie/src/execute_query.rs:255-333 | the pattern loop over the parallel join delivers the bag of the loop over the nested join, for any schedule at every step |
| BasicGraphPattern.EvaluateCount | kolibrie/src/execute_query.rs:255-333 | from any initial rows: a row is delivered once for every initial row that it extends by the patterns' names, if all patterns hold in it, and never otherwise |
| BasicGraphPattern.PatternOrderFree | kolibrie/src/execute_query.rs:255-333 | the bag of solutions does not depend on the order, or the repetition, of the patterns |
| BasicGraphPattern.StatementStored | kolibrie/src/sparql_database.rs:2172-2219 | a statement is in the store when the identifiers of some triple stand, in their order, for its terms |
| PatternAlgebra.PatternIsJoin | kolibrie/src/sparql_database.rs:2172-2219 | a pattern joined with any rows delivers the bag of joining the rows with the solution mappings of the pattern |
| PatternAlgebra.EvaluateIsJoin | kolibrie/src/execute_query.rs:255-333 | from any rows, over any store, the pattern loop delivers the bag of joining the rows with what it delivers from the empty row: inline data are joined with the patterns (section 18.5 of SPARQL 1.1 Query Language) |
| PatternAlgebra.EvaluateIsJoinAll | kolibrie/src/execute_query.rs:255-333 | without inline data that is the join of the solution mappings of all patterns |
| PatternAlgebra.PatternsPermuted | kolibrie/src/execute_query.rs:255-333 | the patterns may be taken in any order, over any store and from any rows |
| IndexedEvaluation.VariantsEvaluate | kolibrie/src/sparql_database.rs:2823-3072 | from rows over one set of variables a whole loop with variant 3 or 4 at every step delivers the bag of the nested loops, when every pattern with one name in both positions comes when the name is bound |
| IndexedEvaluation.VariantsAgreeExactly | kolibrie/src/sparql_database.rs:2823-3072 | on every store it does, if and only if that is so, given a row that binds no fixed object to anything else |
| IndexedEvaluation.QueriesAgreeExactly | kolibrie/src/execute_query.rs:255-333 | the same for every query without inline data |
| QuerySolutions.SolutionsOnce | kolibrie/src/execute_query.rs:255-333 | every solution mapping of a basic graph pattern with constant predicates is delivered exactly once, and a mapping that is no solution not at all (section 18.3.1 of SPARQL 1.1 Query Language) |
| QuerySolutions.OnlySolutions | kolibrie/src/execute_query.rs:255-333 | when every constant subject also stands as an object, every delivered row is that of a solution mapping |
| QuerySolutions.AnsweredExactly | kolibrie/src/execute_query.rs:255-333 | a query delivers the rows of its solution mappings, each once and nothing else, on every store, if and only if its predicates are constants and its constant subjects also stand as objects |
| QuerySolutions.FixedSubjectMatchesAnything | kolibrie/src/execute_query.rs:292-333 | a query with a constant subject that delivers a row which is no solution |
| QuerySolutions.VariablePredicateMatchesNothing | kolibrie/src/execute_query.rs:292-333 | a query with a variable predicate that has a solution and delivers nothing |
| QueryAnswers.InitializeResults | kolibrie/src/execute_query.rs:915-937 | without inline data one empty row; otherwise one row per row of values, in order, binding each variable that has a value to the last value it has and nothing else |
| QueryAnswers.InlineRowAssigns | kolibrie/src/execute_query.rs:919-932 | a variable is bound exactly when some value stands at a position of it, and to the last such value |
| QueryAnswers.InlineRowBinds | kolibrie/src/execute_query.rs:919-928 | a row of inline data binds a variable exactly when some occurrence of it has a value |
| QueryAnswers.AnswerPatterns | kolibrie/src/execute_query.rs:255-336 | initial rows, parallel joins under any schedules, and filters deliver the filtered bag of the nested loops; each row in which every pattern holds and that passes the filters comes once for each row of values that it extends by the names of the patterns, and no other row comes |
| QueryAnswers.SolutionsAnsweredOnce | kolibrie/src/execute_query.rs:255-336 | without inline data, and with constant predicates, a mapping is answered once if it is a solution whose row passes the filters, and not at all otherwise |
| QueryAnswers.InlineDataJoins | kolibrie/src/execute_query.rs:255-336 | that count, stated on the rows of values |
| ArithmeticGrammar.ArithFactor | kolibrie/src/parser.rs:328-359 | the multiplication loop parses the same tree and leaves the same rest as the recursive grammar |
| ArithmeticGrammar.ArithExpression | kolibrie/src/parser.rs:362-393 | the addition loop parses the same tree and leaves the same rest as the recursive grammar |
| ArithmeticRoundTrip.ExpressionRoundTrip | kolibrie/src/parser.rs:293-393 | printing any arithmetic tree with the fewest parentheses and parsing it gives the same tree and consumes all input |
| ArithmeticRoundTrip.ExpressionContinues | kolibrie/src/parser.rs:362-393 | behind a printed tree the parser goes on as if the tree had just been parsed |
| ArithmeticRoundTrip.ParsedExactly | kolibrie/src/parser.rs:293-393 | every tree that parsing any input can give is printed and parsed back to itself |
| FilterTexts.ComparisonReadBack | kolibrie/src/parser.rs:395-502 | a printed comparison is read back if and only if its right side is not a number with a fraction that gets cut |
| FilterRoundTrip.ValueReadExactly | kolibrie/src/parser.rs:548-564 | a printed bare value is read back exactly when it begins with an operand, or its lead group is taken neither for the whole value nor for the side of a comparison; otherwise one of these two is read |
| FilterTexts.CallRead | kolibrie/src/parser.rs:527-546 | a printed call with any number of arguments is read back, and the text behind it is untouched |
| FilterRoundTrip.GroupReadExactly | kolibrie/src/parser.rs:414-444 | a group whose inside is read up to its closing parenthesis is read back if and only if its first closing parenthesis has no comparison operator with a readable right side behind it |
| FilterRoundTrip.ConditionReadExactly | kolibrie/src/parser.rs:555-564 | in front of any text that may follow, a printed condition is read back exactly when no part of it is cut, split or taken for its lead group; otherwise something else is read, or nothing |
| FilterRoundTrip.AndReadExactly | kolibrie/src/parser.rs:567-578 | right-nested conjunctions: read back exactly when all their conditions are; a misread condition never yields the conjunction it stands in |
| FilterRoundTrip.OrReadExactly | kolibrie/src/parser.rs:581-592 | right-nested disjunctions of conjunctions: read back exactly when all their parts are |
| FilterRoundTrip.ConditionFound | kolibrie/src/parser.rs:548-564 | the parser never returns a condition whose text opens with more parentheses than the text it has read |
| FilterRoundTrip.ClauseReadExactly | kolibrie/src/parser.rs:600-608 | printing a filter of any nesting as a clause and parsing it gives the same filter, with all input consumed, if and only if all its parts are read back |
| ClosingParentheses.SafeRoundTrip | kolibrie/src/parser.rs:600-608 | the clause comes back when no number is cut, no value would be taken for its lead group, and the texts inside parentheses have no closing parenthesis in front of a comparison operator |
| FilterClauses.ComparisonClauseExactly | kolibrie/src/parser.rs:468-502 | a clause with one comparison is accepted and read as written, or rejected as a whole, exactly by the form of its right side |
| FilterClauses.DecimalBoundRejected | kolibrie/src/parser.rs:493-497 | the clause `FILTER(?x > 1.5)` is rejected |
| FilterClauses.GroupTakenAsSide | kolibrie/src/parser.rs:414-444 | a group with a comparison operator behind it is taken as an arithmetic side up to its first closing parenthesis |
| FilterClauses.LiteralSplitsGroup | kolibrie/src/parser.rs:415-419 | a closing parenthesis inside a literal ends the group and changes the parse |
| FilterClauses.ValueClauseExactly | kolibrie/src/parser.rs:548-608 | a clause with one bare value is read back exactly when the value is; when the value is taken for its lead group the clause is rejected |
| FilterClauses.GroupTakenForValue | kolibrie/src/parser.rs:548-564 | the clause `FILTER((?a + ?b) * ?c)` is rejected |
| ClauseTexts.ClauseKnown | kolibrie/src/parser.rs:426-535 | whatever text is parsed, every comparison in the result has one of the six operators and every call one of the five names |
| ClauseTexts.ClauseTyped | kolibrie/src/parser.rs:463-608 | a clause with any of the six operators is read with any white space, or none, around its parts |
| ClauseTexts.ConnectivesRead | kolibrie/src/parser.rs:504-592 | `&&`, `||` and `!` between, and in front of, comparisons and groups |
| ClauseTexts.ConnectivesBind | kolibrie/src/parser.rs:555-592 | conjunction binds tighter than disjunction, both group to the right, and parentheses overrule that |
| ClauseTexts.CallTyped | kolibrie/src/parser.rs:517-546 | each of the five calls is read with one and with three arguments |
| ClauseTexts.SignsBind | kolibrie/src/parser.rs:293-393 | the four signs, products before sums, and grouping to the left |
| ClauseTexts.GroupsBind | kolibrie/src/parser.rs:305-315 | parentheses overrule the binding of the signs |
| UnquotedSides.GroupedSideExactly | kolibrie/src/parser.rs:395-461 | an arithmetic expression in parentheses is accepted as the left side of a comparison, and read as written, exactly when it is printed without another closing parenthesis; otherwise the clause is rejected, unless it is split at the first of them |
| UnquotedSides.BareSideRejected | kolibrie/src/parser.rs:395-502 | without parentheses an arithmetic expression is never read as the left side; the clause is rejected, unless its lead group is split |
| UnquotedSides.SumNeedsParentheses | kolibrie/src/parser.rs:395-502 | for example `FILTER(?a + ?b > 5)` is rejected and `FILTER((?a + ?b) > 5)` is read as written |
| FilterEvaluation.ApplyFilters | kolibrie/src/sparql_database.rs:1528-1816 | the rows kept are those that pass every filter, in order |
| FilterMeaning.FilterLists | kolibrie/src/sparql_database.rs:1533-1536 | a list of filters is applied by applying its parts one after the other, and no filter drops nothing |
| FilterMeaning.ConjunctionFilters | kolibrie/src/sparql_database.rs:1778-1781 | filtering by a conjunction is filtering by its two parts |
| FilterMeaning.NegationFilters | kolibrie/src/sparql_database.rs:1786-1788 | a negation keeps exactly the rows that the filter drops |
| FilterMeaning.DisjunctionFilters | kolibrie/src/sparql_database.rs:1782-1785 | what fails a disjunction is what fails both of its parts |
| FilterMeaning.WholeNumbersCompared | kolibrie/src/sparql_database.rs:1567-1675 | a variable bound to a whole number passes each of the six comparisons with a whole number exactly when the numbers compare so |
| FilterMeaning.BetweenBounds | kolibrie/src/sparql_database.rs:1931-1992 | the clauses for a value between two bounds, outside of them, and not above one, from their texts to the rows that pass |
| FilterMeaning.TextsCompared | kolibrie/src/sparql_database.rs:1656-1772 | where one side is no whole number texts are compared at the top level, and have no order |
| FilterMeaning.AddressNeverPasses | kolibrie/src/sparql_database.rs:1537-1560 | a comparison of anything with a web address fails at the top level under every operator |
| FilterMeaning.OperationCompared | kolibrie/src/sparql_database.rs:1847-1873 | the four operations on variables and numbers against a bound, with the sides in their order; division by zero fails |
| FilterMeaning.BindingCompared | kolibrie/src/sparql_database.rs:1822-1929 | a sum with a product in it, and two differences, from their texts to the rows that pass |
| FilterMeaning.NumbersCompared | kolibrie/src/sparql_database.rs:1546-1558 | the six operators on two machine numbers |
| FilterMeaning.UnboundOperand | kolibrie/src/sparql_database.rs:1829-1836 | an unbound variable in an operation fails every comparison |
| FilterMeaning.BareValues | kolibrie/src/sparql_database.rs:1789-1794 | a bare value passes when it is a number other than zero |
| FilterMeaning.CallsMean | kolibrie/src/sparql_database.rs:1795-1812 | `isTRIPLE` passes exactly when its argument, looked up if it is a variable, stands in double brackets; every other call fails |
| FilterEvaluation.FilterAgrees | kolibrie/src/sparql_database.rs:1931-2019 | below the top level a filter of any nesting reads nothing but its variables |
| FilterEvaluation.TopAgrees | kolibrie/src/sparql_database.rs:1537-1812 | at the top level a filter reads nothing but its variables, and for a comparison without a sign nothing but its left side, a constant or not |
| FilterPushdown.PushedDown | kolibrie/src/sparql_database.rs:1528-1816 | filtering after a join delivers the rows, in the order, of filtering before it, when the join binds nothing for the first time that the filters read |
| FilterPushdown.PushedDownExactly | kolibrie/src/sparql_database.rs:1528-1816 | on every store both deliver the same bag, if and only if no statement that the pattern selects changes what the filters say of a row |
| FilterPushdown.ComparisonPushedDownExactly | kolibrie/src/sparql_database.rs:1566-1776 | for a comparison without a sign: if and only if every row binds its left side or the pattern cannot bind it to a value that passes |
| FilterPushdown.ConstantSidePushedDownExactly | kolibrie/src/sparql_database.rs:1566-1776 | for an equality with an unbound constant on the left: if and only if the constant is not the subject alone, and not an object that passes |
| FilterPushdown.ConstantSideFails | kolibrie/src/sparql_database.rs:1566-1776 | the filter `"alice" = "alice"` has no variables, keeps a row behind a join and drops the row it comes from in front of it |
| FilterPushdown.PushedDownAnywhere | kolibrie/src/execute_query.rs:255-336 | filters may be applied anywhere in the sequence of joins from which on the patterns bind nothing for the first time that they read |
| FilterPushdown.BoundVariablesSettle | kolibrie/src/execute_query.rs:255-336 | that is so when the rows bind all variables of the filters, if the left side of every comparison without a sign is a variable |
| FilterSides.GroupTextValue | kolibrie/src/sparql_database.rs:1876-1895 | the text of a parenthesized side has the value of the expression that was printed |
| FilterSides.GroupedSideReads | kolibrie/src/sparql_database.rs:1537-1560 | a comparison with a parenthesized side reads, at the top level, the variables of its expression and not the text |
| FilterSides.PrintedTextValue | kolibrie/src/sparql_database.rs:1881-1895 | a printed text has the value of the printed expression, unless it both begins and ends with a group: then it has the value of its first group |
| FilterSides.QuotedSideValue | kolibrie/src/sparql_database.rs:1876-1929 | such a text reaches the evaluator: the clause that compares it as a quoted side is accepted, and the side has that value |
| FilterSides.TwoGroupsLoseTheRest | kolibrie/src/sparql_database.rs:1881-1895 | for example, the text of `(a + b) * c * (d + e)` has the value of `a + b` |
| FilterSides.TopAgreesExactly | kolibrie/src/sparql_database.rs:1537-1776 | exactly when a comparison whose left side the row binds has the same outcome at the top level and below a connective |
| FilterSides.ConstantBoundElsewhere | kolibrie/src/sparql_database.rs:1566-1776 | with a constant bound to another value `"alice" = "alice"` fails at the top level and holds below a connective |
| FilterSides.TopLevelTakesRightSideLiterally | kolibrie/src/sparql_database.rs:1567-1772 | at the top level two variables are equal only when the value of the first is the name of the second; below a connective values are compared |
| FilterSides.DecimalDroppedOnTop | kolibrie/src/sparql_database.rs:1567-1776 | a row with the value 1.5 does not pass `?x > 1` at the top level and passes it below a connective |
| QuotedTriples.SplitQuotedTripleContent | kolibrie/src/sparql_database.rs:137-203 | the character loop with its depth, identifier, literal and escape flags computes the three components |
| QuotedTriples.SplitShortens | kolibrie/src/sparql_database.rs:94-103 | no component is longer than the content, so the encoder recurses on shorter text |
| QuotedTriples.SplitRendered | kolibrie/src/sparql_database.rs:137-203 | three written terms, literals with escapes, tags and datatypes among them, nested to any depth, are split exactly at the top level |
| QuotedTriples.BracketInLiteral | kolibrie/src/sparql_database.rs:166-190 | with a closing bracket in a literal where the scanner still waits for the end of an identifier, as in `<< a p "x>y" >> q r`, nothing is split |
| QuotedTriples.ComponentsOfTriple | kolibrie/src/execute_query.rs:1182-1216 | SUBJECT, PREDICATE and OBJECT undo TRIPLE for arbitrarily nested terms |
| QuotedTriples.RenderInjective | kolibrie/src/sparql_database.rs:137-203 | distinct terms have distinct texts |
| BindClauses.ProcessBindClauses | kolibrie/src/execute_query.rs:1160-1248 | clause by clause and row by row, in place, every row becomes what the clauses make of it |
| BindClauses.TripleThenComponent | kolibrie/src/execute_query.rs:1182-1228 | binding a triple and then one of its components gives the component back, literals included, and the bound value is recognised as a triple |
| BindClauses.ConcatMeans | kolibrie/src/execute_query.rs:1166-1182 | CONCAT appends the arguments' values from left to right, an unbound variable giving nothing |
| BindClauses.UserFunctionMeans | kolibrie/src/execute_query.rs:1230-1247 | a registered function gets the values of its arguments in their order; an unknown one changes nothing |
| BindClauses.TripleFunctionsMean | kolibrie/src/execute_query.rs:1182-1229 | the text that TRIPLE builds and the words that isTRIPLE binds; a component of no triple, and a triple of other than three arguments, change nothing |
| TermStore.Store.EncodeText | shared/src/dictionary.rs:32-47 | a text keeps its identifier, a new text gets a new one below the quoted range, and only running out of identifiers fails |
| TermStore.Store.EncodeQuoted | shared/src/quoted_triple_store.rs:45-55 | three components keep their identifier, new ones get a new one in the quoted range, and only the overflow of the counter fails |
| TermStore.Store.EncodeTermStar | kolibrie/src/sparql_database.rs:94-121 | the identifier decodes to the normal form of the term at every depth, everything known before keeps its meaning, and only running out of identifiers fails |
| TermStore.DecodeStable | shared/src/dictionary.rs:62-72 | what has been decoded once is decoded the same way after any number of additions |
| TermStore.NormalOfRender | kolibrie/src/sparql_database.rs:94-133 | encoding a written term and decoding gives it back without the brackets of its identifiers, and literals without what is attached, cut at their first quote |
| TermStore.PlainRoundTrip | kolibrie/src/sparql_database.rs:94-133 | for plain tokens, nested to any depth, encoding and decoding is the identity |
| NTriples.ReadSuffix | kolibrie/src/sparql_database.rs:1228-1277 | how much of a datatype or language tag belongs to a literal |
| NTriples.ParseNTriplesLine | kolibrie/src/sparql_database.rs:1167-1319 | the loop over the characters parses the line as the scanner function does |
| NTriples.ParseDocument | kolibrie/src/sparql_database.rs:1105-1144 | blanks, comments and lines without the final dot are passed over, the others give their statements in order |
| NTriplesTexts.LiteralDocuments | kolibrie/src/sparql_database.rs:1105-1353 | the one-line documents of a statement of identifiers, of a plain, a typed and a tagged literal, and of the predicate `a`: each gives its one statement (section 2 of RDF 1.1 N-Triples) |
| NTriplesTexts.StatementRead | kolibrie/src/sparql_database.rs:1167-1353 | three nodes, be they identifiers, blank nodes, literals of any kind or quoted triples, are read with blanks and tabs between them |
| NTriplesTexts.NodeCleaned | kolibrie/src/sparql_database.rs:1321-1353 | what is read from each kind of node: a datatype is dropped, a tag is glued to the value, and a literal with an escaped quote keeps its quotes |
| NTriplesTexts.StatementInDocument | kolibrie/src/sparql_database.rs:1105-1144 | a statement anywhere in a document adds itself and nothing else, with either line ending or as the last line without one |
| NTriplesTexts.CommentInDocument | kolibrie/src/sparql_database.rs:1117-1120 | a comment adds nothing to the document around it |
| NTriplesTexts.UndottedInDocument | kolibrie/src/sparql_database.rs:1122-1126 | a line without a dot at its end adds nothing to the document around it |
| NTriplesTexts.WrittenLines | kolibrie/src/sparql_database.rs:327-347 | the line that is written for a statement, with a web address in brackets and any other object in quotes |
| NTriplesRoundTrip.StatementReadBack | kolibrie/src/sparql_database.rs:1167-1353 | a written statement is parsed, and what is stored of it is the statement |
| NTriplesRoundTrip.QuotedPart | kolibrie/src/sparql_database.rs:1176-1226 | a quoted triple of plain tokens, nested to any depth, is scanned as one part and stored as it is |
| NTriplesRoundTrip.TriplePart | kolibrie/src/sparql_database.rs:1176-1226 | a quoted triple of identifiers, names and literals, nested to any depth, is scanned as one part |
| NTriplesRoundTrip.DocumentReadBack | kolibrie/src/sparql_database.rs:327-347 | a written document gives its statements back in order |
| NTriplesRoundTrip.StoreRoundTrip | kolibrie/src/sparql_database.rs:327-347 | serializing a store and loading the text gives the same set of statements, in whatever order they are listed (section 2 of RDF 1.1 N-Triples) |
| NTriplesExactly.StatementExactly | kolibrie/src/sparql_database.rs:327-347 | a statement without a term that begins like a quoted triple comes back from its document if and only if it is loadable |
| NTriplesStores.StoreExactly | kolibrie/src/sparql_database.rs:327-347 | a store without quoted triples comes back from its document, as a set of statements, if and only if every statement is loadable: none can be replaced by another one |
| NTriplesExactly.LoadedOnOneLine | kolibrie/src/sparql_database.rs:1105-1353 | no term that is loaded from any text has a line break |
| NTriplesExactly.OuterBlankIsLost | kolibrie/src/sparql_database.rs:94-95 | a statement whose subject begins with a blank does not come back |
| NTriplesLoading.EncodeTriples | kolibrie/src/sparql_database.rs:1147-1158 | the encoded triples decode, one by one, to the normal forms of the statements, also after later additions |
| NTriplesLoading.RepresentedTerms | kolibrie/src/sparql_database.rs:1147-1158 | subject, predicate and object decode each from its own identifier |
| NTriplesLoading.LoadDocument | kolibrie/src/sparql_database.rs:1095-1102 | the loaded triples decode to exactly the statements of the document; only running out of identifiers fails |
| NTriplesLoading.Reload | kolibrie/src/sparql_database.rs:1095-1158 | what one store serialized is what the other one holds after loading |
| NTriplesLoading.PlainStoresLoad | kolibrie/src/sparql_database.rs:327-347 | the round trip for terms without outer white space, line breaks, backslashes, quotes or closing brackets that do not begin with an opening bracket, and for quoted triples of plain tokens |
| Repairs.ComputeRepairs | datalog/src/reasoning.rs:148-186 | the loop over the work queue, remembering listings of the sets it has seen, returns the list that the state machine finds, and terminates |
| Repairs.PopShrinks | datalog/src/reasoning.rs:153-184 | every pop shrinks the sum of f(size) over the queue, f(n) = 1 + n f(n - 1), whatever has been seen |
| Repairs.FoundSoundly | datalog/src/reasoning.rs:148-186 | every listed set is consistent, none is part of an earlier one, and every consistent set of facts lies in a listed one |
| Repairs.LargestAreRepairs | datalog/src/reasoning.rs:147-186 | the largest listed sets are exactly the maximal consistent subsets, in every iteration order |
| Repairs.CommonFactsAreSafe | datalog/src/reasoning.rs:147-186 | a fact common to all listed sets is in every repair |
| Repairs.ExactIff | datalog/src/reasoning.rs:162-184 | the list is exactly the repairs in every iteration order if and only if removing facts one at a time never stops at a consistent set that is not maximal; orders that come from one listing of the facts suffice to see it |
| Repairs.EveryStopCanBeListed | datalog/src/reasoning.rs:171-184 | any consistent set at which the removal can stop is listed when the facts come in some order |
| Repairs.ExactIffConflictsAreTight | datalog/src/reasoning.rs:147-186 | for constraints that only more facts can violate, exactness holds if and only if dropping one fact of a minimal conflict always leaves a repair |
| RepairQueries.QueryWithRepairs | datalog/src/reasoning/repairs.rs:10-43 | the answers are exactly the bindings that a fact of every listed set matches, each of them once |
| RepairQueries.AnswersOfCommonFacts | datalog/src/reasoning/repairs.rs:21-43 | being an answer in every listed set is being an answer in their intersection |
| RepairQueries.AnswersHoldInRepairs | datalog/src/reasoning/repairs.rs:21-43 | every answer holds in every repair |
| RepairQueries.NothingLostExactly | datalog/src/reasoning/repairs.rs:17-43 | given some repair, no pattern loses an answer in any order if and only if every consistent set the search can stop at holds all facts common to the repairs |
| RepairQueries.NothingLostIffNoFreeFact | datalog/src/reasoning/repairs.rs:17-43 | for constraints that only more facts can violate: if and only if the facts are consistent or every fact takes part in a conflict |
| RepairQueries.CertainFactLost | datalog/src/reasoning/repairs.rs:21-43 | with one conflict and one fact outside it, some order of the facts loses an answer that holds in every repair |
| RuleMatch.MatchIsLeast | datalog/src/reasoning_experimental.rs:210-244 | matching succeeds exactly when some extension of the bindings makes the fact out of the pattern, and computes the least one |
| RuleMatch.OnePremise | datalog/src/reasoning_experimental.rs:166-180 | the facts that matching one fact yields are exactly the derivable ones |
| RuleMatch.TwoPremises | datalog/src/reasoning_experimental.rs:181-201 | the facts that matching two facts one after the other yields are exactly the derivable ones, at distinct positions |
| RuleMatch.ApplyRuleToFacts | datalog/src/reasoning_experimental.rs:161-208 | a rule with one or two premises yields each derivable fact once and nothing else, any other rule yields nothing |
| RuleMatch.ExtraVariablesDoNotMatter | datalog/src/reasoning_experimental.rs:246-264 | when the conclusions use only variables of the premises, every satisfying substitution is covered |

## Left out

- The window operator, the R2R and R2S wiring around the coordinator, thread start-up and shutdown, and the channel itself: a run is any sequence of non-empty drained batches and passed deadlines with window identifiers among the configured ones.
- The pairs of variable and value into which an emitted row is converted and sorted before it reaches the stream operator: a row stands for its sorted list.
- The second parallel variant and the SIMD variant of the sequential join differ from the modelled ones only in how bytes are compared; SIMD comparison is equality of texts here, and the CUDA join is not modelled.
- The resolution of prefixes, rule calls, quoted-triple patterns, subqueries, ORDER BY, grouping and aggregation of the query loop.
- NTriplesExactly.StatementExactly: statements with a quoted triple, or with a predicate that begins like one, are left out of the exact condition; quoted triples of plain tokens do come back (NTriplesRoundTrip.StoreRoundTrip), others may or may not.
- NTriplesStores.StoreExactly: leaves out the same statements.
- NTriplesTexts.StatementRead: values have no quote or backslash but a single escaped quote, and no line breaks.
- QuotedTriples.SplitRendered: literals have no angle brackets, which the scanner may take for its own (QuotedTriples.BracketInLiteral); literals that have some and are split all the same are not characterised.
- NTriples.ReadSuffix: letters and digits of language tags are the ASCII ones, as are the characters of names in the filter grammar and white space in every scanner.
- NTriples.ParseDocument: lines are processed in one sequence; the original cuts them into chunks of a thousand that are parsed in parallel and collected in order.
- PatternJoin.PerformJoin: asks for triples whose identifiers decode, because the original panics on any other triple.
- Repairs.ComputeRepairs: the listing of a set of facts is a function of the set. In the original every set is a copy of the full one with facts removed, so all of them iterate in the order of the full one; the orders that lose answers here are of that kind.
- TermStore.Store.EncodeTermStar: the locks around the dictionary and the store of quoted triples are not modelled, nor is the overflow of the counter in builds that let it wrap around.
- Rules with negated premises or filters, hierarchical reasoning levels, and the semi-naive materialisation.
- RDF/XML, Turtle and N3, the HTTP server, the command line, the storage manager, and everything about machine learning.
