# The workflow executor, in Dafny

A model of the repository's workflow executor and of the protocols around it, with proofs.
`dafny verify dfyconfig.toml` checks everything.

A *workflow* is a set of nodes with dependencies, trigger rules and `when:` conditions. The executor
places the nodes in layers and runs layer after layer; within a layer the tasks finish in any order.
A node that talks to an AI provider reads a stream, asks again until its structured output satisfies a
schema, and is retried when it fails; a loop node runs its prompt until a completion signal, and may
pause behind a gate to be taken up by a later run. Nodes refer to each other's outputs in prompts, in
bash scripts and in conditions.

| file | what it models |
|---|---|
| `Schema.dfy` | nodes, outputs, JSON values |
| `Layering.dfy` | Kahn's algorithm over in-degrees and dependents, against longest dependency chains |
| `Gating.dfy` | one task: reuse of a prior result, trigger rule, `when:` |
| `RunSpec.dfy` | a whole run as a function of the graph |
| `RunTheorems.dfy` | gating over a run, resuming, accounting |
| `DagExecutor.dfy` | the executor's mutable state: tasks in any order, the join, status checks, the ending |
| `Text.dfy` | trimming, splitting, identifiers |
| `Numbers.dfy` | printing numbers as JavaScript does (section 6.1.6.1.20 of ECMA-262) and parsing prefixes as `parseFloat` does (section 19.2.4 of ECMA-262) |
| `OutputRef.dfy` | which value `$node.output.field` stands for |
| `Condition.dfy` | the `when:` language: splitting outside quotes, atoms, evaluation |
| `ShellQuote.dfy` | references in bash scripts, and what the shell reads (section 2.2 of POSIX.1-2017 XCU, with bash's `$'...'`) |
| `McpMessage.dfy` | the message about failed MCP servers, parsed and rebuilt |
| `ContextVariables.dfy`, `Variables.dfy` | variables in prompts |
| `NodeRun.dfy` | stream passes and tool events, validate-and-reask |
| `Retry.dfy` | retries with backoff, and what a retried node reports |
| `LoopNode.dfy` | the loop node, and chains of runs that pause and resume |
| `Connection.dfy` | the database singleton: its operations, and all their interleavings |

Code that updates variables in place is modelled by methods and classes, which are proved against
specification functions; the properties are lemmas about those functions. What the executor relies on
but this model does not look into (node executors, the provider, the JSON library and schema validator,
the store's answers, the recognition of completion signals and of exhausted credit) is passed in as an
arbitrary function, so that every statement holds whatever they do.

## Where code and documentation differ

The model follows the code. For each property that fails, a lemma says exactly when it holds, and another
one shows an input at which it fails.

- A reference in `when:` that cannot be resolved leaves the node *skipped*
  (`crates/har-dag-executor/src/dag_executor.rs:3899-3924`), although
  `crates/har-dag-executor/src/condition_evaluator.rs:22` says that the node fails.
  `RunTheorems.EveryNodeIsGated` states what happens to every node of every run,
  `Gating.UnresolvableConditionSkips` has a node whose condition `$a.output.f == 'x'` names a field of a
  skipped one.
- A reference in a prompt or script that cannot be resolved is replaced by the error message
  (`crates/har-dag-executor/src/dag_executor.rs:323-326`), although the comment above the function
  says that the consuming node fails. A bash script stays intact exactly if the reference resolves
  (`ShellQuote.OneWordIffResolvable`); a field of a skipped node does not (`ShellQuote.SkippedProducerSpills`).
- The comment at `crates/har-dag-executor/src/dag_executor.rs:240-242` says that values substituted into bash
  scripts are wrapped in single quotes so that they are safe to embed, and the one at
  `crates/har-dag-executor/src/dag_executor.rs:305-307` that numbers, which are not wrapped, are free of shell
  metacharacters. At unquoted positions the shell reads every value as
  itself if and only if no number makes up the word before a redirection (where it would be the number of a
  descriptor, section 2.10.1 of POSIX.1-2017 XCU) and no reference stands right behind an open dollar sign
  (which would be taken together with the quotes or the number): `ShellQuote.SubstitutionKeepsLexing`.
  `ShellQuote.NumberBecomesDescriptor` has the script `$a.output.n>f`, `ShellQuote.DollarTakesQuotes` the script
  `$$a.output`. Inside double quotes no value is read as itself (`ShellQuote.DoubleQuotedIsNeverItsValue`), and
  the value `"` ends the quoting that it stands in (`ShellQuote.DoubleQuoteEscapes`).
- `parse_float_js` skips ASCII whitespace without the vertical tab, which the comment at
  `crates/har-dag-executor/src/condition_evaluator.rs:65-66` lists.
  `Numbers.WhenWhitespaceIsAsDocumented` says when that makes a difference, `Numbers.VerticalTabIsNotSkipped`
  has a text for which it does.
- The comment above `get_dialect` (`crates/har-db/src/connection.rs:204-209`) calls the error "dialect
  not initialized" unreachable in practice. A close that races with the call reaches it:
  `Connection.DialectRaceHappens` has the moves, `Connection.DialectFailsOnlyInARace` says when.
- After a stream error only the cost of the last pass is reported; `NodeRun.CostIsTotal` says exactly
  when that is the whole cost, `NodeRun.CostIsLost` has a node for which it is not. A retried node reports
  the cost of its last attempt only: `Retry.RetriedCost` says exactly when that is the whole cost, and
  `Retry.RetryLosesCost` has two attempts for which it is not.
- A run that is stopped while a node with an `output_format` streams is reported as missing structured
  output, not as cancelled (`NodeRun.WhenCancelled`, and `NodeRun.StopIsNotReported` for one such stop). The
  "Cancelled by user" branch among the stream errors (`crates/har-dag-executor/src/dag_executor.rs:6019-6031`)
  is never taken: `NodeRun.ErrorsAreNotCancellations` says that whenever a stream error is handled, neither
  its pass nor an earlier one was stopped or fell silent, so that the shared token is not cancelled.
- Resuming does not resume sessions: a reused node hands on none. `RunTheorems.ResumeEquivalence` holds
  for executors that do not depend on them; `RunTheorems.SessionAcrossReuse` says exactly when the
  next node is handed the session of the full run, `RunTheorems.SessionIsLost` has a run in which it is not.

Two more things the executor itself would do are kept from it when a workflow is loaded. It would never
complete an interactive loop without a gate message (`LoopNode.WithoutGateNeverCompletes`); such a loop is
refused (`crates/har-workflow-schema/src/loop_schema.rs:97-107`). And in a build without overflow checks the
backoff's power of two wraps around at the 65th retry: the delay is the doubled and capped one exactly up to the
64th, and behind it only if there is no delay at all (`Retry.WhenDelayDoubles`), while the bound on the whole wait
holds for any number of retries (`Retry.BackoffIsBounded`); the schema admits no more than 5
(`crates/har-workflow-schema/src/retry_schema.rs:85`).

## Model

| member | source | states |
|---|---|---|
| `Layering.BuildTopologicalLayers` | crates/har-dag-executor/src/dag_executor.rs:439-491 | for unique ids it always ends; it reports the runtime cycle exactly when the graph has a cycle or a `depends_on` names no node; otherwise the layers are nonempty, hold a permutation of the nodes, and each node sits in the layer of its longest dependency chain |
| `Layering.PlacedBoundsChains` | crates/har-dag-executor/src/dag_executor.rs:462-485 | a node placed within k rounds ends no chain of more than k nodes |
| `Layering.UnplacedHasChain` | crates/har-dag-executor/src/dag_executor.rs:462-485 | conversely, a node not placed within k rounds ends a chain of k + 1 nodes |
| `Layering.LevelIsLongestChain` | crates/har-dag-executor/src/dag_executor.rs:462-485 | a node's round is the length of the longest dependency chain into it |
| `Layering.CyclesAreNeverPlaced` | crates/har-dag-executor/src/dag_executor.rs:487-491 | no node of a cycle is ever placed |
| `Layering.StuckIsBroken` | crates/har-dag-executor/src/dag_executor.rs:487-491 | when a round places nothing and a node is left, the graph has a cycle or a missing dependency |
| `Layering.NoEarlierLayering` | crates/har-dag-executor/src/dag_executor.rs:439-491 | no valid assignment of layers, whatever its origin, puts a node before the length of a chain into it |
| `Layering.GraphIgnoresOrder` | crates/har-dag-executor/src/dag_executor.rs:440-461 | the graph, and so everything said of it, is the same for every permutation of the node list |
| `Layering.ReleaseDependents` | crates/har-dag-executor/src/dag_executor.rs:472-482 | taking one off for every listing of a dependency cannot underflow, repeated listings included; a dependent is released exactly when all its dependencies are done |
| `Layering.NextLevel` | crates/har-dag-executor/src/dag_executor.rs:462-485 | the nodes whose in-degree reaches zero while a layer is finished are exactly the next level |
| `Gating.UnresolvableConditionSkips` | crates/har-dag-executor/src/dag_executor.rs:3893-3924 | a node whose trigger rule holds and whose condition `$a.output.f == 'x'` names a field of a skipped node: an error, and the node is skipped |
| `RunSpec.DeclarationOrderIsIrrelevant` | crates/har-dag-executor/src/dag_executor.rs:3704-3745 | every permutation of the node list ends in the same outputs, sessions, cost and invocations |
| `RunSpec.PlacedIsFixed` | crates/har-dag-executor/src/dag_executor.rs:4529-4571 | once a node's layer has run, its output never changes again |
| `RunSpec.UnplacedIsUntouched` | crates/har-dag-executor/src/dag_executor.rs:3630-3681 | before its layer a node has not been invoked and has exactly the text of its prior output, or nothing if it has none or always runs |
| `RunSpec.AllDoneAlwaysRuns` | crates/har-dag-executor/src/dag_executor.rs:342-408 | at every trigger check, whatever the rule, all dependencies are placed and none is pending or running, so `AllDone` lets its node run, panics or not |
| `RunSpec.FinalAfter` | crates/har-dag-executor/src/dag_executor.rs:3704-3712 | once every node is placed, further layers change nothing |
| `RunTheorems.FreshRunGating` | crates/har-dag-executor/src/dag_executor.rs:3857-3988 | in a fresh run with default rules an executor is invoked exactly when all ancestors completed and the condition holds; every other node ends skipped |
| `RunTheorems.EveryNodeIsGated` | crates/har-dag-executor/src/dag_executor.rs:342-408 | every node of every layer, any rule and any prior outputs: a reused node is not invoked and keeps its prior text; any other is invoked exactly when its condition is true on the outputs it is shown and, in the final outputs, all of its dependencies are completed (no rule or all-success), some one is (one-success), some one is and none failed or is missing (none-failed), or with nothing more (all-done, or no dependencies); otherwise it ends skipped |
| `RunTheorems.InvokedReports` | crates/har-dag-executor/src/dag_executor.rs:4161-4171 | what an executor reports is what is left of its node in the end, field by field, and nothing after a panic; it is handed the session before its layer, or none in a layer of several nodes or with a fresh context |
| `RunTheorems.SessionBetweenLayers` | crates/har-dag-executor/src/dag_executor.rs:4559-4571 | the session in front of every layer: none at first, none behind a layer of several nodes, and else the one the single node completed with, or the one before |
| `RunTheorems.CostIsSumOfBills` | crates/har-dag-executor/src/dag_executor.rs:4535-4539 | the cost of a run is the sum over all nodes of what their tasks reported, each once |
| `RunTheorems.AncestorsArePlaced` | crates/har-dag-executor/src/dag_executor.rs:3717-3720 | all ancestors of a node are in the snapshot it is given, and it is none of them |
| `RunTheorems.ResumeEquivalence` | crates/har-dag-executor/src/dag_executor.rs:3630-3681 | resuming with any completed plain-text outputs of a full run ends in the full run's outputs (up to the sessions of reused nodes), and invokes what the full run invoked and is not reused |
| `RunTheorems.HaltedRunResumes` | crates/har-dag-executor/src/dag_executor.rs:4589-4661 | a run halted after any number of layers, resumed with any completed plain-text outputs it had by then, ends like the run that was never halted |
| `RunTheorems.ChainOfHaltsResumes` | crates/har-dag-executor/src/dag_executor.rs:3630-3681 | however often a workflow is halted and resumed, every run of the chain, left to itself, ends like the run that was never halted, and invokes what that invoked and it does not reuse |
| `RunTheorems.ResumeIsExact` | crates/har-dag-executor/src/dag_executor.rs:3845-3858 | if the reused outputs left no session, the final outputs are equal outright |
| `RunTheorems.SessionAcrossReuse` | crates/har-dag-executor/src/dag_executor.rs:3662-3671 | behind a reused sequential node the session handed on is that of the full run if and only if the reused node had left none, or the one handed on anyway |
| `RunTheorems.SessionIsLost` | crates/har-dag-executor/src/dag_executor.rs:3662-3671 | a workflow of one node whose resumed run hands on no session, where the full run hands on one |
| `RunTheorems.FinalKeys` | crates/har-dag-executor/src/dag_executor.rs:4572-4575 | the final outputs belong to the nodes, less those whose task panicked, and to prior ids outside the workflow, which keep their prior text |
| `RunTheorems.Accounting` | crates/har-dag-executor/src/dag_executor.rs:4691-4720 | completed, failed and skipped add up to the node count, less the panicked nodes, plus the prior ids outside the workflow |
| `DagExecutor.DagRun.Prepopulate` | crates/har-dag-executor/src/dag_executor.rs:3630-3681 | every prior output is entered as a completed one without session, except for nodes that always run |
| `DagExecutor.RunTasks` | crates/har-dag-executor/src/dag_executor.rs:3710-3745 | in whatever order the tasks of a layer finish, the results are what each task computes from the snapshot |
| `DagExecutor.DagRun.Collect` | crates/har-dag-executor/src/dag_executor.rs:4527-4582 | the join records every result once: outputs, cost, and the session of a layer of one node; a panic records nothing |
| `DagExecutor.DagRun.RunLayer` | crates/har-dag-executor/src/dag_executor.rs:3704-4582 | one layer, with its tasks in any order, is one step of the run's specification |
| `DagExecutor.DagRun.RunLayers` | crates/har-dag-executor/src/dag_executor.rs:4589-4661 | a layer starts only if no status check before it saw the run halted; the state is that of as many steps as layers were started |
| `DagExecutor.DagRun.Finish` | crates/har-dag-executor/src/dag_executor.rs:4666-4880 | at most one of complete and fail is called; complete exactly if nothing failed, something completed and the status did not change; neither if it did |
| `DagExecutor.DagRun.CountOutcomes` | crates/har-dag-executor/src/dag_executor.rs:4691-4720 | the counts are the numbers of completed and of failed outputs |
| `DagExecutor.TerminalOutput` | crates/har-dag-executor/src/dag_executor.rs:4918-4934 | the output handed to the caller is that of the first declared node without dependents that completed with text, and none exactly if there is no such node |
| `DagExecutor.DagRun.Execute` | crates/har-dag-executor/src/dag_executor.rs:3591-4935 | a run of a broken graph changes nothing; a halted run ends after the layer at which a status other than running (or none) was read, without complete or fail; any other run ends in the specification's final state: withheld by such a status, completed exactly if something completed and nothing failed, or failed |
| `Numbers.ParseFloatJs` | crates/har-dag-executor/src/condition_evaluator.rs:88-169 | the index scan returns what the grammar of parseFloat gives: NaN exactly if no prefix matches, Infinity for its three spellings, and otherwise the longest literal |
| `Numbers.MeetsDetermines` | crates/har-dag-executor/src/condition_evaluator.rs:88-169 | and that is the only answer which the grammar admits |
| `Numbers.ScanIsLongest` | crates/har-dag-executor/src/condition_evaluator.rs:108-169 | no literal of the grammar that the text starts with is longer than the scanned one |
| `Numbers.ScanIsPrefix` | crates/har-dag-executor/src/condition_evaluator.rs:108-169 | what is scanned is a valid literal and a prefix of the text, exponent rollback included |
| `Numbers.ScanText` | crates/har-dag-executor/src/condition_evaluator.rs:108-169 | every literal is scanned in full and comes back as itself |
| `Numbers.ReadExponent` | crates/har-dag-executor/src/condition_evaluator.rs:139-163 | an exponent mark without digits is given back |
| `Numbers.WhenWhitespaceIsAsDocumented` | crates/har-dag-executor/src/condition_evaluator.rs:88-90 | the code agrees with its documentation exactly if the text behind the skipped whitespace does not start with a vertical tab, or is no number by the documentation either |
| `Numbers.VerticalTabIsNotSkipped` | crates/har-dag-executor/src/condition_evaluator.rs:88-90 | a vertical tab before a 5: a number by the documentation, none by the code |
| `Numbers.SignOfValue` | crates/har-dag-executor/src/condition_evaluator.rs:88-169 | a minus sign negates the value, and no literal without one is negative |
| `Numbers.ScaleByTen` | crates/har-dag-executor/src/condition_evaluator.rs:139-163 | one more in the exponent is ten times the value, on either side of the point |
| `Numbers.LayoutValue` | crates/har-dag-executor/src/dag_executor.rs:5221-5263 | each of the four layouts denotes the same decimal value as the digits and the exponent it was made from |
| `Numbers.PrintedForm` | crates/har-dag-executor/src/dag_executor.rs:5221-5263 | the form that is printed: an exponent exactly beyond 21 digits or 5 zeros behind the point, behind one digit, signed and without leading zeros; otherwise digits filled up with zeros |
| `Numbers.PrintParse` | crates/har-dag-executor/src/dag_executor.rs:5211-5263 | printing a number and parsing the text consumes all of it and gives exactly the number, in all layouts and both signs |
| `Condition.SplitOutsideQuotes` | crates/har-dag-executor/src/condition_evaluator.rs:313-339 | the scan with its quote flag yields the trimmed pieces between separators outside quotes |
| `Condition.PiecesAreCutOutside` | crates/har-dag-executor/src/condition_evaluator.rs:313-339 | the pieces, joined, are the text, and it is cut at exactly the separators that stand outside quotes |
| `Condition.OnlyPieces` | crates/har-dag-executor/src/condition_evaluator.rs:313-339 | there is no other such cut |
| `Condition.EvaluateCondition` | crates/har-dag-executor/src/condition_evaluator.rs:504-537 | the nested loops give the left-to-right short-circuit outcome: value, unparsed or error |
| `Condition.PrintRead` | crates/har-dag-executor/src/condition_evaluator.rs:313-339 | a printed OR of ANDs is read back as the same OR of ANDs, whatever its quoted values contain |
| `Condition.PrintEvaluate` | crates/har-dag-executor/src/condition_evaluator.rs:504-537 | evaluating the printed text is evaluating the tree, short circuits, unparsed atoms and errors included |
| `Condition.FirstAtomDecides` | crates/har-dag-executor/src/condition_evaluator.rs:511-533 | a clause has the outcome of its first atom that is not true, be it false, unparsed or an error |
| `Condition.FirstClauseDecides` | crates/har-dag-executor/src/condition_evaluator.rs:504-537 | the whole has the outcome of its first clause that is not false |
| `Condition.PrintedAtomsEvaluate` | crates/har-dag-executor/src/condition_evaluator.rs:354-537 | from text to meaning: a printed OR of ANDs of atoms, with any spacing, has the short-circuit outcome of whatever function gives each atom what it says about the outputs |
| `Condition.UnresolvableIsAnError` | crates/har-dag-executor/src/condition_evaluator.rs:255-293 | a condition on a field of a skipped node evaluates to an error, neither a value nor unparsed |
| `Condition.DecidedTree` | crates/har-dag-executor/src/condition_evaluator.rs:504-537 | if every atom is decided the value is the plain OR of ANDs |
| `Condition.ReorderKeepsValue` | crates/har-dag-executor/src/condition_evaluator.rs:504-537 | then clauses and atoms may be reordered or repeated |
| `Condition.MatchAtomText` | crates/har-dag-executor/src/condition_evaluator.rs:188-200 | every well-formed atom, with any spacing and whatever the pattern takes for digits beyond ASCII, is matched as itself |
| `Condition.AtomTextIsShaped` | crates/har-dag-executor/src/condition_evaluator.rs:313-339 | every well-formed atom survives the splitting, `&&` and `\|\|` in its quoted value included |
| `Condition.EvaluateAtomText` | crates/har-dag-executor/src/condition_evaluator.rs:354-490 | evaluating its text gives what it says: an error if the reference cannot be read, unparsed for two segments that do not start with `output`, and otherwise the comparison of what is read with the right-hand side |
| `Condition.ReferenceReads` | crates/har-dag-executor/src/condition_evaluator.rs:255-293 | a reference reads nothing of an unknown node, a node's whole output, or its field: a string's text, a number, boolean or JSON text, nothing for a declared field that is null or absent; or is an error |
| `Condition.ComparisonSays` | crates/har-dag-executor/src/condition_evaluator.rs:425-489 | `==` and `!=` compare the texts; each ordering is unparsed exactly if one side begins with no finite number, and else orders the two values |
| `Condition.AtomSays` | crates/har-dag-executor/src/condition_evaluator.rs:354-490 | every atom says exactly one thing |
| `Condition.MatchedIsAtomText` | crates/har-dag-executor/src/condition_evaluator.rs:188-200 | what the pattern matches is the text of a well-formed atom |
| `Condition.OnlyAtomsParse` | crates/har-dag-executor/src/condition_evaluator.rs:354-372 | any other text is unparsed |
| `OutputRef.FieldIsRead` | crates/har-dag-executor/src/output_ref.rs:212-320 | a field reference finds one value, finds nothing, or is one of four errors, by whether its producer ran, what its schema declares, and whether payload or text hold the field |
| `Condition.EvaluateReads` | crates/har-dag-executor/src/condition_evaluator.rs:255-293 | the outcome depends on nothing but the state, text and payload of the nodes the condition names |
| `ShellQuote.QuotedIsLiteral` | crates/har-dag-executor/src/dag_executor.rs:195-197 | whatever the value, its quoted form adds exactly the value, literally, to the word being read, and leaves the shell unquoted |
| `ShellQuote.MatchIsPrefix` | crates/har-dag-executor/src/dag_executor.rs:229-231 | a reference that is found is well formed and is what the text starts with |
| `ShellQuote.TextIsMatched` | crates/har-dag-executor/src/dag_executor.rs:229-231 | every reference written out is found again, before anything that does not carry it on |
| `ShellQuote.PartsRebuild` | crates/har-dag-executor/src/dag_executor.rs:256-258 | cutting a script into characters and references loses nothing |
| `ShellQuote.PartsAreCutOut` | crates/har-dag-executor/src/dag_executor.rs:229-258 | every reference is cut out at its full length: none starts where a plain character stands |
| `ShellQuote.OnlyParts` | crates/har-dag-executor/src/dag_executor.rs:229-258 | there is no other such cut |
| `ShellQuote.ReferenceStandsFor` | crates/har-dag-executor/src/dag_executor.rs:255-326 | what a reference stands for: the whole output, a string field's text, a number or boolean as it is, other values as JSON, nothing for an unknown node or an empty field, or an error |
| `ShellQuote.SubstitutionFills` | crates/har-dag-executor/src/dag_executor.rs:250-330 | substitution, for prompts and for scripts, replaces every reference by exactly what it stands for (quoted in scripts, unless a number or boolean) or by its error message, and changes nothing else |
| `ShellQuote.SubstitutionKeepsLexing` | crates/har-dag-executor/src/dag_executor.rs:250-330 | with references at unquoted positions and resolvable, the shell reads the substituted script as the template with each reference replaced by exactly what it stands for, if and only if no number that a reference stands for makes up the word before a redirection and no reference stands right behind an open dollar sign; nothing inside a text is read as a quote, operator or reference |
| `ShellQuote.NumberBecomesDescriptor` | crates/har-dag-executor/src/dag_executor.rs:304-309 | the script `$a.output.n>f` with the number 2: an argument in the template, a descriptor in the script |
| `ShellQuote.DollarTakesQuotes` | crates/har-dag-executor/src/dag_executor.rs:195-197 | the script `$$a.output` with a backslash and an n: literal characters in the template, an escape inside dollar-single-quotes in the script |
| `ShellQuote.DoubleQuotedIsNeverItsValue` | crates/har-dag-executor/src/dag_executor.rs:240-242 | inside double quotes the quoted form of no value is read as the value |
| `ShellQuote.DoubleQuoteEscapes` | crates/har-dag-executor/src/dag_executor.rs:240-242 | a double quote as the value ends the double quotes it stands in |
| `ShellQuote.OneWordIffResolvable` | crates/har-dag-executor/src/dag_executor.rs:316-326 | what is inserted stays within one word exactly when the reference resolves |
| `ShellQuote.SkippedProducerSpills` | crates/har-dag-executor/src/dag_executor.rs:323-326 | a reference to a field of a skipped node puts words of the error message into the script |
| `McpMessage.ParseMcpFailureServerNames` | crates/har-dag-executor/src/dag_executor.rs:87-110 | the loop over segments with its set of seen names returns the specified entries |
| `McpMessage.ParsedEntries` | crates/har-dag-executor/src/dag_executor.rs:87-110 | the entries' names are nonempty and distinct, and each name is the one its segment starts with; a message without the prefix has none |
| `McpMessage.NameIsBeforeParenthesis` | crates/har-dag-executor/src/dag_executor.rs:95-103 | a segment's name is what stands, trimmed, before the first parenthesis that follows a space, or in the whole segment |
| `McpMessage.CollectFirstOccurrences` | crates/har-dag-executor/src/dag_executor.rs:95-108 | the entries are the first occurrences of their names, in order |
| `McpMessage.NoNameIsMissed` | crates/har-dag-executor/src/dag_executor.rs:95-108 | every name in the message has an entry |
| `McpMessage.RebuildParse` | crates/har-dag-executor/src/dag_executor.rs:5933-5949 | any sub-list of a message's entries, rebuilt into a message and parsed again, is exactly that sub-list |
| `ContextVariables.SubstituteContextVars` | crates/har-dag-executor/src/executor_shared.rs:330-363 | the scan with its copied-up-to index returns the specified text and whether any match was accepted |
| `ContextVariables.MatchesIffVariable` | crates/har-dag-executor/src/executor_shared.rs:340-352 | the scan accepts a match exactly if a variable stands anywhere in the text |
| `ContextVariables.ExactlyVariablesAreReplaced` | crates/har-dag-executor/src/executor_shared.rs:330-363 | the value goes in place of each variable at a word boundary and nowhere else, whatever it is |
| `ContextVariables.ClearLeavesNone` | crates/har-dag-executor/src/executor_shared.rs:330-363 | after clearing, a second pass finds no variable, adjacent ones and the zero-width boundary notwithstanding |
| `Variables.SequentialIsSimultaneous` | crates/har-dag-executor/src/executor_shared.rs:427-441 | for dollar-free literals and values, the nine replacements in any order equal one simultaneous substitution |
| `Variables.ContainsName` | crates/har-dag-executor/src/executor_shared.rs:411-413 | the test for the base branch finds it exactly in templates that have the variable |
| `Variables.EachIsReplacedByItsText` | crates/har-dag-executor/src/executor_shared.rs:414-441 | which input each of the nine variables is replaced by, and that for the shell the five a user controls keep their names |
| `Variables.ShellTextIgnoresUser` | crates/har-dag-executor/src/executor_shared.rs:433-441 | for any prompt and any values, a text for the shell depends on nothing that a user controls |
| `Variables.SubstituteWorkflowVariables` | crates/har-dag-executor/src/executor_shared.rs:396-476 | it fails exactly for an empty base branch that is named; otherwise the prompt, and whether a context variable was there and an issue context given, in both modes |
| `NodeRun.ReadStream` | crates/har-dag-executor/src/dag_executor.rs:5563-6011 | the loop reads the specified pass |
| `NodeRun.PassIsRead` | crates/har-dag-executor/src/dag_executor.rs:5563-6011 | over the ticks: if the first one that ends the stream is a result that is not stopped, payload, session and cost are that result's and `isError` and `subtype` decide about the ending; else the pass was stopped, fell silent or was closed and reports none of them; the text is what the assistant chunks before the end say, one behind the other, and the events are those of the tools before it |
| `NodeRun.ToolsAlternate` | crates/har-dag-executor/src/dag_executor.rs:5563-5928 | over every stream starts and completions alternate, each completion names the start before it, and none is outstanding once the result has been taken in |
| `NodeRun.JudgePass` | crates/har-dag-executor/src/dag_executor.rs:6016-6248 | another pass is asked for exactly when this one was read to its end, has something to complain about, and reasks are left; a node completes only after a pass without complaint, error or stop |
| `NodeRun.ErrorsAreNotCancellations` | crates/har-dag-executor/src/dag_executor.rs:6016-6031 | whenever a stream error is handled, no pass so far was stopped or fell silent, and no chunk taken in came with a stop: the shared token is not cancelled |
| `NodeRun.ExecuteNode` | crates/har-dag-executor/src/dag_executor.rs:5518-6494 | the loop returns the specified result of the specified passes |
| `NodeRun.PlainNode` | crates/har-dag-executor/src/dag_executor.rs:6250-6494 | a node without an `output_format`, by its one pass: it completes with the pass's text exactly if that neither broke off nor was stopped and its text tells of no exhausted credit and is not blank (unless a payload came with it); each failure has one cause; session and cost are the pass's |
| `NodeRun.FormattedNode` | crates/har-dag-executor/src/dag_executor.rs:6072-6248 | a node with an `output_format`, by its last pass: it completes exactly if that did not break off and brought an accepted, printable payload whose text tells of no exhausted credit, with this payload, its text and the declared fields; each failure has one cause; the session is the one reported last |
| `NodeRun.AcceptedAtOnce` | crates/har-dag-executor/src/dag_executor.rs:5885-6146 | if the first stream ends in a result that is no error and brings such a payload, the node asks no more and completes with exactly this payload, its text, and the result's session and cost |
| `NodeRun.PassesAreBounded` | crates/har-dag-executor/src/dag_executor.rs:5491-5550 | the first call carries the prompt and the session; one pass, or up to four for a best-effort provider with an `output_format`; each but the last was read to its end, left something to complain about, and is followed by a call that appends the correction for it and resumes nothing; and all are used up before an unsatisfactory one is the last |
| `NodeRun.CompletedIsAccepted` | crates/har-dag-executor/src/dag_executor.rs:6072-6146 | a node with an `output_format` completes only with a payload the validator accepts, whose text is its output, and with the fields its schema declares |
| `NodeRun.CostIsTotal` | crates/har-dag-executor/src/dag_executor.rs:6065-6071 | the cost is the sum over all passes, missing only if none reported one; after a stream error exactly the earlier passes' cost is lost |
| `NodeRun.CostIsLost` | crates/har-dag-executor/src/dag_executor.rs:6033-6062 | a best-effort node whose first pass costs 1 and whose second breaks off at 2 reports 2 |
| `NodeRun.WhenCancelled` | crates/har-dag-executor/src/dag_executor.rs:6271-6306 | a stop is reported as cancelled exactly by nodes without `output_format` |
| `NodeRun.StopIsNotReported` | crates/har-dag-executor/src/dag_executor.rs:6195-6248 | a run stopped at its first chunk, at a node with an `output_format`: missing structured output |
| `Retry.RunWithRetries` | crates/har-dag-executor/src/dag_executor.rs:4249-4320 | under the node's own settings or the defaults, the first attempt that is not worth repeating or the last one decides; every earlier one was worth repeating; the delays between them |
| `Retry.RetriesAreAsDeclared` | crates/har-dag-executor/src/dag_executor.rs:507-530 | by what the node declares: two retries after 3 and 6 seconds by default, else as many as it says with the given or the default delay, doubled each time; after transient errors only, unless it wants all but fatal ones retried |
| `Retry.FatalTakesPrecedence` | crates/har-dag-executor/src/executor_shared.rs:108-117 | an error is retried exactly if its message shows no fatal pattern and either shows a transient one or all errors are to be retried |
| `Retry.RetriesAreBounded` | crates/har-dag-executor/src/dag_executor.rs:4259-4320 | at most `max_retries` + 1 provider calls, times four where corrections may be asked for, a bounded total wait, and no attempt after a fatal error |
| `Retry.BackoffIsBounded` | crates/har-dag-executor/src/dag_executor.rs:4295-4317 | for any number n of retries the total wait is at most `delay_ms` times 2^n - 1, and exactly that while the last delay fits into 64 bits |
| `Retry.BackoffWrapsAround` | crates/har-dag-executor/src/dag_executor.rs:4295-4295 | from the 65th retry on there is no wait |
| `Retry.WhenDelayDoubles` | crates/har-dag-executor/src/dag_executor.rs:4295-4295 | the delay is the doubled and capped one if and only if at most 63 retries came before or there is no delay at all |
| `Retry.RetriedCost` | crates/har-dag-executor/src/dag_executor.rs:4259-4277 | the reported cost is that of the last attempt, and is the whole cost exactly if the earlier attempts, and the passes a stream error lost, come to nothing |
| `Retry.RetryLosesCost` | crates/har-dag-executor/src/dag_executor.rs:4259-4277 | a first attempt that costs 1 and breaks off because of a rate limit, which is transient, and a second that reports no cost |
| `LoopNode.ExecuteLoopNode` | crates/har-dag-executor/src/dag_executor.rs:6558-7501 | the loop makes the specified run: its iterations, its result, and what it stores when it pauses |
| `LoopNode.RunIsAsDescribed` | crates/har-dag-executor/src/dag_executor.rs:6558-7501 | a run is the loop's exactly if it fits a description of its iterations and its end: where it starts and with which session and input, by the stored approval; every iteration found the run going on and the prompt built, its pass is what the provider's stream for its call reads as, its completion is that of this call and pass, its output the cleaned text or else the raw one; and the end, its output, payload, session, cost and approval, by the last iteration, or by the status, prompt or maximum that kept the next one from being made |
| `LoopNode.FirstSignalCompletes` | crates/har-dag-executor/src/dag_executor.rs:7177-7376 | a loop that is not interactive and that nothing stops, whose iterations read well up to the first that brings the completion signal: exactly these iterations, no failure, and the last one's output |
| `LoopNode.JudgeIteration` | crates/har-dag-executor/src/dag_executor.rs:7081-7469 | another iteration follows exactly if this one went well, its completion is not honoured and there is no gate; the loop completes here exactly if it is honoured or paused; an approval is stored exactly if paused, and names this iteration and its session; each failure has its cause |
| `LoopNode.JudgedIsEnding` | crates/har-dag-executor/src/dag_executor.rs:7081-7469 | that fits exactly one conclusion |
| `LoopNode.RunIsThreaded` | crates/har-dag-executor/src/dag_executor.rs:6640-6790 | iterations are consecutive and within the maximum; each resumes the session reported last before it, or none; input and previous output reach the right ones |
| `LoopNode.EarlierIterationsLeadOn` | crates/har-dag-executor/src/dag_executor.rs:7304-7376 | an iteration that another follows neither failed nor completed, and there was no gate |
| `LoopNode.RunIsConcluded` | crates/har-dag-executor/src/dag_executor.rs:7304-7501 | a run completes exactly when its last iteration brought a completion that is honoured, or paused; its cost is that of all iterations; what is stored names that iteration and the session |
| `LoopNode.KeptIsReportedLast` | crates/har-dag-executor/src/dag_executor.rs:6860-6925 | the session and the payload that are kept are those reported last |
| `LoopNode.LoopCostIsTotal` | crates/har-dag-executor/src/dag_executor.rs:6860-6925 | the cost is the sum of what the iterations reported, missing only if none did |
| `LoopNode.WithoutGateNeverCompletes` | crates/har-dag-executor/src/dag_executor.rs:7307-7311 | an interactive loop without a gate message never completes |
| `LoopNode.UninterruptedLoop` | crates/har-dag-executor/src/dag_executor.rs:6640-6790 | a loop that is not interactive: iterations from 1 on, sessions threaded, completion exactly at the last one |
| `LoopNode.GatedRun` | crates/har-dag-executor/src/dag_executor.rs:7376-7469 | a run behind a gate makes at most one iteration, and stores it if it pauses |
| `LoopNode.ChainIsOneLoop` | crates/har-dag-executor/src/dag_executor.rs:6608-6640 | over any chain of runs the iterations are 1, 2, 3 and so on without gap or repetition up to the maximum, at most one a run, and there are at most `max_iterations` + 1 runs |
| `LoopNode.ChainKeepsSessions` | crates/har-dag-executor/src/dag_executor.rs:6778-6790 | where the session a provider reports depends on the iteration and the session it resumes, the run that makes the k-th iteration of a chain hands it the session that the uninterrupted loop would |
| `Connection.Singleton.GetDatabase` | crates/har-db/src/connection.rs:142-188 | undisturbed: the adapter there is, or the new one, with all slots set in order; a failed construction changes nothing |
| `Connection.Singleton.GetDialect` | crates/har-db/src/connection.rs:210-226 | undisturbed: the kind of the adapter that `get_database` gives, never "not initialized" |
| `Connection.Singleton.GetDbNotificationListener` | crates/har-db/src/connection.rs:252-262 | undisturbed: none without a database URL, else the adapter exactly if it is a Postgres one |
| `Connection.Singleton.Clear` | crates/har-db/src/connection.rs:269-312 | empties all slots and returns what was there |
| `Connection.UndisturbedGet` | crates/har-db/src/connection.rs:142-188 | the interleaved steps of one task alone amount to `get_database` as the class has it, when the construction succeeds |
| `Connection.UndisturbedFailure` | crates/har-db/src/connection.rs:142-188 | and when it fails: an error, and the slots as they were |
| `Connection.UndisturbedClear` | crates/har-db/src/connection.rs:269-312 | likewise for the clearing |
| `Connection.StepKeepsInv` | crates/har-db/src/connection.rs:142-312 | every step of every task keeps the invariant: mutual exclusion, the slots as far as the holder has got, the log in order |
| `Connection.SlotsMoveTogether` | crates/har-db/src/connection.rs:101-125 | in every interleaving, whenever the lock is free, database and dialect are both set or both empty and the listener is the same adapter as a Postgres database |
| `Connection.ConstructionsBalance` | crates/har-db/src/connection.rs:140-188 | in every interleaving the adapters installed equal the non-empty clears, plus one if one is there; whenever the lock is free, every adapter constructed was installed |
| `Connection.SameUntilCleared` | crates/har-db/src/connection.rs:142-148 | calls of `get_database` with no clear between them return the same adapter |
| `Connection.NeverHandedAfterwards` | crates/har-db/src/connection.rs:269-284 | an adapter that close or reset has taken is never handed out again |
| `Connection.ClosedWasTaken` | crates/har-db/src/connection.rs:269-284 | `close` is called only on an adapter that this close has taken out of the slot before |
| `Connection.ListenerIsTheDatabase` | crates/har-db/src/connection.rs:252-262 | a listener that is returned is the installed adapter, and a Postgres one |
| `Connection.DialectFailsOnlyInARace` | crates/har-db/src/connection.rs:210-226 | "not initialized" is answered exactly when no adapter is installed at the second look, which takes a clear since the task was handed one |
| `Connection.DialectRaceHappens` | crates/har-db/src/connection.rs:210-226 | that race is possible |

Helpers that read one or two definitions back, for the results above: `Text.IdentifiersAre` (which characters
identifiers are made of), `Gating.TaskIsGated` (a task behind its trigger rule and its condition), `OutputRef.DeclaredNeverFailsOtherwise` (when a field reference fails).

## Left out

- Node executors, subprocesses, the provider's SDK, platform delivery, logs and event channels: I/O. Tool events are kept as a recorded trace; everything else an executor does is an arbitrary function.
- The order of the nodes within a layer, which comes from hash maps: layers are compared as sets of nodes.
- Duplicate node ids: unique ids are a precondition of the layering, as they are of the loader, which is not part of this model.
- Floating point: numbers are digit strings with exact decimal values, overflow to infinity and rounding are not modelled, and costs are exact.
- The JSON parser (with the code fence that it takes off), printer and schema validator, and what the validator does with a schema that it cannot compile.
- Which characters beyond ASCII a pattern takes for decimal digits: an arbitrary predicate, of which no more is assumed than that none of them is white space.
- Regular-expression matching as such: patterns are written out as the scans they amount to. The XML-wrapped completion signal is not modelled.
- Output values above the file threshold in bash scripts, which are written to files: substitution is modelled without a spill directory.
- The shell's expansions: apart from opening `$'...'` and taking the start of a parameter, dollar signs and backquotes are ordinary characters of a word, so nested command substitutions are read like the script around them; here-documents, and the meaning of escapes inside `$'...'`, are not modelled.
- ShellQuote.SubstitutionKeepsLexing: says nothing about references behind a backslash or inside single quotes and comments; for those inside double quotes see ShellQuote.DoubleQuotedIsNeverItsValue.
- The wording of error messages, except for unresolvable references; classification of errors takes their texts, and the lists of patterns, as parameters.
- Failures of an AI node before its first pass (a command file that cannot be loaded, an unknown provider), and the invalid-provider check of the loop node: they end the node without any pass.
- Persisted node sessions across runs: the store lookup that replaces the resume session.
- The activity heartbeat and the throttling of status checks: whether a check happens at a chunk, and what it answers, is up to the environment.
- Approval nodes, cancel nodes, model resolution, capability warnings, script discovery: mostly lookups.
- The width of iteration counters in the loop node: numbers are unbounded.
- Dropping the adapters' last references, and the pool behind them.
