# Detection engine model

A Dafny model of the detection engine's logic: the code that turns queries into SQL, decides
when a rule fires, normalises events, walks response workflows and ships events from agents,
with proofs of what that code promises. `dafny verify dfyconfig.toml` checks all of it.

| files | what they model |
|---|---|
| `SqlText`, `QueryCompiler`, `QueryText`, `QueryMeaning`, `QueryValues`, `LikePatterns` | the query-DSL to SQL compiler. The emitted text is lexed character by character and parsed by a precedence parser written independently of the compiler; the expression found is proved to hold of exactly the rows the query tree selects; numbers, relative times and ILIKE patterns are given their own meanings |
| `Correlator`, `CorrelatorMonitor` | the windowed correlator, with its state in place, against a monitor that remembers the whole history |
| `SigmaCondition`, `SigmaReads` | the Sigma condition language: tokeniser, cursor-moving parser, grammar, printer, evaluator, and what single conditions and texts come to |
| `Workflow` | the breadth-first workflow walk over arbitrary graphs, against reachability, distance and an order that determines the log |
| `Udm`, `UdmHeap`, `JsonFields`, `Normalizer`, `NormalizerReads`, `Sorting` | nested event records, on values and on mutable maps, and the parser pipeline, with every map visited in arbitrary order |
| `Grok` | grok pattern expansion against full substitution |
| `ParserStore`, `ParserDocs`, `IndentedDocs` | the two-tier parser store over its last-write-wins table, the loading of parser documents, and which of them survive being stored trimmed |
| `Forwarder`, `Fim` | the agent's batching protocol and its file-integrity snapshots |
| `Texts`, `Wrappers` | white space, trimming and splitting; options and results |

Code that updates state is modelled by classes and methods with loops (`CondParser`,
`WinState`, `Correlator`, `MapNode`, `Normalization`, `Store`, `Forwarder`, `Monitor`), each
proved against a function or predicate on values; the theorems are about those.

Where the code does not do what its documentation, or a reader, would expect, the code is
followed and the exact condition is proved:

- A Sigma condition such as `1 of` makes the parser index out of range. It does so exactly on
  conditions that end in `of` and that any pattern after it would complete
  (`PanicsExactlyOnDanglingOf`, `OneOfPanics`).
- `2 of x*` means `all of x*`; it agrees with "at least two" exactly when the pattern picks
  none or exactly two of the rule's selections (`NumericQuantifierIsAll`).
- The correlator is the documented sliding-window monitor, for every window and threshold,
  exactly when timestamps arrive in order (`MonitorExactlyWhenOrdered`); for arrivals in any
  order `FiresInAnyOrder` states what it does.
- Rules of one name share a window (`SharedNameFires`). So do join values that a bar makes
  alike: a key tells its values from all others exactly when none contains a bar
  (`KeyTellsIffBarFree`); since empty values are never joined, some bars are harmless, and
  `KeyTellsIffFixedBars` says which.
- An empty `ids` list, or an empty `terms` list on a scalar column, is translated to text that
  is not SQL (`ClauseMeansQuery`, `EmptyIdsIsNotSql`).
- A free-text search is documented as a substring match. It is one exactly when the text has
  no `%` and no `_`, and no backslash before one of these, before a backslash or at its end
  (`FreeTermMeansIffPlain`); `web_01` also finds `webX01`. Terms with a star are alike
  (`StarTermMeansIffPlain`).
- A `set`, `rename` or `json` step of a parser is independent of map order exactly under the
  conditions of `SetOrderFreeIffApart`, `RenameOrderFreeIffNoChain` and
  `FlattenOrderFreeIffNamesAgree`; `CollisionReachesTheRecord` is a parser and a document for
  which the record is not determined.
- A custom parser is stored trimmed. A restart brings it back exactly if its trimmed document
  decodes as the submitted one did (`RestartRestores`); a plain mapping does unless it has two
  entries or more and is indented (`PlainRestartRestores`), and such a one is accepted, saved
  and lost (`IndentedPairIsLost`).
- A batch outlives an outage of any start and of up to 3.5 seconds, and none longer
  (`OutageLosesNothingIff`): the comment on the forwarder says brief outages do not lose data,
  and the last of its four waits is followed by no attempt. The batch held when the context
  ends is never delivered (`ShutdownLosesTheBatch`).
- A field name survives its coding as a group name exactly when no underscore in it is
  followed by a dot or an underscore (`NameRoundTrip`).

Times are integers, event timestamps and durations alike; what a request, a clock, an executor
or a foreign decoder returns is a parameter.

## Model

| member | source | states |
|---|---|---|
| QueryMeaning.ClauseMeansQuery | backend/app/connectors/registry.py:157-198 | translation succeeds exactly on queries whose fields are mapped and whose operators are known; the text is an SQL expression exactly when no IN list and no substring search is empty; and then, parsed with NOT over AND over OR, it holds of exactly the rows the query tree selects, at every nesting |
| QueryText.ClauseIsSql | backend/app/connectors/registry.py:98-236 | the emitted text, or the error, is character for character what the string formatting yields: quoted and numeric literals, operators, intervals, lists, parentheses and joiners, at every nesting |
| QueryMeaning.TextParses | backend/app/connectors/registry.py:157-236 | lexing the emitted characters and parsing them gives the expected tree with nothing left over, so no quoting, spacing or missing parenthesis can change the reading |
| QueryMeaning.TranslatesIffMapped | backend/app/connectors/registry.py:61-64 | the error cases: an unmapped field or an unsupported operator anywhere in the tree stops the translation, and nothing else does |
| QueryMeaning.ExprMeans | backend/app/connectors/registry.py:160-198 | the tree read back holds of a row iff all of `must`, none of `must_not` and one of a non-empty `should` do; it is missing exactly for an empty list; what single literals come to is said by `QueryText.ClauseIsSql` and the end-to-end rows of `QueryValues` |
| QueryMeaning.EmptyIdsIsNotSql | backend/app/connectors/registry.py:191-193 | an empty `ids` list yields text that does not parse |
| QueryMeaning.ShippedTablesAreValid | backend/app/connectors/registry.py:71-95 | the two shipped tables satisfy the theorems' assumption on column names, and both have descriptive columns |
| QueryMeaning.ChainIsGroups | backend/app/connectors/registry.py:207-216 | the flat chain of terms and joiners is the OR of its maximal AND-groups, token for token |
| QueryMeaning.LuceneMeans | backend/app/connectors/registry.py:200-216 | a query string holds of a row iff some group has all its terms hold, or it is blank |
| QueryMeaning.TermMeans | backend/app/connectors/registry.py:218-236 | a term reads as its one comparison, or as the disjunction of the pattern searches over the descriptive columns; it is unreadable exactly for free text on a table without such columns |
| QueryMeaning.RangeAtomsMean | backend/app/connectors/registry.py:168-177 | the comparisons of a range hold iff every bound with a known key does |
| QueryCompiler.LuceneLoop | backend/app/connectors/registry.py:200-216 | the loop over split tokens emits the parenthesised chain, or `1` for a blank string |
| QueryValues.RangeIsInterval | backend/app/connectors/registry.py:168-177 | on a column holding a number, the text of a range holds iff the number lies within all of gte, gt, lte, lt, each bound being the decimal number written |
| QueryValues.TimeOperandMeans | backend/app/connectors/registry.py:145-155 | an operand denotes the stated time before now exactly when its text is `now` or `now-` digits and one of s, m, h, d; any other text is sent to the database as it is |
| QueryValues.TimeRangeIsWindow | backend/app/connectors/registry.py:145-177 | end to end: a range of texts on the timestamp holds of exactly the rows inside that window, each bound being the relative time it states or else the time that the database reads from its own text |
| QueryValues.TextTermMeans | backend/app/connectors/registry.py:178-183 | end to end: the text of a term holds of a row iff its column holds that very text |
| QueryValues.ArrayTermMeans | backend/app/connectors/registry.py:178-183 | on an array column, iff the text is among the elements |
| QueryValues.TextTermsMean | backend/app/connectors/registry.py:184-190 | the text of a list of texts holds iff the column holds one of them |
| QueryValues.ArrayTermsMean | backend/app/connectors/registry.py:184-189 | on an array column, iff one of them is among the elements; an empty list holds of none |
| QueryValues.IdsMean | backend/app/connectors/registry.py:191-193 | a list of ids holds of exactly the alerts with one of them |
| QueryValues.NumberTermMeans | backend/app/connectors/registry.py:98-103 | on a column of numbers, a Boolean or a number holds iff the column has that number |
| QueryValues.SplitOfWords | backend/app/connectors/registry.py:207-208 | splitting a text of terms, with blanks inside or not, and joiners between any blanks gives back exactly the terms and joiners |
| QueryValues.EveryQueryIsTerms | backend/app/connectors/registry.py:200-208 | every query string that is not blank is such a text |
| QueryValues.WordsQueryMeans | backend/app/connectors/registry.py:200-216 | end to end: a query string of terms and joiners holds of a row as its joiners say, AND before OR |
| QueryValues.ComparisonTermMeans | backend/app/connectors/registry.py:218-228 | a term such as `rule.level:>=10` compares the column with the number written, in the direction of its sign |
| QueryValues.TextComparisonIs | backend/app/connectors/registry.py:223-228 | with anything but a numeral after its sign, such a term compares with that text in the same direction |
| QueryValues.PlainTermMeans | backend/app/connectors/registry.py:218-231 | end to end: `field:value`, quoted or not, holds of a row iff its column holds that value, or has it in its array |
| QueryValues.FreeColumnsAre | backend/app/connectors/registry.py:234-235 | the searched columns are those of the four descriptive ones that the table has |
| QueryValues.ShippedFreeColumns | backend/app/connectors/registry.py:71-95 | in the shipped tables these are three and two named columns, in order |
| QueryValues.SearchTextIs | backend/app/connectors/registry.py:233 | what is searched for is what follows the last colon, without the quotes and stars around it |
| QueryValues.FreeQueryMeans | backend/app/connectors/registry.py:232-236 | end to end: a query string that names no mapped field and has no pattern mark holds iff its text is somewhere in a descriptive column |
| LikePatterns.PatternMeansIffUnmarked | backend/app/connectors/registry.py:229-236 | a pattern written by the compiler matches what is meant, for every value, iff no literal `%` or `_` and no escaping backslash is in it |
| LikePatterns.SearchMeansContainsIffPlain | backend/app/connectors/registry.py:232-236 | matching the pattern around a text is containing the text, for every value, iff the text is plain in that sense |
| LikePatterns.UnderscoreFindsMore | backend/app/connectors/registry.py:232-236 | a concrete text and value for which it is not |
| QueryValues.FreeTermMeansIffPlain | backend/app/connectors/registry.py:232-236 | a free-text term holds of exactly the rows with its text in a descriptive column, whatever these hold, iff the text is plain |
| QueryValues.StarTermMeansIffPlain | backend/app/connectors/registry.py:229-230 | a term with stars on a field holds of exactly the rows whose column matches it, each star any text, iff the rest of it is plain |
| SqlText.QuoteIsSqlStr | engine/util.go:10-13 | two replacements one after the other equal the simultaneous one on every string |
| SqlText.QuoteRoundTrip | backend/app/connectors/registry.py:98-104 | whatever text follows, a quoted literal ends at its own last quote and reads back as the original string |
| SqlText.OtherOrderBreaks | backend/app/connectors/registry.py:104 | replacing quotes first would end the literal early |
| SqlText.LexText | backend/app/connectors/registry.py:157-236 | the lexer gives back the tokens of any text whose neighbours cannot run together |
| Correlation.MatchEvent | engine/yaral.go:344-366 | over the raw fields: an event matches iff every test line of the variable accepts the field's text, or "" if missing, and every binding line finds a non-empty value; the last line that binds a placeholder gives its value |
| Correlation.FiledMeans | engine/correlator.go:47-59 | an event is filed under a key iff every test line of the first variable accepts, every binding line finds a value, and the key is the last-bound values of the join placeholders joined by bars, or a star without placeholders |
| Correlation.GroupKey | engine/correlator.go:82-97 | the join key, or none if a join value is missing or empty |
| Correlation.Joined | engine/correlator.go:99-108 | the values joined by bars |
| Correlation.WinState.Prune | engine/correlator.go:110-125 | compaction in place keeps, in order, exactly the timestamps not before newest - window |
| Correlation.WinState.Add | engine/correlator.go:61-74 | one arrival updates the window and fires iff enough are kept and the window has re-armed |
| Correlation.NewestIsKept | engine/correlator.go:61-77 | unless the window is negative the new arrival is kept, so no stored list is ever empty |
| Correlation.Correlator.constructor | engine/correlator.go:30-32 | starts with no windows |
| Correlation.Correlator.Observe | engine/correlator.go:38-80 | all rules in turn see the event: new state and alerts are those of the value model, in which `FiledMeans` says where an event goes and `RulesInOrder` in which order |
| Correlation.Correlator.ObserveRule | engine/correlator.go:47-78 | one rule's turn: unmatched or unjoined events change nothing |
| Correlation.Correlator.Accept | engine/correlator.go:61-77 | one key's window takes an arrival; no other key's window changes; an empty one is dropped |
| Correlation.Correlator.Slot | engine/correlator.go:59-65 | a key's window object, created on first use and shared with no other key |
| CorrelatorMonitor.StoredAreSurvivors | engine/correlator.go:61-68 | after any run, in any order of timestamps, the stored list is exactly the arrivals no more than one window older than any later one, in arrival order |
| CorrelatorMonitor.StoredCountInOrder | engine/correlator.go:110-125 | for ordered timestamps the stored count is the number of arrivals in the closed window ending now |
| CorrelatorMonitor.FiredIsLatest | engine/correlator.go:71-73 | the remembered firing time is that of the latest alert |
| CorrelatorMonitor.RefinesMonitor | engine/correlator.go:45-74 | for ordered timestamps the correlator fires on an arrival iff at least min arrivals lie in the window ending there and no alert is less than one window old |
| CorrelatorMonitor.MonitorExactlyWhenOrdered | engine/correlator.go:45-74 | correlator and monitor agree at every arrival, for every window and threshold, iff the timestamps arrive in order |
| CorrelatorMonitor.FiresInAnyOrder | engine/correlator.go:66-74 | for any order, it fires iff at least min arrivals survive and every earlier alert lies at least one window back in event time |
| CorrelatorMonitor.OverThresholdIsAlerted | engine/correlator.go:8-17 | every arrival over the threshold has an alert on it or less than one window before |
| CorrelatorMonitor.AlertsSpaced | engine/correlator.go:71-73 | alerts of one key are at least one window apart, for input in any order |
| CorrelatorMonitor.AlertsBounded | engine/correlator.go:66-74 | timestamps in [a, b] yield at most (b - a) / window + 1 alerts, in any order |
| CorrelatorMonitor.LateArrivalFires | engine/correlator.go:61-74 | a concrete out-of-order input on which correlator and monitor differ |
| CorrelatorMonitor.KeysDoNotInterfere | engine/correlator.go:45-79 | after any interleaved run, the window of a rule and key is the one its own events alone leave |
| CorrelatorMonitor.AlertsDoNotInterfere | engine/correlator.go:45-79 | for timestamps in any order, an alert of a rule and key is raised iff the event is filed there and that key's own history alone fires on it, at the count the condition asks for or one without a count |
| CorrelatorMonitor.CorrelatorRefinesMonitor | engine/correlator.go:38-80 | on a time-ordered stream with all rules and keys interleaved, an alert of a rule and key is raised iff the event is filed there and the monitor of that history alone fires, at the count the condition asks for or one without a count |
| CorrelatorMonitor.RulesInOrder | engine/correlator.go:46-80 | the rules see an event one after the other, each in the state the ones before it left, and alerts come in that order |
| CorrelatorMonitor.StateKeySplits | engine/correlator.go:59 | the state key determines rule name and join key |
| CorrelatorMonitor.JoinKeyGrows | engine/correlator.go:99-108 | one value is its own key, and each further value follows a bar |
| CorrelatorMonitor.SharedNameFires | engine/correlator.go:59 | rules of one name share their windows: a threshold of two is reached by one event |
| CorrelatorMonitor.JoinKeyInjective | engine/correlator.go:99-108 | equally long lists of bar-free values with the same key are equal |
| CorrelatorMonitor.KeyTellsIffBarFree | engine/correlator.go:99-108 | two values or more are told from every other list of as many by their key iff none contains a bar |
| CorrelatorMonitor.KeyTellsIffFixedBars | engine/correlator.go:91-108 | among non-empty values, which alone are joined, iff bars stand only at the start of the first value, at the end of the last, or as a whole value between |
| CorrelatorMonitor.DifferentValuesDifferentKeys | engine/correlator.go:82-97 | whatever else an event binds, other join values give another key if the bars are fixed in that way, and only if, for a rule that lists no placeholder twice |
| CorrelatorMonitor.BarsCollide | engine/correlator.go:99-108 | with a bar in a value two different joins collide |
| SigmaCondition.CondParser.Next | engine/sigma.go:362-368 | returns the current token, or the empty one past the end, and always advances |
| SigmaCondition.CondParser.ParseOr | engine/sigma.go:370-384 | the loop reads what the functional parser reads and leaves the cursor there |
| SigmaCondition.CondParser.ParseAnd | engine/sigma.go:386-400 | the same for conjunctions |
| SigmaCondition.CondParser.ParseNot | engine/sigma.go:402-412 | the same for negations |
| SigmaCondition.CondParser.ParseAtom | engine/sigma.go:414-441 | the same for atoms, with the three error cases |
| SigmaCondition.ParseCondition | engine/sigma.go:343-355 | tree, rejection or out-of-range index, as the whole token list gives |
| SigmaCondition.ParserDecidesGrammar | engine/sigma.go:343-441 | the parser returns a tree iff the tokens derive it in the layered or/and/not/atom grammar |
| SigmaCondition.DerivationIsUnique | engine/sigma.go:370-441 | tokens derive at most one tree |
| SigmaCondition.AcceptedMeansConsumed | engine/sigma.go:351-354 | an accepted condition is read to its last token |
| SigmaCondition.PanicsExactlyOnDanglingOf | engine/sigma.go:351-352 | the index goes out of range iff the tokens end in `of` and are accepted with a pattern after it, whichever pattern but a closing parenthesis |
| SigmaCondition.PanicsOnOverrun | engine/sigma.go:362-368 | it does iff an empty token, which is what the cursor reads past the end, would complete the derivation; the tokens then end in a quantifier and `of` |
| SigmaCondition.OneOfPanics | engine/sigma.go:343-352 | the text `1 of` does it |
| SigmaCondition.TokenizeSpaced | engine/sigma.go:344-346 | tokenising tokens written with spaces gives them back |
| SigmaCondition.PrintParseRoundTrip | engine/sigma.go:343-441 | printing any tree of nameable selections, tokenising the text and parsing it gives the tree back |
| SigmaCondition.ParsePrintRoundTrip | engine/sigma.go:343-441 | every tree the parser returns survives printing and parsing |
| SigmaCondition.PrintingIsShortest | engine/sigma.go:370-441 | no token sequence deriving the tree is shorter than the printed one, so its parentheses are the fewest |
| SigmaCondition.EvalOf | engine/sigma.go:315-333 | the counting loop, in any order of the map, decides "any" or "all" over the selections the pattern picks, and is false if it picks none |
| SigmaCondition.Eval | engine/sigma.go:311-314 | evaluation is the Boolean reading of the tree |
| SigmaReads.OfMeans | engine/sigma.go:315-340 | `1 of` and `any of` hold iff a picked selection matched, other quantifiers iff all did and there is one; picked are all by `them`, else the name itself or names that begin as the pattern does before its star |
| SigmaReads.SelectsMeans | engine/sigma.go:319-340 | which selections a pattern picks |
| SigmaReads.FoldsMeans | engine/sigma.go:376-425 | a keyword is recognised in any mix of upper and lower case and in no other spelling |
| SigmaReads.PrecedenceMeans | engine/sigma.go:342-412 | `a or b and not c` evaluates as a, or both b and not c, whatever the case of its keywords |
| SigmaReads.ParenthesesMean | engine/sigma.go:414-426 | `(a or b) and c` evaluates as c and one of a and b |
| SigmaReads.OfConditionMeans | engine/sigma.go:427-436 | a quantifier, `of` and a pattern are one node with these two |
| SigmaReads.NothingIsRefused | engine/sigma.go:437-439 | an empty condition is refused as ended |
| SigmaReads.QuantifierWantsOf | engine/sigma.go:428-432 | a leading quantifier without `of` is refused as that |
| SigmaReads.ParenthesisWantsClose | engine/sigma.go:416-425 | a parenthesis that stays open is refused as that |
| SigmaReads.RestIsRefused | engine/sigma.go:351-353 | what follows a complete condition is refused |
| SigmaReads.TokenizeAtSpace | engine/sigma.go:345-346 | a blank divides a text into the tokens before and after it |
| SigmaReads.TokenizeAtParen | engine/sigma.go:345-346 | so does a parenthesis, itself a token, with blanks around it or not |
| SigmaReads.TokenizeWord | engine/sigma.go:345-346 | a word without blanks and parentheses is one token |
| SigmaCondition.NumericQuantifierIsAll | engine/sigma.go:315-333 | a numeral other than 1 means "all"; it agrees with "at least N" on every outcome iff N is positive and the pattern picks none or exactly N |
| Workflow.FindStartNode | backend/app/services/workflow_engine.py:270-274 | the first trigger, or else the first node |
| Workflow.StartIs | backend/app/services/workflow_engine.py:270-274 | the start is the first node whose kind begins with `trigger.`, the first of all if none does |
| Workflow.NextNodes | backend/app/services/workflow_engine.py:277-288 | the known targets of the edges whose handle does not disagree with the branch, in edge order |
| Workflow.SuccessorsAre | backend/app/services/workflow_engine.py:277-288 | those are exactly the nodes the agreeing edges lead to |
| Workflow.ExecuteWorkflow | backend/app/services/workflow_engine.py:291-341 | on every graph the walk ends and logs, without repeats, exactly the nodes reachable over enabled edges, each with its own result, in order of shortest distance and, among those reached together, in the order of the log and the edges |
| Workflow.EntryMeans | backend/app/services/workflow_engine.py:318-333 | each entry is exactly what the executor returned for the node that runs under the id, or a failure without a branch if the kind has no executor or the executor raised |
| Workflow.EnabledMeans | backend/app/services/workflow_engine.py:277-339 | an edge is enabled iff its target is a node and its source returned `ok` or is a condition, and handle and branch agree or one is missing; after a failure only the edges of a condition are, all of them |
| Workflow.FailureStops | backend/app/services/workflow_engine.py:322-337 | no node is entered from one that raised or has no executor, unless that is a condition |
| Workflow.NodeAtIs | backend/app/services/workflow_engine.py:300-301 | the node that runs under an id is the start node or else the last one of that id |
| Workflow.LogIsDetermined | backend/app/services/workflow_engine.py:306-341 | the order of the log leaves no freedom: graph and engine determine it entirely |
| Workflow.WalkEnds | backend/app/services/workflow_engine.py:309-339 | with the queue empty the levels recorded are the shortest distances of the reachable nodes |
| Workflow.TakeNode | backend/app/services/workflow_engine.py:309-339 | logging a node and queueing its successors keeps the walk's invariant |
| Workflow.SkipVisited | backend/app/services/workflow_engine.py:312-313 | skipping a node already logged keeps it |
| Workflow.LogByDistance | backend/app/services/workflow_engine.py:309-341 | of two log entries the earlier is no farther from the start |
| Udm.SplitDotted | engine/udm.go:45 | splitting components joined by dots gives them back |
| Udm.DottedSplit | engine/udm.go:45 | joining the components of any path gives the path back |
| Udm.GetAfterSet | engine/udm.go:41-76 | reading any path after writing another: the value, nothing, a record, or what was there before, by how the paths compare |
| Udm.SetsCommute | engine/udm.go:41-59 | writes to prefix-incomparable paths commute |
| Udm.OrderIrrelevantIffPrefixFree | engine/udm.go:41-59 | a list of writes to distinct paths gives one record in every order iff no path is a prefix of another |
| Udm.LeavesDetermine | engine/udm.go:95-115 | records without empty maps are equal iff their leaves are |
| Udm.LeavesRebuild | engine/udm.go:41-59 | writing a record's leaves, in any order, into an empty one rebuilds it |
| Udm.SetStaysGood | engine/udm.go:41-59 | writing at a path of non-empty components keeps a record free of empty leaves, empty maps and unnamed keys |
| Udm.GoodIsNamed | engine/udm.go:41-59 | the leaves of such a record lie on paths of named components |
| Udm.Walk | engine/udm.go:97-111 | the recursive walk lists each leaf below once, in whatever order the maps come |
| Udm.Paths | engine/udm.go:95-115 | the walk's list, sorted: the texts of the leaves, none twice iff no two leaves share one |
| Udm.PathsListLeaves | engine/udm.go:95-115 | for every record the listed texts are sorted and those of the leaves, distinct iff no two leaves share one; on paths of named components they are distinct and exactly the leaves |
| Udm.Flat | engine/udm.go:117-123 | for every record the flat form maps the leaf texts to what their paths read; on paths of named components these are the leaves and their texts |
| Udm.FlatRebuilds | engine/udm.go:117-123 | setting every entry of the flat form into an empty record, in any order, rebuilds the record |
| Udm.LeadingEmptyComponentIsLost | engine/udm.go:100-103 | a leading empty component is lost in the listed path |
| UdmHeap.MapNode.Set | engine/udm.go:41-59 | the write in place is the write on values, and touches only the record's own maps |
| UdmHeap.MapNode.SetKeys | engine/udm.go:45-58 | the same along a split path |
| UdmHeap.MapNode.Enter | engine/udm.go:52-57 | the map under a key, a fresh one replacing a missing or scalar entry |
| UdmHeap.MapNode.Get | engine/udm.go:62-76 | the moving cursor finds what the path denotes, or nothing |
| JsonFields.FlattenOrderFreeIffNamesAgree | engine/parser.go:264-288 | flattening a document gives the same variables for every order of its maps iff leaves that flatten to one name have one text |
| JsonFields.NamedKeysAgree | engine/parser.go:277-280 | they do when all keys on the way to a leaf are non-empty and free of dots |
| JsonFields.DottedKeyCollides | engine/parser.go:275-288 | in a document with a dotted key and a nested one either value may stay |
| JsonFields.DocumentWrites | engine/parser.go:274-288 | in every order of visiting, the walk writes exactly the leaves, each under its dotted name |
| Normalizer.Interpolate | engine/parser.go:172-184 | the result puts together, part by part, the literal texts and the values of the variables; it is resolved iff every variable referred to is there and not empty |
| Normalizer.FilledConcat | engine/parser.go:172-184 | filling templates one after the other fills the whole; a literal fills to itself and a reference to its variable |
| NormalizerReads.SetStepReads | engine/parser.go:219-228 | after a set step on paths apart whose condition holds, each path reads the pieces of its template put together if every reference has a value and the text is not empty, else what it read before |
| NormalizerReads.LiteralIsWritten | engine/parser.go:223-228 | a template of literal text alone is read back as it stands |
| NormalizerReads.SetStepKeeps | engine/parser.go:219-228 | beside its paths a set step changes nothing, and nothing at all when its condition fails |
| NormalizerReads.StepKinds | engine/parser.go:194-229 | only set steps change the record, and only the other kinds the variables; earlier kinds go before |
| NormalizerReads.GrokStepMeans | engine/parser.go:195-204 | the captures of the first pattern that matches are added over the variables; without a match nothing changes |
| NormalizerReads.KvStepMeans | engine/parser.go:205-209 | the pairs found are added over the variables |
| NormalizerReads.JsonStepMeans | engine/parser.go:210-288 | the leaves of the object are added under their dotted names, one of those of a name, and nothing else changes; a text that is no object changes nothing |
| NormalizerReads.RenameStepMeans | engine/parser.go:213-218 | without chains each destination gets what its source held before; all else stays |
| NormalizerReads.StepsSplit | engine/parser.go:192-229 | a run of steps is a run of its first part followed by one of the rest |
| NormalizerReads.StepsJoin | engine/parser.go:192-229 | and two such runs make one |
| NormalizerReads.LogTypeReads | engine/parser.go:189-191 | the log type is written before the first step, if there is one, and nothing beside it |
| NormalizerReads.LastParser | engine/parser.go:317-323 | a parser runs on what the earlier ones leave iff its check passes there, and is then named after them |
| NormalizerReads.SeedReads | engine/parser.go:300-311 | the variables at the start: the parts of the event, its own fields over them |
| NormalizerReads.OpeningReads | engine/parser.go:313-315 | the record at the start: the event's time and program, each if not empty |
| NormalizerReads.BaselineReads | engine/parser.go:325-338 | the five baseline paths by name: what is read at each after completion |
| Normalizer.RenameOrderFreeIffNoChain | engine/parser.go:213-218 | a rename step is independent of map order iff no destination is another entry's source, apart from entries renaming a variable to itself |
| Normalizer.SetOrderFreeIffApart | engine/parser.go:219-228 | a set step gives one record for every map order iff no path it writes is a prefix of another it writes |
| Normalizer.ParserDeterministic | engine/parser.go:188-231 | any two runs of a parser end alike, if its rename and set steps meet those conditions and no document it flattens has names that collide |
| Normalizer.ParsersDeterministic | engine/parser.go:300-340 | so do any two runs of a whole parser set, with the same list of matched parsers |
| Normalizer.CollisionReachesTheRecord | engine/parser.go:209-228 | without the condition on documents they do not: a parser and a document for which either value may end up in the record |
| Normalizer.BaselineHasType | engine/parser.go:325-338 | every normalised event has an event type, whatever the parsers wrote |
| Normalizer.BaselineFills | engine/parser.go:325-338 | completing a record fills each baseline path that has something to be filled with, keeps a host name or event type a parser wrote, and changes no path beside these |
| Normalizer.Normalization.Rename | engine/parser.go:213-218 | the loop over the map is the renames in some order |
| Normalizer.Normalization.WriteSets | engine/parser.go:223-228 | the loop over the map is the writes in some order; what is read afterwards is said by `NormalizerReads.SetStepReads` |
| Normalizer.Normalization.Grok | engine/parser.go:196-204 | the captures of the first pattern that matches are merged |
| Normalizer.Normalization.FlattenJson | engine/parser.go:264-288 | a text that is not an object writes nothing, an object is flattened in some order |
| Normalizer.Normalization.Flatten | engine/parser.go:274-288 | the nested walk writes the leaves below, for some order of every map in it |
| Normalizer.Normalization.ApplyStep | engine/parser.go:192-229 | one filter step changes variables and record as its kind says |
| Normalizer.Normalization.Apply | engine/parser.go:188-231 | a parser's steps in order, after its log type |
| Normalizer.Normalize | engine/parser.go:300-340 | seeding, the parsers whose check passes in order, then the baseline fields; what each contributes is said by `SeedReads`, `LastParser`, the step rows and `BaselineReads` |
| Normalizer.Complete | engine/parser.go:325-338 | the baseline fields are filled where the code fills them |
| Sorting.SortLists | engine/parserstore.go:48-52 | sorting the keys, collected in any order, gives the one sorted listing of them |
| Sorting.ListingIsUnique | engine/parserstore.go:43-52 | a set has one sorted listing, so the merge is deterministic |
| Sorting.LexLeMeans | engine/parserstore.go:52 | of two different strings the lesser is the one that ends, or has the lesser character, where they first differ |
| Grok.SucceedsIffBounded | engine/grok.go:70-97 | expansion ends on every library and succeeds iff every chain of references fits under the depth guard and names only known patterns |
| Grok.ExpandsIffShallow | engine/grok.go:70-97 | a pattern expands iff no chain of references from it is longer than twenty and each ends in a known name |
| Grok.ErrorsMean | engine/grok.go:70-97 | an unknown name reported is one that a chain of references leads to; too deep is reported only for a chain that reaches past the guard |
| Grok.CyclesFail | engine/grok.go:70-73 | a pattern that leads back to itself is never expanded |
| Grok.TokensSpelled | engine/grok.go:78-96 | a successful expansion spells the full recursive substitution |
| Grok.SubstitutionIsUnique | engine/grok.go:78-96 | a pattern has at most one full substitution |
| Grok.ExpansionIsSubstitution | engine/grok.go:70-97 | the expansion is that substitution |
| Grok.ExpansionHasSubstitution | engine/grok.go:70-97 | whenever expansion succeeds the substitution exists |
| Grok.NameRoundTrip | engine/grok.go:99-102 | decoding the group name of a field gives the field back iff no underscore in it is followed by a dot or an underscore |
| ParserStore.LiveIsLastRow | engine/clickhouse.go:225-299 | a name is live with a text iff its last row has that text and is no tombstone |
| ParserStore.Store.Rebuild | engine/parserstore.go:44-67 | the list left has first the custom parsers, as many as there are, by strictly increasing names, then every base parser whose name is not custom, at strictly increasing base positions |
| ParserStore.ActiveInTiers | engine/parserstore.go:44-67 | the same of the active list as a value |
| ParserStore.ActiveHolds | engine/parserstore.go:44-67 | a parser is active iff it is the custom one of its name, or a base one of a name without a custom one |
| ParserStore.Store.IsBuiltin | engine/parserstore.go:75-82 | whether a base parser has the name |
| ParserStore.Store.Get | engine/parserstore.go:101-114 | the first active parser of the name with its log type and source, custom iff the name is, or none |
| ParserStore.Store.Upsert | engine/parserstore.go:118-144 | the error cases change nothing; otherwise one row is appended and the custom tier updated |
| ParserStore.Store.Delete | engine/parserstore.go:148-167 | the error cases change nothing; otherwise a tombstone is appended and the name removed |
| ParserStore.Store.LoadCustom | engine/parserstore.go:172-190 | the live rows that load as one parser are added, the others skipped, and counted |
| ParserStore.RunMirrors | engine/parserstore.go:118-167 | after any run, failed writes included, the table's live rows are exactly the custom parsers' documents |
| ParserDocs.SplitYaml | engine/parser.go:389-405 | the loop over lines splits a text into its documents |
| ParserDocs.ParseYaml | engine/parser.go:361-387 | blank and empty documents are skipped, one that is unreadable, nameless or does not compile fails all, and every parser keeps its trimmed document |
| ParserDocs.SplitAtSeparator | engine/parser.go:389-405 | a line of three dashes, blanks aside, divides a text into the documents before and after it |
| ParserDocs.OneDocument | engine/parser.go:389-405 | a text without such a line is one document |
| ParserDocs.LoadsIff | engine/parser.go:361-387 | a text loads iff each document is blank, empty, or a named parser that compiles; loaded are these parsers, in order, each with its trimmed document |
| ParserDocs.LoadedHasSource | engine/parserstore.go:130-132 | every loaded parser has a source already, so this branch is never taken |
| ParserDocs.TrimmedDocIsOne | engine/parser.go:378-405 | a document of any text, trimmed, is split into itself and a final newline |
| ParserDocs.ReloadsIff | engine/parserstore.go:181-187 | a stored document comes back as its parser iff its trimmed text with a newline decodes to what the document decoded to |
| IndentedDocs.StoredIsReadIffAtMargin | engine/parser.go:378 | for plain block mappings it does iff there is one entry or the first entry stands at the margin |
| ParserStore.RunStands | engine/parserstore.go:118-167 | after any run the custom parsers are those read from the documents accepted last and not deleted |
| ParserStore.RestartRestores | engine/parserstore.go:169-190 | a restart on the persisted table restores the custom parsers iff every submitted document that stands, trimmed, decodes as it did when accepted; and then the active list too, in order |
| ParserStore.ActiveTellsCustom | engine/parserstore.go:44-67 | unless a base parser equals a custom one, the active list is restored iff the custom parsers are |
| ParserStore.LossMayNotShow | engine/parserstore.go:44-67 | if one does, the list may be the same although the custom parser is lost |
| ParserStore.PlainRestartRestores | engine/parserstore.go:169-190 | for plain block mappings a restart restores all iff each has a single entry or its first entry at the margin |
| ParserStore.IndentedPairIsLost | engine/parserstore.go:118-144 | every indented mapping of two entries is accepted, saved and lost by the next restart |
| ParserStore.Restart | engine/parserstore.go:169-190 | a fresh store on the table holds what the table reloads |
| ParserStore.DeleteAnswers | engine/parserstore.go:146-167 | a delete answers "not found" iff no active parser has the name and "built in" iff one has it without being custom; an error changes nothing, and success reveals the base parsers of the name |
| ParserStore.PutThenRemove | engine/parserstore.go:118-167 | an upsert and a delete of its name restore the custom tier iff the name was not custom before, and then the active list too |
| Forwarder.PostJSON | agent/forward.go:84-116 | delivered iff the context has not ended and an attempt is answered with a status below 300 before it does; a post that fails on its own waits seven and a half seconds |
| Forwarder.DeliversMeans | agent/forward.go:92-115 | some attempt is answered with a status below 300, no earlier one is, and no wait before it is cut short |
| Forwarder.EndsMeans | agent/forward.go:92-115 | the context ends during a post iff it ends in some wait that the post comes to |
| Forwarder.FullWait | agent/forward.go:91-114 | the four waits of a post that fails add up to seven and a half seconds, the last one for nothing |
| Forwarder.OutageLosesNothingIff | agent/forward.go:84-116 | whenever a batch is posted and however long requests take, an outage of that length loses none iff it lasts at most 3.5 seconds, when the fourth attempt begins |
| Forwarder.Forwarder.Submit | agent/forward.go:31-43 | queued, or dropped when the queue is full |
| Forwarder.Forwarder.Flush | agent/forward.go:51-59 | a non-empty batch is posted once and emptied, delivered or not |
| Forwarder.Forwarder.Receive | agent/forward.go:65-69 | the head of the queue joins the batch, which is flushed when full |
| Forwarder.Forwarder.Tick | agent/forward.go:70-71 | a tick flushes whatever the batch holds |
| Forwarder.Forwarder.Stop | agent/forward.go:62-64 | the last flush |
| Forwarder.StepKeeps | agent/forward.go:33-74 | every step keeps order, batch sizes and queue bound |
| Forwarder.EventsAreKeptInOrder | agent/forward.go:33-74 | in every run the accepted events are, in order, the posted batches, the current batch and the queue; batches have 1 to 500 events |
| Forwarder.SubmittedIsSplit | agent/forward.go:31-43 | every submitted event is accepted or dropped, as multisets |
| Forwarder.NothingUnaccountedFor | agent/forward.go:33-74 | submitted = dropped + delivered + lost + pending, in every run |
| Forwarder.DropsExactlyWhenFull | agent/forward.go:31-43 | in every run an event is dropped iff 16384 accepted events are neither posted nor in the batch |
| Forwarder.WhenBatchesArePosted | agent/forward.go:51-74 | in every run a batch is posted when its 500th event arrives, and on a tick or at shutdown if it holds anything, whole and only then; it is delivered iff an attempt gets through |
| Forwarder.NothingDeliveredAfterEnd | agent/forward.go:84-116 | once the context has ended no step delivers anything |
| Forwarder.ShutdownLosesTheBatch | agent/forward.go:51-64 | in every run that goes on after the context has ended, nothing more is delivered, and once the loop has stopped the events of the batch held then are in a posted batch that was not delivered |
| Fim.Monitor.Turn | agent/fim.go:31-55 | one scan's events, in any order, and the new snapshot |
| Fim.Watch | agent/fim.go:27-61 | a run of scans yields each scan's reports against the one before, none for the first |
| Fim.ExactlyTheDifferences | agent/fim.go:34-48 | a scan reports a path, once, iff its hash or its presence differs, and the event's kind and content say which way |
| Fim.ReplayGivesScan | agent/fim.go:34-55 | replaying a scan's events, in any order, turns the previous hashes into the current ones |
| Fim.ReplayGivesLatest | agent/fim.go:27-61 | replaying everything reported onto the first scan gives the latest |
| Fim.FirstTurnIsSilent | agent/fim.go:37-39 | the first scan is the baseline and reports nothing |

## Left out

- HTTP servers and clients, database calls, syslog, job queues and object storage: a request's answer, a write's success and the table's log are parameters.
- Regular expressions, YAML, JSON and SHA-256: patterns, checks, decoders of one document and hashes are arbitrary functions, and so is the splitter of key-value text; grok expressions and templates are sequences of text and references already split.
- The selection predicates of Sigma rules and the text syntax of detection rules: a rule is its parsed form.
- SQL aggregations, ordering and response reshaping: they need a model of grouping.
- QueryMeaning.ClauseMeansQuery: `filter` is ignored and `should` is required, as the code has it, not as OpenSearch defines them; `term`, `match` and `match_phrase` are one node kind, and a node's single key is part of the tree's form.
- QueryValues.RangeIsInterval: numbers are written as plain decimals; floats that print with an exponent, `inf` or `nan` are not scalars of the model, and digits and field-name characters are ASCII.
- QueryValues.TimeRangeIsWindow: a day is 86400 seconds; what the database makes of a timestamp string is left to the row.
- SqlText.QuoteRoundTrip: the reader refuses backslash sequences other than the two that are written.
- CorrelatorMonitor.RefinesMonitor: "never fired" is an option, where the code compares with the zero time; the difference of two times does not saturate; the lock is not modelled.
- CorrelatorMonitor.CorrelatorRefinesMonitor: rule names are distinct and windows are not negative; `Correlation.Correlator.Observe` itself covers both cases.
- Alert contents, identifiers and counters.
- SigmaCondition.ParserDecidesGrammar: lower-casing is ASCII; no other letter folds to a keyword's letter.
- Workflow.ExecuteWorkflow: an executor's result is a function of the node, since the context it reads does not change during a walk; labels and detail texts are left out.
- UdmHeap.MapNode.Set: the loop that moves down the maps is written as recursion; values other than strings are left out.
- Normalizer.ParserDeterministic: a decoded JSON document has texts for its scalars and lists, as they print.
- Udm.FlatRebuilds: records as `Set` builds them from non-empty strings on paths of non-empty components.
- IndentedDocs.StoredIsReadIffAtMargin: beyond block mappings of words to words nothing is said of how YAML reads a document.
- LikePatterns.PatternMeansIffUnmarked: letter case is folded character by character in some way that keeps `%`, `_` and the backslash apart; a pattern that ends in a lone backslash, which the database refuses, matches nothing.
- ParserStore.RestartRestores: rows are ordered as written, so equal or skewed update times, a write that fails after it was stored, and concurrent upserts and deletes are not covered.
- The store's `List`, which re-sorts the active list for display.
- Forwarder.OutageLosesNothingIff: requests made outside the outage succeed, and the queue is not full.
- Forwarder.NothingUnaccountedFor: a batch that the engine stored although the answer was lost counts as lost, so duplicates created by a retry are not seen.
- Fim.ReplayGivesLatest: events are taken as generated; a failed post of them is not repeated by the code.
- File tailing, inventories, vulnerability matching, the language-model and retrieval services, and the user interface.
