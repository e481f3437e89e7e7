# Alaya: graph algorithms, streaming artifacts, lexical units, rate limits and trust state

This project models the algorithmic core of the Alaya repository in Dafny and proves what that core
is for. `dafny verify dfyconfig.toml` checks everything.

## What is modelled

**Strongly connected components** (`Reachability`, `Tarjan`). The recursive counter with its
mutable index, stack, set and two maps is a class. The count is the number of mutual-reachability
classes of everything reachable from the given keys, listed or not. The invariant ties each low link
to a stacked key it reaches and each stacked key to the calls still running.

**Widest paths that stop and continue** (`MaxMin*`). `MaxMinSpec` says what a max-min field is (the
best, over paths, of the least grade on the path) without mentioning the algorithm. `MaxMinMachine`
is the relaxation loop as a step function on values and a leftist heap; its invariant says that each
edge is relaxed or covered by a live queue item at the same or a smaller offset. On it rest: the field
is reached, on cyclic graphs too; popped strengths never rise and each edge is relaxed once, so the
steps are bounded. The loops of `max-min-field.ts` are methods proved against that machine, and on their
contracts rest the theorems about calls: any chain of limited calls equals one call with the summed
limit, a flat worklist resumes to the same values, and a grown graph continued with the right worklist
gives what a fresh solve of it gives, for the caller in
`packages/core/src/recall/conditional-field/engine/field-graph-preparation.ts` as well.

**The AND/OR evaluator** (`BooleanHypergraph`, `UnaryAgreement`). The graded least fixed point is
stated through finite derivations. Trying only the grades that occur loses nothing. On unary edges
evaluator and solver return the same map.

**The containers** (`PersistentStringMap`, `WorkQueue`) refine a map and a multiset, with the AVL and
leftist size bounds. Keys compare by UTF-16 code unit (`Keys`); non-finite numbers have their own
constructor (`Numbers`).

**Diagnostics JSON** (`Json`, `JsonParser`, `JsonReader`, `JsonStreamReader`, `JsonStreaming`,
`JsonScan`, `JsonRefusals`, `SidecarArtifact`, `SidecarRoundTrip`). The reader is a class whose `Consume` works on chunk
indices and slices, with its step back; it is proved equal to a machine that takes one character at a
time, so the cutting into chunks cannot matter. What the writer renders is one JSON object and reads
back as the sidecar's own properties and questions, for every cutting; truncated, trailing, repeated and
oversized input is refused.

**Time windows** (`CivilCalendar`, `TemporalWindows`, `AbsoluteWindows`). The Gregorian day
arithmetic of section 21.4.1 of ECMA-262, with its round trips, and the windows over it for every
instant and every zone offset.

**Lexical units** (`SourceLexical`), **rate limiting** (`RateLimit`) and **trust state**
(`TrustRecords`, `TrustRecorder`): a streaming splitter, a timed table and a concurrent protocol.

## Where the code does less than its documentation or names suggest

- `Date.UTC` reads the years 0 to 99 as 1900 to 1999. For anchors in those years "today" is not today
  (`TemporalWindows.YearFiftyMissed`); every window law is therefore stated as an equivalence with the
  exact condition on the year.
- The tile law holds for every year, but the year window of year 99 is empty and that of year -1
  spans nineteen centuries (`TemporalWindows.OffsetWindowNonEmpty`, `TemporalWindows.YearWindowExact`).
- A usage report that lists objects is stored without its own id list; the ids are derived again when
  it is read. Repeating such a report is refused as a conflict unless its ids stand in the order of
  the objects without repeats (`TrustRecords.ReplayExact`, `TrustRecords.ReplayRefused`).
- For the same reason two reports that disagree, as the code compares them, can both succeed for one
  delivery, and their callers then hold different records (`TrustRecorder.DisagreeingBothSucceed`). That
  happens exactly when one of them wrote the row and does not read back alike
  (`TrustRecorder.WriterAndReplayer`, `TrustRecorder.SuccessesAgree`).
- A report without objects whose state is not "used" may name a delivered memory entry under another
  kind in its per-anchor rows (`TrustRecords.AnchorKindUnchecked`); a kind goes unchecked exactly when
  the report lists no objects and the kind is not memory entry (`TrustRecords.AnchorCited`).
- The rate limiter keeps a sharper bound than twice the quota: one request less, and that is reached
  (`RateLimit.AllowsBounded`, `RateLimit.BoundReached`).

## Model

| member | source | states |
|---|---|---|
| `Keys.Trichotomy` | packages/graph-algorithms/src/persistent-string-map.ts:12-13 | code-unit order is total and irreflexive: exactly one of less, equal, greater |
| `Keys.LessExact` | packages/graph-algorithms/src/persistent-string-map.ts:13 | a key is less exactly when it is a proper prefix or has the smaller code unit at the first difference |
| `Numbers.ClampMonotone` | packages/graph-algorithms/src/max-min-field.ts:102-108 | clamping keeps order, so raising an offered grade never lowers the stored one |
| `Numbers.ClampIdentity` | packages/graph-algorithms/src/max-min-field.ts:102-108 | clamping changes no grade that is already within bounds |
| `Reachability.ReachableExact` | packages/graph-algorithms/src/index.ts:51-55 | the finite set the count is about is exactly what some listed key reaches by edges |
| `Tarjan.CountStronglyConnectedComponents` | packages/graph-algorithms/src/index.ts:45-57 | the count is the number of mutual-reachability classes of all reachable nodes; every such node is pushed once and popped once |
| `Tarjan.TarjanState.StrongConnect` | packages/graph-algorithms/src/index.ts:70-103 | a call on an unvisited key keeps the whole invariant, visits everything it can reach, and its low link is the number of a stacked key it reaches; no tracked number is missing |
| `Tarjan.TarjanState.SettleComponent` | packages/graph-algorithms/src/index.ts:113-129 | pops exactly the segment down to the root, each key once, without underflow |
| `Tarjan.TarjanState.EndCall` | packages/graph-algorithms/src/index.ts:97-102 | the end of a call settles exactly the root's class or leaves the key stacked, and keeps what callers rely on |
| `Tarjan.TarjanState.TrackNode` | packages/graph-algorithms/src/index.ts:105-111 | the key is numbered, linked to itself and stacked; nothing else changes |
| `Tarjan.SettledNeighbour` | packages/graph-algorithms/src/index.ts:77-95 | skipping a visited neighbour off the stack is right: the loop invariant advances unchanged |
| `Tarjan.StackedNeighbour` | packages/graph-algorithms/src/index.ts:87-94 | lowering the link to a stacked neighbour's number keeps the loop invariant |
| `Tarjan.VisitedNeighbour` | packages/graph-algorithms/src/index.ts:78-86 | after a recursive call, lowering to the neighbour's link keeps the loop invariant |
| `Tarjan.SegmentIsClass` | packages/graph-algorithms/src/index.ts:97-102 | when link equals number, the stack segment above the root is exactly one mutual-reachability class |
| `Tarjan.FinishRoot` | packages/graph-algorithms/src/index.ts:97-102 | settling there adds one new class and keeps the invariant of the caller |
| `Tarjan.FinishStacked` | packages/graph-algorithms/src/index.ts:97-103 | a call whose link stayed lower leaves its key stacked and able to reach a running call |
| `Tarjan.RestCounts` | packages/graph-algorithms/src/index.ts:51-56 | with no call running, the settled components are exactly the classes of the reachable nodes |
| `PersistentStringMap.InsertRefines` | packages/graph-algorithms/src/persistent-string-map.ts:39-42 | inserting keeps key order, balance, heights and sizes, and is the map update |
| `PersistentStringMap.WithAllRefines` | packages/graph-algorithms/src/persistent-string-map.ts:39-42 | the same over every sequence of updates |
| `PersistentStringMap.InsertBalanced` | packages/graph-algorithms/src/persistent-string-map.ts:58-76 | insertion restores AVL balance and grows the height by at most one |
| `PersistentStringMap.InsertEntries` | packages/graph-algorithms/src/persistent-string-map.ts:58-93 | the in-order entries after insertion are the sorted list with the entry put in place |
| `PersistentStringMap.RebalanceEntries` | packages/graph-algorithms/src/persistent-string-map.ts:64-86 | no rotation loses, adds or reorders an entry |
| `PersistentStringMap.SizeCountsEntries` | packages/graph-algorithms/src/persistent-string-map.ts:53-56 | the cached size is the number of entries |
| `PersistentStringMap.SizeBound` | packages/graph-algorithms/src/persistent-string-map.ts:58-76 | a balanced tree of height h holds at least Fib(h + 2) - 1 entries |
| `PersistentStringMap.Get` | packages/graph-algorithms/src/persistent-string-map.ts:9-16 | the cursor loop returns the abstract map's value, or nothing exactly for absent keys |
| `PersistentStringMap.Has` | packages/graph-algorithms/src/persistent-string-map.ts:18-25 | true exactly for present keys, whatever value they hold |
| `PersistentStringMap.EntryAt` | packages/graph-algorithms/src/persistent-string-map.ts:27-37 | the i-th sorted entry, or nothing exactly outside 0 to size - 1 |
| `WorkQueue.MergeItems` | packages/graph-algorithms/src/max-min-work-queue.ts:27-35 | merging adds the multisets of items |
| `WorkQueue.MergeValid` | packages/graph-algorithms/src/max-min-work-queue.ts:27-35 | merging keeps heap order, the leftist rule and the cached ranks and sizes |
| `WorkQueue.PushRefines` | packages/graph-algorithms/src/max-min-work-queue.ts:9-11 | pushing adds one item and keeps validity |
| `WorkQueue.PopRefines` | packages/graph-algorithms/src/max-min-work-queue.ts:12-15 | the popped item is of maximal strength, and exactly it leaves the queue |
| `WorkQueue.SizeIsCount` | packages/graph-algorithms/src/max-min-work-queue.ts:8-34 | the cached size is the number of items |
| `WorkQueue.RankBound` | packages/graph-algorithms/src/max-min-work-queue.ts:27-35 | a heap of rank r holds at least 2^r - 1 items |
| `WorkQueue.Drain` | packages/graph-algorithms/src/max-min-work-queue.ts:16-24 | the iterator yields each stored item exactly once |
| `MaxMinSpec.FieldUnique` | packages/graph-algorithms/src/max-min-field.ts:165-204 | start values and edges, however listed, have at most one max-min field |
| `MaxMinSpec.ClosedIsField` | packages/graph-algorithms/src/max-min-field.ts:193-201 | values above the start, supported by paths and closed under relaxation are the field |
| `MaxMinMachine.StepInv` | packages/graph-algorithms/src/max-min-field.ts:185-201 | every step keeps: each edge is relaxed or covered by a live queue item, and every value is supported by a path |
| `MaxMinMachine.RunInv` | packages/graph-algorithms/src/max-min-field.ts:181-202 | so does every run |
| `MaxMinMachine.EmptyQueueIsField` | packages/graph-algorithms/src/max-min-field.ts:181-203 | with an empty queue the values are the max-min field, absent exactly where unreachable |
| `MaxMinMachine.RunSplit` | packages/graph-algorithms/src/max-min-field.ts:180-184 | m steps and then n more are m + n steps: state and step count alike |
| `MaxMinMachine.ChangesAccumulate` | packages/graph-algorithms/src/max-min-field.ts:198-199 | recorded changes only add up and never influence values or queue |
| `MaxMinTermination.StepDecreases` | packages/graph-algorithms/src/max-min-field.ts:185-201 | each step raises a value for good within finitely many grades, or uses up queued work |
| `MaxMinTermination.Completes` | packages/graph-algorithms/src/max-min-field.ts:181-203 | the loop ends for every graph, cyclic ones too, and every queue |
| `MaxMinOrder.PopsNeverIncrease` | packages/graph-algorithms/src/max-min-field.ts:185-200 | from a fresh queue popped strengths never increase |
| `MaxMinOrder.ExpandedOnlyAtFinalValue` | packages/graph-algorithms/src/max-min-field.ts:188-200 | a node is expanded only at the value it keeps to the end |
| `MaxMinOrder.EachEdgeOnce` | packages/graph-algorithms/src/max-min-field.ts:190-194 | no edge is relaxed twice |
| `MaxMinOrder.StepsBounded` | packages/graph-algorithms/src/max-min-field.ts:180-203 | steps are at most the initial values plus twice the edges |
| `MaxMinGraph.DecimalInjective` | packages/graph-algorithms/src/max-min-field.ts:36-38 | different offsets have different decimal keys |
| `MaxMinGraph.AppendLists` | packages/graph-algorithms/src/max-min-field.ts:34-40 | appending adds at the end and loses or moves no earlier edge |
| `MaxMinGraph.At` | packages/graph-algorithms/src/max-min-field.ts:36 | the edge at an offset, or nothing exactly past the end |
| `MaxMinGraph.ExtendMaxMinGraph` | packages/graph-algorithms/src/max-min-field.ts:42-52 | the node set grows by the ids, and each list by its transitions with both ends present, in order |
| `MaxMinGraph.WithinMembers` | packages/graph-algorithms/src/max-min-field.ts:47-50 | exactly the given transitions with both ends present are appended |
| `MaxMinField.InitialValues` | packages/graph-algorithms/src/max-min-field.ts:110-134 | each start value is the largest of the node's prior value and clamped seeds, absent exactly where there is none, and the changes are exactly what seeds raised |
| `MaxMinField.RaiseAllExact` | packages/graph-algorithms/src/max-min-field.ts:118-132 | offering numbers one by one yields the maxima of what was there and the clamped offers at known nodes, and nothing else does |
| `MaxMinField.LegalTransitions` | packages/graph-algorithms/src/max-min-field.ts:136-153 | there is an increasing list of exactly the indices of transitions between known nodes, and the result holds those transitions with their strengths clamped |
| `MaxMinField.Adjacency` | packages/graph-algorithms/src/max-min-field.ts:155-163 | each node's list is its transitions in order |
| `MaxMinField.RelaxOne` | packages/graph-algorithms/src/max-min-field.ts:185-201 | the loop body on tree and heap is one machine step |
| `MaxMinField.Improve` | packages/graph-algorithms/src/max-min-field.ts:195-200 | a node is raised, recorded and queued exactly when it had no value or a smaller one |
| `MaxMinField.RelaxMaxMin` | packages/graph-algorithms/src/max-min-field.ts:165-204 | the loop runs the machine until the queue is empty or the limit is met, counts its steps, and returns a valid queue |
| `MaxMinSolver.SolveMaxMinField` | packages/graph-algorithms/src/max-min-field.ts:65-89 | rejects exactly a bad top; otherwise values, queue, changes, steps and completion are those of the machine from the start state, values and queue are fit to be continued, and the retained transitions are the rows between known nodes, clamped and in order |
| `MaxMinSolver.TopExact` | packages/graph-algorithms/src/max-min-field.ts:91-96 | a top is accepted exactly when it is a natural number |
| `MaxMinTheorems.FreshSolveIsField` | packages/graph-algorithms/src/max-min-field.ts:65-89 | a completed fresh solve returns the max-min field of its start values |
| `MaxMinTheorems.FreshSolveIsMaximum` | packages/graph-algorithms/src/max-min-field.ts:65-89 | each value is the largest, over seeds, prior values and paths, of the least of the grade given and the strengths on the way; a node is absent exactly when nothing arrives |
| `MaxMinTheorems.FreshSolveSteps` | packages/graph-algorithms/src/max-min-field.ts:65-89 | the step bound, for every work limit |
| `MaxMinTheorems.ChangedValuesExact` | packages/graph-algorithms/src/max-min-field.ts:56-57 | the changed values are exactly the coordinates created or raised, at their final value |
| `MaxMinTheorems.SeedsAbsorbed` | packages/graph-algorithms/src/max-min-field.ts:125-132 | offering absorbed seeds again on resume changes nothing |
| `MaxMinTheorems.ResumeExact` | packages/graph-algorithms/src/max-min-field.ts:110-134 | stopping after a steps and resuming with limit b equals one call with limit a + b in values, queue, completion, steps and changes |
| `MaxMinTheorems.ContinuesValid` | packages/graph-algorithms/src/max-min-field.ts:80-88 | what a call returns meets the conditions of the call that continues it |
| `MaxMinTheorems.ChainExact` | packages/graph-algorithms/src/max-min-field.ts:110-134 | calls chained through values and queue, with any sequence of limits and the seeds offered again or not, end with the values, queue and completion of one call with the summed limit, in as many steps and with the same changed values overall |
| `MaxMinTheorems.FlatResume` | packages/graph-algorithms/src/max-min-field.ts:84 | a fresh call stopped anywhere and resumed by a call with its queue's items as worklist, in any order, completes with the values of the uninterrupted call |
| `MaxMinTheorems.FreshRetains` | packages/graph-algorithms/src/max-min-field.ts:165-204 | wherever a fresh call stops, values and queue still cover the graph |
| `MaxMinTheorems.RetainedMatchesFresh` | packages/graph-algorithms/src/max-min-field.ts:165-204 | covering values with no work left are those of any completed fresh solve of the same start values and edges |
| `MaxMinIncremental.GrowthKeepsInv` | packages/graph-algorithms/src/max-min-field.ts:42-52 | requeueing raised seeds and grown lists at their old length restores the invariant on the grown graph |
| `MaxMinIncremental.IncrementalEqualsFresh` | packages/graph-algorithms/src/max-min-field.ts:165-204 | continuing a retained machine state on grown edges gives the values of a fresh solve |
| `MaxMinIncremental.GrownRetains` | packages/graph-algorithms/src/max-min-field.ts:42-52 | a call on what extendMaxMinGraph returns, with the described worklist, leaves values and queue that cover the grown graph |
| `MaxMinIncremental.IncrementalSolveEqualsFresh` | packages/graph-algorithms/src/max-min-field.ts:42-89 | growing a prepared graph and continuing values and queue with the described worklist completes with the values of a fresh call on the grown graph with all seeds |
| `MaxMinIncremental.GrownEqualsOneSolve` | packages/graph-algorithms/src/max-min-field.ts:42-89 | a fresh call stopped anywhere, its continuation on the grown graph with more seeds, and one fresh call with all seeds: the last two return the same values, provided no seed of the first names a node added later |
| `MaxMinIncremental.EventsKeepInv` | packages/core/src/recall/conditional-field/engine/field-graph-preparation.ts:133-204 | whatever the order of admitted seeds, transitions and relaxations, the retained state keeps the invariant |
| `MaxMinIncremental.FieldMatchesFreshSolve` | packages/core/src/recall/conditional-field/engine/field-graph-preparation.ts:133-204 | whenever the retained queue is empty, its values are those of a fresh solve of all rows so far |
| `MaxMinIncremental.FieldMatchesSeededSolve` | packages/core/src/recall/conditional-field/engine/field-graph-preparation.ts:143-192 | the same against a call that lists the admitted seeds and has top 1000 |
| `MaxMinIncremental.FieldSettles` | packages/core/src/recall/conditional-field/engine/field-graph-preparation.ts:143-153 | from every retained state enough relaxations empty the queue |
| `BooleanHypergraph.EvaluateBooleanHypergraph` | packages/graph-algorithms/src/boolean-hypergraph.ts:43-59 | refuses exactly a bad top; otherwise, for every grade, a node has a derivation in the input at it exactly when its value is there and at least that grade; AND needs all premises, OR one, unary and identity their source, edges count when all their nodes are known and their clamped strength reaches the grade |
| `BooleanHypergraph.ClosureEvaluates` | packages/graph-algorithms/src/boolean-hypergraph.ts:80-129 | derivations in the input are those from the collected seeds and legal edges |
| `BooleanHypergraph.ClosureAtGrade` | packages/graph-algorithms/src/boolean-hypergraph.ts:159-186 | exactly the nodes with a finite derivation at the grade |
| `BooleanHypergraph.LegalEdges` | packages/graph-algorithms/src/boolean-hypergraph.ts:96-129 | in order, exactly the edges whose nodes are all known, each of its own kind with its strength clamped |
| `BooleanHypergraph.IndexByPremise` | packages/graph-algorithms/src/boolean-hypergraph.ts:131-143 | each node's list has exactly the edges with it as a premise |
| `BooleanHypergraph.CollectSeeds` | packages/graph-algorithms/src/boolean-hypergraph.ts:80-94 | per known node the largest clamped seed, absent exactly where none is given |
| `BooleanHypergraph.DescendingGrades` | packages/graph-algorithms/src/boolean-hypergraph.ts:145-157 | strictly descending, and exactly the seed and strength grades, top for identities |
| `BooleanHypergraph.FireDerivable` | packages/graph-algorithms/src/boolean-hypergraph.ts:188-200 | an edge that fires on derivable nodes derives its target: AND needs all, OR one, identity copies |
| `BooleanHypergraph.GradeLift` | packages/graph-algorithms/src/boolean-hypergraph.ts:145-157 | a derivation at any grade is one at a collected grade at least as large |
| `BooleanHypergraph.TriedIsClosure` | packages/graph-algorithms/src/boolean-hypergraph.ts:52-58 | keeping the first grade per node over the descending grades gives the graded closure |
| `UnaryAgreement.ClosureIsField` | packages/graph-algorithms/src/boolean-hypergraph.ts:188-200 | the graded closure of unary edges is the max-min field |
| `UnaryAgreement.UnaryAgrees` | packages/graph-algorithms/src/boolean-hypergraph.ts:43-59 | on unary inputs evaluator and fresh solver return the same map, zeros and absences included |
| `JsonParser.ParsePrint` | apps/bench-runner/src/artifacts/artifact-json-reader.ts:313-320 | parsing undoes compact printing, for every JSON value |
| `Json.EscapeTable` | apps/bench-runner/src/artifacts/artifact-gzip-stream.ts:69-72 | the short escapes of section 7 of RFC 8259, and plain characters as they are |
| `JsonReader.FeedAllConcat` | apps/bench-runner/src/artifacts/artifact-json-reader.ts:67-82 | feeding a text is feeding its front and then its back |
| `JsonReader.ChunkIndependence` | apps/bench-runner/src/artifacts/artifact-json-reader.ts:67-98 | two cuttings of one text are accepted or refused alike, with the same metadata and questions |
| `JsonReader.FeedOnceSteady` | apps/bench-runner/src/artifacts/artifact-json-reader.ts:104-117 | a character handed back leaves the reader after a value, where it cannot be handed back again |
| `JsonReader.SecondLookConsumes` | apps/bench-runner/src/artifacts/artifact-json-reader.ts:79 | so no character is processed more than twice, and the step back ends |
| `JsonRefusals.FinishExact` | apps/bench-runner/src/artifacts/artifact-json-reader.ts:84-98 | a document exactly after a closed object with a questions array and the expected version, holding what was read |
| `JsonRefusals.TrailingGarbageRefused` | apps/bench-runner/src/artifacts/artifact-json-reader.ts:115-116 | after an accepted text exactly white space may follow, and it changes nothing |
| `JsonRefusals.TruncatedRefused` | apps/bench-runner/src/artifacts/artifact-json-reader.ts:85-87 | no front part of an accepted text that leaves out more than white space is accepted |
| `JsonRefusals.TrailingCommaRefused` | apps/bench-runner/src/artifacts/artifact-json-reader.ts:126-132 | a closing brace or bracket after a comma is refused, whatever follows |
| `JsonRefusals.OtherStartRefused` | apps/bench-runner/src/artifacts/artifact-json-reader.ts:119-124 | a text that does not begin with an open brace is refused |
| `JsonRefusals.OversizeRefused` | apps/bench-runner/src/artifacts/artifact-json-reader.ts:139-250 | an open key of 1024 characters, a question at its limit and a metadata value at 16 Mi take no further character |
| `SidecarArtifact.DuplicateKeyRefused` | apps/bench-runner/src/artifacts/artifact-json-reader.ts:145-147 | a key that was read before is refused, whatever follows |
| `JsonStreamReader.DiagnosticsJsonStreamReader.Consume` | apps/bench-runner/src/artifacts/artifact-json-reader.ts:67-82 | the chunk loop with capture slices and step back does what the character machine does |
| `JsonStreamReader.DiagnosticsJsonStreamReader.Advance` | apps/bench-runner/src/artifacts/artifact-json-reader.ts:104-234 | one look at one character: the new state and whether it was consumed, or a refusal |
| `JsonStreamReader.DiagnosticsJsonStreamReader.FinishCapturedValue` | apps/bench-runner/src/artifacts/artifact-json-reader.ts:252-267 | a completed capture becomes a metadata property or the next question, or is refused |
| `JsonStreamReader.DiagnosticsJsonStreamReader.AppendCaptured` | apps/bench-runner/src/artifacts/artifact-json-reader.ts:241-250 | the buffer grows by the fragment, and fails exactly past the limit of its kind |
| `JsonStreamReader.DiagnosticsJsonStreamReader.Finish` | apps/bench-runner/src/artifacts/artifact-json-reader.ts:84-98 | a document exactly after a closed object with a questions array and the expected version |
| `JsonScan.PassesPrint` | apps/bench-runner/src/artifacts/artifact-json-reader.ts:283-300 | inside a container the scanner passes over any printed value and comes back to the same depth |
| `JsonScan.CompleteExactlyAtEnd` | apps/bench-runner/src/artifacts/artifact-json-reader.ts:275-300 | an object, array or string completes exactly on its last character; another scalar on none |
| `JsonScan.DelimitedReads` | apps/bench-runner/src/artifacts/artifact-json-reader.ts:174-187 | a printed object, array or string is stored at its last character |
| `JsonScan.ScalarReads` | apps/bench-runner/src/artifacts/artifact-json-reader.ts:174-187 | any other scalar is stored only at the following comma or brace |
| `SidecarArtifact.SpacedScalarReads` | apps/bench-runner/src/artifacts/artifact-json-reader.ts:254 | white space between a scalar and its delimiter is no part of the value |
| `SidecarArtifact.RenderSidecar` | apps/bench-runner/src/artifacts/artifact-gzip-stream.ts:49-80 | the chunks together are the compact form of one JSON object and a newline: in order, the questions, the summary for its key, and every other property that is defined with its own value; the summary comes last if it had no key |
| `SidecarArtifact.TextIsJson` | apps/bench-runner/src/artifacts/artifact-gzip-stream.ts:57-79 | what is written is the printed form of one object |
| `SidecarArtifact.RenderQuestions` | apps/bench-runner/src/artifacts/artifact-gzip-stream.ts:82-97 | the chunks together are the questions array, commas only between |
| `SidecarArtifact.KeyReads` | apps/bench-runner/src/artifacts/artifact-json-reader.ts:126-158 | a printed key and colon lead the reader to its value |
| `SidecarRoundTrip.QuestionsRead` | apps/bench-runner/src/artifacts/artifact-json-reader.ts:189-219 | the printed questions are read in order, each through the question parser with its index |
| `SidecarRoundTrip.PropsRead` | apps/bench-runner/src/artifacts/artifact-json-reader.ts:126-234 | the printed properties are read one after the other to the closing brace |
| `SidecarRoundTrip.RoundTrip` | apps/bench-runner/src/artifacts/artifact-gzip-stream.ts:49-97 | for every sidecar within limits and every cutting: a document exactly when the sidecar gives the expected schema version, with each defined property under its key, the summary, and the questions in order, which wait to be taken when streaming |
| `SidecarRoundTrip.RoundTripStreamed` | apps/bench-runner/src/artifacts/artifact-json-reader.ts:100-102 | a streaming reader whose questions are taken after every chunk gives out the same questions in order, and at the end the sidecar's metadata |
| `JsonStreaming.TakingIsHarmless` | apps/bench-runner/src/artifacts/artifact-json-reader.ts:100-102 | taking questions between chunks loses, repeats and reorders none and changes nothing else, for every text |
| `JsonStreamReader.DiagnosticsJsonStreamReader.TakeQuestions` | apps/bench-runner/src/artifacts/artifact-json-reader.ts:100-102 | gives out the waiting questions and empties only that list |
| `SidecarRoundTrip.RoundTripParsed` | apps/bench-runner/src/artifacts/artifact-json-reader.ts:67-98 | the same with the parser of this project, so nothing is assumed of parsing |
| `CivilCalendar.YearLength` | packages/graph-algorithms/src/temporal-window.ts:275-281 | consecutive years start 365 or 366 days apart, by the leap rule |
| `CivilCalendar.EpochDay` | packages/graph-algorithms/src/temporal-window.ts:275-281 | day 0 is Thursday 1 January 1970 and weekdays follow each other |
| `AbsoluteWindows.MonthLengths` | packages/graph-algorithms/src/absolute-temporal-window.ts:85-93 | months have 31, 30 or, in February, 28 or 29 days |
| `CivilCalendar.DayRoundTrip` | packages/graph-algorithms/src/temporal-window.ts:275-281 | a day taken apart into year, month and date makes the same day |
| `CivilCalendar.DateRoundTrip` | packages/graph-algorithms/src/absolute-temporal-window.ts:89-92 | every real date is the date of the day it makes |
| `CivilCalendar.MonthsMeet` | packages/graph-algorithms/src/temporal-window.ts:200-205 | each month starts where the one before ends, across years and for any month number |
| `TemporalWindows.TakenDayExact` | packages/graph-algorithms/src/temporal-window.ts:167-169 | the day the code starts from is the anchor's day exactly outside the years 0 to 99, and how far off it is inside |
| `TemporalWindows.OffsetWindowsTile` | packages/graph-algorithms/src/temporal-window.ts:167-214 | offset windows n and n + 1 meet without gap or overlap for day, week, month and year |
| `TemporalWindows.OffsetWindowNonEmpty` | packages/graph-algorithms/src/temporal-window.ts:167-214 | an offset window is empty exactly for the year window of year 99 |
| `TemporalWindows.CurrentWindowContains` | packages/graph-algorithms/src/temporal-window.ts:167-214 | window 0 contains the anchor exactly outside the years 0 to 99 |
| `TemporalWindows.OffsetCovers` | packages/graph-algorithms/src/temporal-window.ts:167-214 | outside the years 0 to 99, an offset window covers exactly the n-th day, Monday-to-Sunday week, month or year from the anchor's |
| `TemporalWindows.YearWindowExact` | packages/graph-algorithms/src/temporal-window.ts:207-214 | a year window is its civil year exactly outside the years -1 to 99 |
| `TemporalWindows.LookbackStartsAtOffset` | packages/graph-algorithms/src/temporal-window.ts:230-244 | a lookback of n units starts where offset window -(n - 1) starts |
| `TemporalWindows.LookbackContains` | packages/graph-algorithms/src/temporal-window.ts:216-244 | a lookback contains the anchor exactly when it reaches over the two-digit-year shift |
| `TemporalWindows.LookbackCovers` | packages/graph-algorithms/src/temporal-window.ts:216-244 | outside the years 0 to 99, a lookback covers exactly from the start of offset window -(n - 1) to the end of the anchor's day |
| `TemporalWindows.SpelledLookbackContains` | packages/graph-algorithms/src/temporal-window.ts:112-121 | for the amounts a term can spell: exactly when the year concerned is not 0 to 99 |
| `TemporalWindows.WeekdayLands` | packages/graph-algorithms/src/temporal-window.ts:181-198 | a weekday window opens on the named weekday exactly outside the years 0 to 99, then 1 to 7 days before or after, or in the anchor's week |
| `TemporalWindows.WeekOpensOnMonday` | packages/graph-algorithms/src/temporal-window.ts:173-179 | a week window opens on a Monday exactly outside the years 0 to 99 |
| `TemporalWindows.NamedMonthIsLatest` | packages/graph-algorithms/src/temporal-window.ts:246-252 | the year taken is the latest whose named month has started by the anchor |
| `TemporalWindows.NamedMonthExact` | packages/graph-algorithms/src/temporal-window.ts:246-258 | the window is that civil month exactly when its year is not 0 to 99 |
| `TemporalWindows.CurrentSeasonContains` | packages/graph-algorithms/src/temporal-window.ts:260-273 | "this season" contains the anchor exactly when its month belongs to the season and the season's year is not 0 to 99 |
| `TemporalWindows.SeasonCovers` | packages/graph-algorithms/src/temporal-window.ts:260-273 | "last", "this" and "next" season cover exactly the instants whose month is in the season and whose season year is the anchor's plus the offset, read as 1900 to 1999 when it is 0 to 99 |
| `TemporalWindows.SeasonsTile` | packages/graph-algorithms/src/temporal-window.ts:260-273 | each season ends where the next begins, except from winter of year -1 or 99 to spring |
| `TemporalWindows.YearFiftyMissed` | packages/graph-algorithms/src/temporal-window.ts:279-281 | at the start of the year 50, "today" is a day of 1950 and misses the anchor |
| `AbsoluteWindows.ValidDatesAreReal` | packages/graph-algorithms/src/absolute-temporal-window.ts:85-93 | the read-back test accepts exactly the dates that exist, outside the years 0 to 99 |
| `AbsoluteWindows.DayCovers` | packages/graph-algorithms/src/absolute-temporal-window.ts:48-59 | a day window covers exactly the instants whose civil date it spells, for the years 1000 to 9999 |
| `AbsoluteWindows.MonthCovers` | packages/graph-algorithms/src/absolute-temporal-window.ts:61-68 | the same for months |
| `AbsoluteWindows.YearCovers` | packages/graph-algorithms/src/absolute-temporal-window.ts:70-79 | the same for years |
| `AbsoluteWindows.MonthIsItsDays` | packages/graph-algorithms/src/absolute-temporal-window.ts:48-68 | a month window is the disjoint union of its day windows |
| `AbsoluteWindows.YearIsItsMonths` | packages/graph-algorithms/src/absolute-temporal-window.ts:61-79 | a year window is the disjoint union of its month windows |
| `AbsoluteWindows.RelativeIsAbsolute` | packages/graph-algorithms/src/temporal-window.ts:167-214 | "today", "this month" and "this year" are the absolute windows of the anchor's day, month and year, exactly for supported years |
| `SourceLexical.AdvanceSourceIndexLexicalV2` | packages/cjk-segmentation/src/cjk-segmentation.ts:204-226 | one read flushes the units of the pending text and the characters read, and fails exactly when the analyser refuses one of them |
| `SourceLexical.SegmentBoundedToken` | packages/cjk-segmentation/src/cjk-segmentation.ts:185-201 | the pieces of the token's units in order, or a failure exactly when one unit's segmentation is refused |
| `SourceLexical.PiecesExact` | packages/cjk-segmentation/src/cjk-segmentation.ts:163-201 | candidate units give the segmenter's pieces, others themselves; a token fails exactly when an answer for one of its candidates is empty, blank in a piece or not conserving |
| `SourceLexical.JoinHolds` | packages/cjk-segmentation/src/cjk-segmentation.ts:225 | every unit's projection stands in the joined projection at its place, with one space before each but the first |
| `SourceLexical.ByteSizeIsUtf8` | packages/cjk-segmentation/src/cjk-segmentation.ts:189 | the counted size is the length of the UTF-8 encoding, from which the code point comes back |
| `SourceLexical.LengthIsUtf16` | packages/cjk-segmentation/src/cjk-segmentation.ts:212-213 | the expanded units are counted in UTF-16 code units |
| `SourceLexical.CutsDoNotMatter` | packages/cjk-segmentation/src/cjk-segmentation.ts:203-226 | however the source is cut into reads, units and pending text are those of one read |
| `SourceLexical.UnitsBounded` | packages/cjk-segmentation/src/cjk-segmentation.ts:203-226 | every unit and the pending one are 1 to 64 bytes of word characters |
| `SourceLexical.UnitsConserve` | packages/cjk-segmentation/src/cjk-segmentation.ts:217-222 | units and pending together are the word characters in order |
| `SourceLexical.GreedyUnique` | packages/cjk-segmentation/src/cjk-segmentation.ts:188-194 | a text has exactly one cutting in which each unit fits and could not take one more character |
| `SourceLexical.QueryUnitsExact` | packages/cjk-segmentation/src/cjk-segmentation.ts:185-197 | the query side's units are that cutting, and only they |
| `SourceLexical.SourceMatchesQuery` | packages/cjk-segmentation/src/cjk-segmentation.ts:185-226 | the source side cuts a text into what the query side cuts its word runs into |
| `SourceLexical.TokenMatchesQuery` | packages/cjk-segmentation/src/cjk-segmentation.ts:185-226 | on a word-only token both sides give the same units |
| `SourceLexical.PiecesConserve` | packages/cjk-segmentation/src/cjk-segmentation.ts:165-174 | accepted pieces concatenate back to the token |
| `RateLimit.FixedWindowRateLimiter.Consume` | apps/core-daemon/src/middleware/rate-limit.ts:58-62 | the new table and the decision are those of the request on the old table |
| `RateLimit.FixedWindowRateLimiter.CleanupExpiredBuckets` | apps/core-daemon/src/middleware/rate-limit.ts:143-158 | every 128th request exactly the expired buckets go |
| `RateLimit.FixedWindowRateLimiter.ReadBucket` | apps/core-daemon/src/middleware/rate-limit.ts:189-214 | the live bucket or a fresh one, nothing exactly for a new key in a full table, and no eviction |
| `RateLimit.FixedWindowRateLimiter.Decide` | apps/core-daemon/src/middleware/rate-limit.ts:160-180 | unknown sockets and full tables are refused, a spent quota is limited, else the bucket counts one more |
| `RateLimit.LruCache.Set` | packages/storage/src/sqlite/lru-cache.ts:24-35 | a new key in a full table replaces the oldest entry; any other write only adds or replaces its own |
| `RateLimit.LiveBucketKept` | apps/core-daemon/src/middleware/rate-limit.ts:143-214 | no request drops or resets a bucket inside its window, and it counts only its own allowed requests |
| `RateLimit.BucketLasts` | apps/core-daemon/src/middleware/rate-limit.ts:143-214 | over every run of requests inside a bucket's window, of whatever clients, the bucket keeps its start and its count grows by its own key's allowed requests |
| `RateLimit.BucketLastsUntil` | apps/core-daemon/src/middleware/rate-limit.ts:143-214 | with a forward clock every table of the run keeps the bucket's start until the window ends |
| `RateLimit.OwnBucketDecides` | apps/core-daemon/src/middleware/rate-limit.ts:160-180 | a live bucket alone decides its key's requests, whatever other clients do |
| `RateLimit.DecisionExact` | apps/core-daemon/src/middleware/rate-limit.ts:143-214 | every decision and the table after it: unknown socket, live bucket with and without quota, expired bucket, new client with and without room |
| `RateLimit.SpentQuotaWaits` | apps/core-daemon/src/middleware/rate-limit.ts:171-187 | a spent quota is answered with the least wait after which the bucket has expired |
| `RateLimit.CleanupHappens` | apps/core-daemon/src/middleware/rate-limit.ts:48-56 | over every run the cleanup comes with every 128th request and leaves no other client's expired bucket |
| `RateLimit.RetryAfterExact` | apps/core-daemon/src/middleware/rate-limit.ts:182-187 | the advertised wait is the least whole number of seconds, from 1, after which the bucket has expired |
| `RateLimit.TableBounded` | apps/core-daemon/src/middleware/rate-limit.ts:189-214 | over every run the table stays within its limit |
| `RateLimit.AllowsBounded` | apps/core-daemon/src/middleware/rate-limit.ts:40-63 | over every run with a forward clock, each half-open interval of one window's length holds at most 2 * maxRequests - 1 allowed requests of a key, and at most maxRequests for windows of one tick |
| `RateLimit.BoundReached` | apps/core-daemon/src/middleware/rate-limit.ts:40-63 | that bound is reached for every quota and every window of two ticks or more |
| `RateLimit.OneTickReached` | apps/core-daemon/src/middleware/rate-limit.ts:40-63 | and the one for windows of one tick is reached too |
| `TrustRecords.ValidCitesDelivered` | apps/core-daemon/src/trust/usage-proof-validation.ts:20-104 | a report that passes the checks names only delivered identities and exposed witnesses, also as it reads back |
| `TrustRecords.ValidExactly` | apps/core-daemon/src/trust/usage-proof-validation.ts:20-153 | the checks in full: a report passes exactly when its ids are those of its objects and these were delivered under a known kind (or its ids as memory entries), every anchor is delivered and, when used, one of the used objects, and every witness report meets the first exposure of its epoch |
| `TrustRecords.AcceptedExactly` | apps/core-daemon/src/trust/usage-proof-validation.ts:75-104 | an identity of a report with objects is accepted exactly when its kind is one of the five and the delivery contained it under that kind |
| `TrustRecords.LegacyAcceptedExactly` | apps/core-daemon/src/trust/usage-proof-validation.ts:75-104 | an identity of a report without objects is accepted exactly when the delivery listed its id, or exactly one delivered object is the same and is a memory entry |
| `TrustRecords.UsedAnchorsReported` | apps/core-daemon/src/trust/usage-proof-validation.ts:58-73 | every anchor of a used report has the target, or kind and id, of an object reported as used |
| `TrustRecords.IdentityCited` | apps/core-daemon/src/trust/usage-proof-validation.ts:75-104 | an accepted identity is in the delivery under its kind exactly when the report lists objects or the kind is memory entry; otherwise it is there as a memory entry |
| `TrustRecords.AnchorCited` | apps/core-daemon/src/trust/usage-proof-validation.ts:58-104 | an anchor of a valid report is in the delivery under its kind exactly when the report lists objects or the anchor resolves to a memory entry; otherwise the report is not "used" |
| `TrustRecords.AnchorKindUnchecked` | apps/core-daemon/src/trust/usage-proof-validation.ts:58-104 | the input that fails: a skipped report naming a delivered memory entry as a capsule |
| `TrustRecords.AsReadAgain` | packages/storage/src/repos/control/trust-state-repo.ts:271-327 | reading a stored report back is stable: a second storing changes nothing more |
| `TrustRecords.ReplayExact` | apps/core-daemon/src/trust/state.ts:432-447 | a report agrees with its stored self exactly when it lists no objects, or some with their ids in order without repeats |
| `TrustRecords.AgreesExact` | apps/core-daemon/src/trust/state.ts:432-447 | the code's comparison is equality of delivery, state, ids, objects, witnesses, trust mode and reason, and of anchors with none as good as an empty list |
| `TrustRecords.DedupFirsts` | packages/storage/src/repos/control/trust-state-repo.ts:319-324 | derived ids are the first occurrences in order |
| `TrustRecords.ReplayRefused` | apps/core-daemon/src/trust/state.ts:432-447 | a valid report whose ids stand in the other order conflicts with its own stored form |
| `TrustRecords.StoredAsIs` | packages/storage/src/repos/control/trust-state-repo.ts:132-154 | a report reads back as itself exactly when it also leaves out an empty anchor list |
| `TrustRecorder.TrustStateRecorder.RecordUsage` | apps/core-daemon/src/trust/state.ts:205-275 | an uninterrupted call does what its sections do one after the other |
| `TrustRecorder.TrustStateRecorder.RecordDelivery` | apps/core-daemon/src/trust/state.ts:144-193 | a delivery and its event are written together, or neither |
| `TrustRecorder.DeliveryStored` | packages/storage/src/repos/control/trust-state-repo.ts:106-130 | the stored delivery is the one given, field by field, with its event's id; ids beside objects are those of the objects |
| `TrustRecorder.AloneExact` | apps/core-daemon/src/trust/state.ts:205-275 | a first valid report is recorded with its event; a later one gets the stored row exactly when it agrees field by field, and else a conflict |
| `TrustRecorder.ReplayDecision` | apps/core-daemon/src/trust/state.ts:432-447 | the stored report is returned exactly when the later one agrees with it field by field |
| `TrustRecorder.AloneRefuses` | apps/core-daemon/src/trust/state.ts:277-302 | unknown exactly when there is no such delivery or it is of another expected workspace, agent or run; invalid exactly when it is known and fails the checks; nothing is written |
| `TrustRecorder.NotReadyRefused` | apps/core-daemon/src/trust/state.ts:213 | a call made before the recorder is ready ends at once and does nothing |
| `TrustRecorder.RefusedMeansRaced` | apps/core-daemon/src/trust/state.ts:269-274 | a refused transaction means the delivery already has its row, so the re-read finds it |
| `TrustRecorder.StepKeeps` | apps/core-daemon/src/trust/state.ts:205-302 | every action of every call keeps the invariant of tables, log and waiting calls |
| `TrustRecorder.OneRowOneEvent` | apps/core-daemon/src/trust/state.ts:47-57 | under every interleaving a delivery has at most one usage row, each row exactly one event saying the same, no event stands alone, and rows name only what was delivered |
| `TrustRecorder.RowHasOneWriter` | apps/core-daemon/src/trust/state.ts:226-268 | under every interleaving each row was written by exactly one call |
| `TrustRecorder.WriterHasTheRow` | apps/core-daemon/src/trust/state.ts:226-268 | the call that wrote the row passed the checks and returns its report as given; it returns the row itself exactly when the report reads back alike and leaves out an empty anchor list |
| `TrustRecorder.ReplayerHasTheRow` | apps/core-daemon/src/trust/state.ts:224-225 | a call that found the row passed the checks, returns the row itself, and reported what the row says |
| `TrustRecorder.ReplayersAgree` | apps/core-daemon/src/trust/state.ts:432-447 | two calls that found the row return the same record and made agreeing reports |
| `TrustRecorder.WriterAndReplayer` | apps/core-daemon/src/trust/state.ts:432-447 | the writer's report and a replayer's agree exactly when the writer's reads back alike; their records are equal exactly when it also leaves out an empty anchor list |
| `TrustRecorder.SuccessesAgree` | apps/core-daemon/src/trust/state.ts:432-447 | of all successful calls for a delivery at most one wrote; two of their reports disagree exactly when one is the writer's and does not read back alike; as they read back all agree |
| `TrustRecorder.DisagreeingBothSucceed` | apps/core-daemon/src/trust/state.ts:258-267 | the input that fails: ids out of order are recorded, then the same report with ids in order is accepted as a replay, and the two callers hold different records |
| `TrustRecorder.AloneIsARun` | apps/core-daemon/src/trust/state.ts:205-275 | what an uninterrupted call does is one of the runs the theorems are about |
| `TrustRecorder.RefusalsAreEarned` | apps/core-daemon/src/trust/state.ts:269-275 | a conflict goes only to a report that disagrees with the stored row, an invalid proof only to one that fails the checks |
| `TrustRecorder.NothingLost` | apps/core-daemon/src/trust/state.ts:47-57 | rows, deliveries and events are never changed or removed |
| `TrustRecorder.FourTurnsEnd` | apps/core-daemon/src/trust/state.ts:205-275 | four turns end a call, whatever happens in between |

## Left out

- Regex parsing of relative and absolute terms, number words and month names: table look-ups; windows take the parsed parts.
- Fractional milliseconds and dates outside the range of `Date`: instants are integers of any size.
- Fractional limits: `maxRequests`, `windowMs`, `maxBuckets` and `workLimit` are integers.
- JavaScript's negative zero, and an explicit `edgeOffset` of undefined as different from 0.
- Stack depth of the recursive component counter: recursion is unbounded.
- Iteration order of JavaScript sets and maps given as input: they are sequences, and every result holds for every sequence.
- Strengths of prepared graphs outside 0 to top: the code stores them unclamped, and so does the model, as any integers.
- `retainedTransitions` of a solve on a prepared graph: the code hands back the otherwise unused `transitions` input, which the model does not have there.
- Product grades and contract partitions of `field-graph-preparation.ts`, and its byte accounting: the model keeps nodes, edges, values and queue.
- Schema validation of questions and of trust records, the miss taxonomy and its summary: parameters or already-parsed values.
- `JSON.parse` beyond the printed form (white space, other number forms): a parameter of the reader, with one instance given.
- Exact JSON acceptance by the reader: it trims scalars more widely than JSON white space does.
- Wording of error messages: an exception is a refusal, and a reader that threw stays failed.
- Gzip, hashing, temporary files and renames of artifacts.
- The native segmenter, its loading and warnings, and the projection of a unit: functions of the unit; the sticky failure flag is left out, since each read's own failure is stated.
- Joining the projections of several reads: an empty read adds one more space; the laws are about the units.
- HTTP middleware, peer credentials and key derivation of the rate limiter: keys are given.
- Bucket objects shared by reference: a bucket is a value in the table, and counting rewrites its entry.
- Trust counters, summaries and snapshot conditions on deliveries; sha-256 commitments and recording times in events.
- Deletion of deliveries by other code, and event ids that repeat: an event id is fresh, or the write fails as a storage fault.
- Ids that contain the separator used when id lists are compared: lists are compared as sets.
- RecordUsage: runs without interruption; what interleaving does is stated of the section machine.
