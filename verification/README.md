# Verified models of the ns-3 DCTCP tree's tooling

This project models the tooling that builds, tests and documents the simulator, and proves what
that tooling promises. Everything is plain Dafny 4.11; `dafny verify dfyconfig.toml` checks it.

| files | what they model |
|---|---|
| `Topsort.dfy`, `TopsortLaws.dfy`, `DependencyGraph.dfy` | the two topological sorts of `topsort.py` and the graph theory they rest on |
| `FindCycles.dfy`, `Rotation.dfy` | the enumeration of all cycles with a stack of paths, and the rotation test it uses |
| `TestDriver.dfy`, `TestDriverLaws.dfy` | the parallel test driver: dispatcher, workers, two queues, poison jobs, interrupts |
| `ShellParser.dfy`, `ShellSyntax.dfy`, `ShellGrammar.dfy`, `ShellRunner.dfy`, `LaunchLaws.dfy`, `ShellLaws.dfy`, `PosixLists.dfy` | the shell-like command lines of `shellcmd.py`: the parser and its language, the runner and what it starts, what a run means, and when that is what POSIX says |
| `StaticInformation.dfy`, `ConfigPaths.dfy`, `Containers.dfy` | the search for configuration paths over a cyclic type graph |
| `PatchSet.dfy`, `PatchLaws.dfy`, `PatchObjects.dfy` | parsing and writing unified diffs |
| `Permutations.dfy`, `BinaryNumbers.dfy`, `Fractions.dfy` | combinatorics and arithmetic of `rad_util.py` |
| `StreamWriter.dfy` | the resumable writer of `tcp-large-transfer.cc` |
| `Sequences.dfy`, `Wrappers.dfy` | shared vocabulary |

How the models are built:

- Loops are methods with loops, objects whose methods change their fields are classes. Each such
  method is proved against a specification on values, and the laws are proved about that
  specification. Dictionaries are `map` variables updated key by key; the order in which a
  dictionary lists its keys is left open, so the results hold for every order.
- A failed assertion or a raised exception is an error result, never a precondition.
- The test driver is a step relation over its threads. A run is any interleaving of the steps;
  the interrupt flag may be set between any two of them.
- What each process and each job returns, and the behaviour of the socket, are arbitrary inputs.
- Python 2 is assumed where it matters: `keys()` is a list, integer division floors, and
  `raise StopIteration` ends a generator normally.

Where the code differs from what is said about it, the code is modelled:

- The comment that everything left in `num_parents` has at least one child (`topsort.py:109-110`)
  holds exactly when everything a cycle leads to leads to a cycle again (`CommentHoldsIff`);
  `LeftOverWithoutChildren` gives an input of which it does not hold. The conclusion drawn from it,
  that there is a cycle, always holds, and is proved without it.
- `shellcmd.py` nests `&&` and `||` to the right, where POSIX.1-2017, XCU section 2.9.3, reads an
  AND-OR list from left to right; the `&&` after a `cd` is one of its operators. It also lets a `cd`
  in a pipe move the shell, and pipes past it into the next command; fails on a `cd` that is last or
  says no directory; prefers the pipe to a redirection of standard input; and opens files in its own
  directory, wherever `cd` has led. `RunIsPosixIff` proves that a parsed pipeline in which none of
  these comes up, and which uses only one of the two operators after any leading `cd`, runs as POSIX
  says, and that every other one differs for some exit codes.
- The test driver waits for ever when it has jobs but no worker thread; `DeadlockFreeIff` says that
  this is the only deadlock.
- `binary_range(0)` is the empty list, not the list of the empty numeral, and `int2bin(i, 0)` never
  raises.
- `Uniquefy` takes its container by value, so `Gather` leaves `m_output` as the search built it:
  nothing is sorted or made unique. `RepeatsIff` says when an entry is repeated.
- A chunk line after a new `--- ` header goes to the last chunk of an earlier patch, because the
  parser's current chunk outlives its current patch. The model does the same.
- The writer closes its socket whenever its loop ends, also when the socket is only out of space.

## Model

| member | source | states |
|---|---|---|
| Topsort.Tabulate | ns-3-dev-dctcp/bindings/python/topsort.py:77-90 | the dictionaries built from the pairs count, for every element, the pairs it is a child in, and list its children with order and repetitions |
| Topsort.WithoutParents | ns-3-dev-dctcp/bindings/python/topsort.py:92-93 | the elements whose count is zero, each once, in an order left open |
| Topsort.NextChildIsCounted | ns-3-dev-dctcp/bindings/python/topsort.py:217-224 | no decrement hits a missing key: the next child of a retired parent still has a positive count, repeated pairs and self-loops included |
| Topsort.KnockDown | ns-3-dev-dctcp/bindings/python/topsort.py:98-106 | telling the children of a parent lowers each count by the number of pairs and keeps the growing answer in first-in-first-out order of release |
| Topsort.FifoDepths | ns-3-dev-dctcp/bindings/python/topsort.py:95-106 | along a list grown in order of release, the length of the longest chain of predecessors never decreases |
| Topsort.FifoParentsFirst | ns-3-dev-dctcp/bindings/python/topsort.py:95-106 | and every parent comes before its children |
| Topsort.RetireNext | ns-3-dev-dctcp/bindings/python/topsort.py:97-106 | one turn of the loop over the growing list keeps the invariant of the sort, and the counted elements become fewer |
| Topsort.StuckIsBlocked | ns-3-dev-dctcp/bindings/python/topsort.py:108-111 | when no count is zero any more, the elements left are exactly those on or reachable from a cycle, so some are left exactly when there is a cycle |
| Topsort.Topsort | ns-3-dev-dctcp/bindings/python/topsort.py:61-112 | CycleError iff the pairs have a cycle; the answer holds each element no cycle leads to once, parents first, by depth; the error carries exactly the blocked elements, how many pairs hold each back, and their children |
| Topsort.FreeAtDepth | ns-3-dev-dctcp/bindings/python/topsort.py:203-212 | at round k the elements with count zero are exactly those whose longest chain of predecessors has length k |
| Topsort.RetireLevel | ns-3-dev-dctcp/bindings/python/topsort.py:217-224 | retiring a level leaves every count equal to the number of remaining pairs into the element |
| Topsort.TopsortLevelsCore | ns-3-dev-dctcp/bindings/python/topsort.py:174-232 | for any counts consistent with the children table, the lists yielded are the depth levels, and the generator ends in CycleError iff there is a cycle, with the residual counts and children |
| Topsort.TopsortLevels | ns-3-dev-dctcp/bindings/python/topsort.py:114-172 | the same for a list of pairs |
| TopsortLaws.AnswerConcatenatesLevels | ns-3-dev-dctcp/bindings/python/topsort.py:92-112 | the answer of topsort is the concatenation of one permutation of each level of topsort_levels; both fail on the same inputs with the same residual counts |
| TopsortLaws.ChildrenLeftIff | ns-3-dev-dctcp/bindings/python/topsort.py:108-111 | every element left over has a child iff everything a cycle leads to leads to a cycle again |
| TopsortLaws.CommentHoldsIff | ns-3-dev-dctcp/bindings/python/topsort.py:226-229 | the same of the dictionaries the two errors carry: children has the keys of num_parents iff that condition holds of the pairs |
| TopsortLaws.LeftOverWithoutChildren | ns-3-dev-dctcp/bindings/python/topsort.py:108-111 | inputs of which the condition and the comment do not hold |
| TopsortLaws.TableHasPairs | ns-3-dev-dctcp/bindings/python/topsort.py:195-200 | every children table, empty lists included, is that of some list of pairs, so the theorem about topsort_levels_core covers them all |
| DependencyGraph.LongChainRepeats | ns-3-dev-dctcp/bindings/python/topsort.py:108-111 | pigeonhole: an element with a predecessor chain as long as there are elements is below a cycle |
| DependencyGraph.UnboundedIffBelowCycle | ns-3-dev-dctcp/bindings/python/topsort.py:226-229 | an element is on or reachable from a cycle iff it has predecessor chains of every length |
| DependencyGraph.CyclicIffBelow | ns-3-dev-dctcp/bindings/python/topsort.py:226-229 | some element is blocked iff the graph has a cycle |
| Rotation.IsRotated | ns-3-dev-dctcp/bindings/python/rad_util.py:735-775 | true iff the second sequence is a rotation of the first, repeated items included |
| Rotation.RotatedBack | ns-3-dev-dctcp/bindings/python/rad_util.py:735-775 | being a rotation is symmetric |
| Rotation.RotatedTwice | ns-3-dev-dctcp/bindings/python/rad_util.py:735-775 | and transitive |
| FindCycles.IndexOf | ns-3-dev-dctcp/bindings/python/topsort.py:367-369 | the first position of the child in the path |
| FindCycles.IsDuplicate | ns-3-dev-dctcp/bindings/python/topsort.py:370-375 | true iff the cycle is a rotation of one already reported |
| FindCycles.ExtendPath | ns-3-dev-dctcp/bindings/python/topsort.py:362-385 | extending a popped path keeps every path simple, reports only new cycles, leaves no simple path from the start unexplored, and lowers the weight of the stack |
| FindCycles.ExtensionsWeighLess | ns-3-dev-dctcp/bindings/python/topsort.py:352-383 | all extensions of a path together weigh less than the path, under (maxdegree+1)^(nodes - length) |
| FindCycles.Explore | ns-3-dev-dctcp/bindings/python/topsort.py:351-385 | the search from one start terminates with every simple path from it explored, and marks only nodes reachable from it |
| FindCycles.ReachedCycleReported | ns-3-dev-dctcp/bindings/python/topsort.py:351-385 | a cycle through any node reachable from an explored start has been reported |
| FindCycles.AllCyclesReported | ns-3-dev-dctcp/bindings/python/topsort.py:346-349 | skipping starts already visited loses no cycle |
| FindCycles.FindCycles | ns-3-dev-dctcp/bindings/python/topsort.py:235-385 | each list reported is a simple cycle, no two are rotations of each other, and every simple cycle of the table is a rotation of one of them |
| TestDriver.GetInv | ns-3-dev-dctcp/test.py:965-973 | taking the head of the input queue, a job or a poison job, keeps the invariant |
| TestDriver.PutInv | ns-3-dev-dctcp/test.py:979-992 | a result moves from its worker to the output queue and is nowhere else |
| TestDriver.NextInv | ns-3-dev-dctcp/test.py:965-1033 | every step of every thread, and an interrupt, keeps the partition of the dispatched jobs among input queue, hands, output queue and collected results, and every result that is neither broken nor skipped carries what the process of its job returned |
| TestDriverLaws.RunInv | ns-3-dev-dctcp/test.py:1399-1460 | the partition holds in every state of every run |
| TestDriverLaws.Progress | ns-3-dev-dctcp/test.py:1667-1692 | with a worker or no jobs, some thread can move until everything is collected and joined |
| TestDriverLaws.NoWorkersStuck | ns-3-dev-dctcp/test.py:1689-1692 | with jobs and no worker thread a deadlock is reached |
| TestDriverLaws.DeadlockFreeIff | ns-3-dev-dctcp/test.py:1399-1402 | no reachable state is deadlocked iff there is a worker or nothing to do |
| TestDriverLaws.StepWorks | ns-3-dev-dctcp/test.py:965-1033 | every step that changes the state lowers a natural-number measure |
| TestDriverLaws.RunLength | ns-3-dev-dctcp/test.py:1667-1692 | no run of J jobs and n workers takes more than 7J + 3n + 1 steps |
| TestDriverLaws.EndOfRun | ns-3-dev-dctcp/test.py:1828-1829 | a run that can go no further has collected every job exactly once, emptied both queues, and let every worker leave |
| TestDriverLaws.AfterInterrupt | ns-3-dev-dctcp/test.py:974-982 | once thread_exit is set, every result delivered later was delivered or in flight at one of the workers at that moment |
| TestDriverLaws.AtMostOneEach | ns-3-dev-dctcp/test.py:974-992 | and no more jobs than there are workers are delivered between that moment and any later one |
| TestDriverLaws.RanStays | ns-3-dev-dctcp/test.py:994-1033 | a job that is past the check keeps its own result, interrupt or not |
| TestDriverLaws.OutputIsFifo | ns-3-dev-dctcp/test.py:1689-1690 | results are collected in the order in which they were put on the output queue |
| TestDriverLaws.Summarize | ns-3-dev-dctcp/test.py:1682-1916 | the collector's counters and name lists are those of the results with each outcome, in order of arrival, and the exit code follows from them |
| TestDriverLaws.WithStatusAppend | ns-3-dev-dctcp/test.py:1699-1718 | the lists grow at their ends as results arrive |
| TestDriverLaws.ListedByCode | ns-3-dev-dctcp/test.py:1699-1718 | a job that came back is passed, failed, valgrind's or crashed by what its process returned, 0, 1, 2 or anything else, unless it was to be skipped |
| TestDriverLaws.OutcomesByCode | ns-3-dev-dctcp/test.py:1689-1718 | at the end of a run every dispatched job is on one list, by its code, its skip mark and whether it was interrupted, and none without an interrupt is interrupted |
| TestDriverLaws.FinalAccount | ns-3-dev-dctcp/test.py:1913-1916 | at the end the six outcomes add up to the dispatched tests, and passed plus skipped equals the total iff every test came back and was to be skipped or returned 0; without an interrupt, iff every test was to be skipped or returns 0 |
| ShellParser.Pipeline.CommitCommand | ns-3-dev-dctcp/waf-tools/shellcmd.py:101-104 | the current command moves to the end of the pipeline |
| ShellParser.Pipeline.ParseTokens | ns-3-dev-dctcp/waf-tools/shellcmd.py:121-201 | the six-state loop fails an assertion, or builds the pipeline, exactly as the fold over its steps says |
| ShellParser.WordLength | ns-3-dev-dctcp/waf-tools/shellcmd.py:24 | the word characters the pattern for assignments takes, neither fewer nor more |
| ShellSyntax.EnvMatchOf | ns-3-dev-dctcp/waf-tools/shellcmd.py:139-141 | a written assignment is matched as its key and value |
| ShellSyntax.ParsedCanonical | ns-3-dev-dctcp/waf-tools/shellcmd.py:136-201 | everything parse returns is canonical |
| ShellSyntax.ParsedShape | ns-3-dev-dctcp/waf-tools/shellcmd.py:136-201 | commands and operators alternate, stdout is a pipe exactly before a Pipe, and And follows every cd but a last one |
| ShellSyntax.ParseRender | ns-3-dev-dctcp/waf-tools/shellcmd.py:121-201 | parsing the canonical tokens of a pipeline gives back that pipeline, in whatever order the assignments of its commands are written |
| ShellSyntax.CanonicalIffParsed | ns-3-dev-dctcp/waf-tools/shellcmd.py:121-201 | the canonical pipelines are exactly those some token list parses to |
| ShellGrammar.EnvMatchIff | ns-3-dev-dctcp/waf-tools/shellcmd.py:24 | a token is an assignment of v to k iff it is k=v, perhaps with a newline behind |
| ShellGrammar.LastAssignmentCounts | ns-3-dev-dctcp/waf-tools/shellcmd.py:139-152 | of several assignments to one variable the last one counts |
| ShellGrammar.StreamsOf | ns-3-dev-dctcp/waf-tools/shellcmd.py:155-199 | each stream is the operand of its own redirection, wherever that stands |
| ShellGrammar.FeedPieces | ns-3-dev-dctcp/waf-tools/shellcmd.py:154-199 | words and redirections in any order are read iff no stream is redirected twice, with the words in order and each stream as its redirection says |
| ShellGrammar.ParseText | ns-3-dev-dctcp/waf-tools/shellcmd.py:121-201 | a whole text is parsed iff no stream in it is redirected twice, a pipe being a redirection, and gives its nodes |
| ShellGrammar.ParseIff | ns-3-dev-dctcp/waf-tools/shellcmd.py:121-201 | parse returns a pipeline iff the tokens are such a text of it; on all others an assertion fails |
| ShellGrammar.RedirectedTwiceFails | ns-3-dev-dctcp/waf-tools/shellcmd.py:159-199 | a stream redirected twice, or redirected and piped, fails |
| ShellRunner.StartCommand | ns-3-dev-dctcp/waf-tools/shellcmd.py:242-291 | exactly the redirections that name a real file are opened, and the process is started with the right streams, environment and directory |
| ShellRunner.ExecPipedCommands | ns-3-dev-dctcp/waf-tools/shellcmd.py:203-212 | every process of the group is waited for once, and the status is that of the last one |
| ShellRunner.FinishGroup | ns-3-dev-dctcp/waf-tools/shellcmd.py:313-319 | after a group every started process has been waited for and every opened file closed |
| ShellRunner.FollowUp | ns-3-dev-dctcp/waf-tools/shellcmd.py:293-346 | the run returns iff the pipeline ends or the operator short-circuits, and otherwise goes on with a fresh or an open group |
| ShellRunner.Run | ns-3-dev-dctcp/waf-tools/shellcmd.py:214-346 | the loop launches what the specification launches and returns its status, with nothing left open or unwaited, or raises exactly when the specification does |
| LaunchLaws.PathJoinLaw | ns-3-dev-dctcp/waf-tools/shellcmd.py:228 | joining gives an absolute second path, or goes on from the first path with the names of the second |
| LaunchLaws.LaunchesFit | ns-3-dev-dctcp/waf-tools/shellcmd.py:242-291 | what is started are the first commands of the pipeline in order, each with its own arguments, assignments and streams, 2>&1 and the null device included, in the directory the cds before it lead to |
| LaunchLaws.StatusIsLast | ns-3-dev-dctcp/waf-tools/shellcmd.py:203-212 | the status of a run is the exit code of the last process it started |
| LaunchLaws.OpensLaw | ns-3-dev-dctcp/waf-tools/shellcmd.py:244-274 | one file is opened for each stream from or to a real file |
| LaunchLaws.RaisesAtBadCd | ns-3-dev-dctcp/waf-tools/shellcmd.py:225-231 | a run that comes to a cd that is last or bare raises, having started what it would have before a good one; a run that does not, returns as if it were good |
| ShellLaws.RunIsRightNested | ns-3-dev-dctcp/waf-tools/shellcmd.py:308-346 | a run is right-nested short-circuit evaluation over process groups, each command in its accumulated directory |
| ShellLaws.UniformAgrees | ns-3-dev-dctcp/waf-tools/shellcmd.py:312-346 | with only one of the two operators both nestings launch and return the same |
| ShellLaws.MixedDiffers | ns-3-dev-dctcp/waf-tools/shellcmd.py:320-341 | for every list that mixes the operators there are exit codes for which a run launches fewer processes than the left-associative list |
| ShellLaws.NestingsAgreeIff | ns-3-dev-dctcp/waf-tools/shellcmd.py:312-346 | the two nestings of a list of groups agree for all exit codes iff the list uses only one operator |
| ShellLaws.RunReturnsIff | ns-3-dev-dctcp/waf-tools/shellcmd.py:225-231 | a run of a parsed pipeline returns whatever the exit codes iff no cd is last or lacks a directory |
| ShellLaws.RunWired | ns-3-dev-dctcp/waf-tools/shellcmd.py:242-251 | stdin comes from a pipe exactly when the process started just before writes into one |
| PosixLists.ListIsOnward | ns-3-dev-dctcp/waf-tools/shellcmd.py:293-346 | an AND-OR list associated to the left is the same as its pipelines executed or skipped from left to right |
| PosixLists.LaunchedAlikeIff | ns-3-dev-dctcp/waf-tools/shellcmd.py:242-285 | a command is started with the streams and files POSIX gives it iff no redirection competes with a pipe and, after a cd, no relative file is named |
| PosixLists.PipedCdDiffers | ns-3-dev-dctcp/waf-tools/shellcmd.py:225-243 | after a cd in a pipe the run pipes into the next command and the list does not |
| PosixLists.MixedGoesOn | ns-3-dev-dctcp/waf-tools/shellcmd.py:312-341 | where the operators mix, a list that a run has left goes on to start further processes |
| PosixLists.RunIsPosixIff | ns-3-dev-dctcp/waf-tools/shellcmd.py:214-346 | a parsed pipeline has the status and launches of the POSIX list for all exit codes iff no cd is last, bare or in a pipe, every command is plain in the sense of LaunchedAlikeIff, and after leading cds only one operator is used |
| PosixLists.CdOutOfPlace | ns-3-dev-dctcp/waf-tools/shellcmd.py:225-232 | a cd after an or-operator or in a pipe is enough for a difference |
| StaticInformation.StaticInformation.RecordAggregationInfo | ns-3-dev-dctcp/utils/print-introspected-doxygen.cc:1056-1076 | a pair of registered types is recorded, otherwise the name of the first unregistered one |
| StaticInformation.StaticInformation.GetCurrentPath | ns-3-dev-dctcp/utils/print-introspected-doxygen.cc:1091-1102 | the labels of the stack, each after a slash |
| ConfigPaths.JoinPathAppend | ns-3-dev-dctcp/utils/print-introspected-doxygen.cc:1096-1100 | labels are joined one after the other, in stack order |
| ConfigPaths.JoinPathOne | ns-3-dev-dctcp/utils/print-introspected-doxygen.cc:1096-1100 | each behind a slash of its own |
| StaticInformation.StaticInformation.HasAlreadyBeenProcessed | ns-3-dev-dctcp/utils/print-introspected-doxygen.cc:1113-1125 | true iff the type is on the stack |
| StaticInformation.StaticInformation.Get | ns-3-dev-dctcp/utils/print-introspected-doxygen.cc:1128-1142 | the paths recorded for a type, in order |
| ConfigPaths.PathsOfAppend | ns-3-dev-dctcp/utils/print-introspected-doxygen.cc:1133-1141 | and what is recorded later comes later |
| StaticInformation.StaticInformation.Follow | ns-3-dev-dctcp/utils/print-introspected-doxygen.cc:1214-1218 | one edge: both stacks are pushed and popped back, and what lies beyond is appended |
| StaticInformation.StaticInformation.DoGather | ns-3-dev-dctcp/utils/print-introspected-doxygen.cc:1185-1269 | the search terminates on cyclic graphs, restores both stacks exactly, and appends what the specification gathers |
| Containers.Uniquefy | ns-3-dev-dctcp/utils/print-introspected-doxygen.cc:1159-1165 | what becomes of the local copy: strictly ascending, with the items of the container |
| StaticInformation.StaticInformation.Gather | ns-3-dev-dctcp/utils/print-introspected-doxygen.cc:1176-1182 | the output is what DoGather left, although Uniquefy is called on it |
| ConfigPaths.ListedIffFree | ns-3-dev-dctcp/utils/print-introspected-doxygen.cc:1189-1192 | the search follows an edge-labelled path iff it is simple and avoids the types on the stack |
| ConfigPaths.ListedOnce | ns-3-dev-dctcp/utils/print-introspected-doxygen.cc:1194-1268 | and follows none twice |
| ConfigPaths.GatheredMatches | ns-3-dev-dctcp/utils/print-introspected-doxygen.cc:1105-1110 | each entry is the type a path ends in with the labels along it |
| ConfigPaths.EdgesIff | ns-3-dev-dctcp/utils/print-introspected-doxygen.cc:1194-1268 | what is followed from a type: pointers to anything but a plain Object, containers, children, and aggregations from either side, with their labels |
| ConfigPaths.AttributeEdgesAppend | ns-3-dev-dctcp/utils/print-introspected-doxygen.cc:1194-1233 | each attribute is followed at most once, in order |
| ConfigPaths.ChildEdgesAppend | ns-3-dev-dctcp/utils/print-introspected-doxygen.cc:1234-1246 | so is each registered type |
| ConfigPaths.AggregateEdgesAppend | ns-3-dev-dctcp/utils/print-introspected-doxygen.cc:1247-1268 | and each aggregation |
| ConfigPaths.ListedInOrder | ns-3-dev-dctcp/utils/print-introspected-doxygen.cc:1193-1268 | entries come depth first, earlier edges before later ones |
| ConfigPaths.OneEntryPerSimplePath | ns-3-dev-dctcp/utils/print-introspected-doxygen.cc:1176-1269 | from empty stacks there is exactly one entry for every simple edge-labelled path from the root, depth first |
| ConfigPaths.RepeatsIff | ns-3-dev-dctcp/utils/print-introspected-doxygen.cc:1180-1181 | the output repeats an entry iff two different simple paths from the root end alike with the same joined labels |
| ConfigPaths.ParallelEdgesRepeat | ns-3-dev-dctcp/utils/print-introspected-doxygen.cc:1247-1268 | as when an aggregation was recorded twice |
| PatchSet.NotHeader | ns-3-dev-dctcp/utils/check-style.py:369-395 | a line read as removed or added text does not go on like a file header |
| PatchSet.StepLine | ns-3-dev-dctcp/utils/check-style.py:204-217 | a written chunk line is read back as that line, never as a header |
| PatchSet.ShowDigits | ns-3-dev-dctcp/utils/check-style.py:239-240 | reading back a written number gives the number |
| PatchSet.HeaderOf | ns-3-dev-dctcp/utils/check-style.py:286-293 | the four numbers of a written header are read back |
| PatchSet.HeaderCounts | ns-3-dev-dctcp/utils/check-style.py:254-295 | its counts are those of the source-side and destination-side lines written after it |
| PatchSet.RoundTripIff | ns-3-dev-dctcp/utils/check-style.py:348-403 | writing patches and parsing the result gives them back iff no text spans lines and no changed line looks like a file header |
| PatchSet.ParseWriteParse | ns-3-dev-dctcp/utils/check-style.py:359-403 | whatever was parsed survives being written and parsed again |
| PatchLaws.AfterIff | ns-3-dev-dctcp/utils/check-style.py:360-365 | what a pattern captures is the text behind the sign, without a newline at the end of the line |
| PatchLaws.HeaderIff | ns-3-dev-dctcp/utils/check-style.py:362 | a chunk header is four numbers between its signs, with anything behind |
| PatchLaws.AddLineShows | ns-3-dev-dctcp/utils/check-style.py:384-401 | a chunk line goes to the end of the last chunk there is, of whichever patch, and nothing else changes |
| PatchLaws.ParseSays | ns-3-dev-dctcp/utils/check-style.py:359-403 | for lines of any kind in any order: they are accepted iff none is junk and headers and chunk lines come after what they belong to; each patch holds the headers of its section, its last destination counting, and the chunks hold the chunk lines between their headers |
| PatchLaws.WrittenKinds | ns-3-dev-dctcp/utils/check-style.py:286-357 | nothing is written but the headers and lines of the patches, each once and in its place |
| PatchLaws.WrittenPlainly | ns-3-dev-dctcp/utils/check-style.py:292-293 | numbers are written without leading zeros, and nothing follows the signs of a header |
| PatchLaws.WrittenEndLines | ns-3-dev-dctcp/utils/check-style.py:204-217 | every written line ends with its only newline |
| PatchObjects.PatchChunk.CountSrc | ns-3-dev-dctcp/utils/check-style.py:254-279 | the number of source-side lines |
| PatchObjects.PatchChunk.CountDst | ns-3-dev-dctcp/utils/check-style.py:264-285 | the number of destination-side lines |
| PatchObjects.PatchChunk.WriteTo | ns-3-dev-dctcp/utils/check-style.py:286-295 | the chunk object writes the text of the chunk it holds |
| PatchObjects.FilePatch.WriteTo | ns-3-dev-dctcp/utils/check-style.py:348-357 | the patch object writes the text of the patch it holds |
| PatchObjects.AddLineToChunk | ns-3-dev-dctcp/utils/check-style.py:384-401 | a line added to the current chunk changes that chunk only, in whichever patch holds it |
| PatchObjects.ParseLine | ns-3-dev-dctcp/utils/check-style.py:368-402 | one line changes the objects as the step on values says, or raises exactly when it fails |
| PatchObjects.ParsePatchset | ns-3-dev-dctcp/utils/check-style.py:359-403 | the parser accepts exactly the texts the specification accepts, and its objects hold the parsed patches |
| PatchObjects.WritePatches | ns-3-dev-dctcp/utils/check-style.py:348-357 | writing all patch objects gives the written form of the patches they hold |
| Permutations.PermsLength | ns-3-dev-dctcp/bindings/python/rad_util.py:310-326 | n! lists of length n |
| Permutations.PermsComplete | ns-3-dev-dctcp/bindings/python/rad_util.py:310-326 | a list is among the results iff it is a rearrangement of the input |
| Permutations.PermsDiffer | ns-3-dev-dctcp/bindings/python/rad_util.py:310-326 | the results for distinct items are pairwise different |
| Permutations.Permutations | ns-3-dev-dctcp/bindings/python/rad_util.py:293-326 | the three together, of the lists the loops build |
| BinaryNumbers.Int2BinCorrect | ns-3-dev-dctcp/bindings/python/rad_util.py:91-105 | for n of at least 1, int2bin raises iff the number is 2^n or more, and otherwise gives the n binary digits of the number |
| BinaryNumbers.Int2BinNoWidth | ns-3-dev-dctcp/bindings/python/rad_util.py:95-104 | a width of 0 never raises and gives the whole number, because the slice [:-0] is empty |
| BinaryNumbers.Bin2IntOfInt2Bin | ns-3-dev-dctcp/bindings/python/rad_util.py:108-130 | bin2int undoes int2bin |
| BinaryNumbers.Int2BinOfBin2Int | ns-3-dev-dctcp/bindings/python/rad_util.py:74-130 | and int2bin undoes bin2int on non-empty numerals |
| BinaryNumbers.Increment | ns-3-dev-dctcp/bindings/python/rad_util.py:647-659 | the ripple carry adds one, and its carry out stands for the power of two lost |
| BinaryNumbers.BinaryRange | ns-3-dev-dctcp/bindings/python/rad_util.py:632-660 | for at least one bit there are 2^bits strings and entry k is int2bin(k, bits); for no bits there is none |
| Fractions.Gcf | ns-3-dev-dctcp/bindings/python/rad_util.py:252-258 | Euclid's loop under floor-modulo ends, for all integers, at the greatest common divisor, which is a combination of the arguments |
| Fractions.GcdUnique | ns-3-dev-dctcp/bindings/python/rad_util.py:224-251 | there is only one such divisor |
| Fractions.Lcm | ns-3-dev-dctcp/bindings/python/rad_util.py:282-290 | the result times the gcf is the product, and it divides every common multiple of nonzero arguments; it is 0 when an argument is |
| Fractions.ReduceFraction | ns-3-dev-dctcp/bindings/python/rad_util.py:345-348 | an equal, coprime fraction, unless both parts are 0, when the division fails |
| StreamWriter.Writer.WriteUntilBufferFull | ns-3-dev-dctcp/examples/tcp/tcp-large-transfer.cc:198-216 | whatever the socket accepts or refuses, it has received exactly the first currentTxBytes bytes of the stream, no send reads past the buffer, and the call ends where the specification says |
| StreamWriter.Writer.StartFlow | ns-3-dev-dctcp/examples/tcp/tcp-large-transfer.cc:192-196 | the same over any number of upcalls, with how often the socket has been closed after them |
| StreamWriter.ClosingsAreTheRest | ns-3-dev-dctcp/examples/tcp/tcp-large-transfer.cc:208-215 | that is once for every call but those that a refusal ended |
| StreamWriter.NextPiece | ns-3-dev-dctcp/examples/tcp/tcp-large-transfer.cc:202-207 | a piece of the buffer, wherever it starts, continues the stream |
| StreamWriter.SeamlessIff | ns-3-dev-dctcp/examples/tcp/tcp-large-transfer.cc:50-53 | repeating a buffer gives the stream iff its size is a multiple of 26 |
| StreamWriter.FlowOf | ns-3-dev-dctcp/examples/tcp/tcp-large-transfer.cc:200-213 | no call takes back what was sent or sends more than the total |
| StreamWriter.AmountIsGreatest | ns-3-dev-dctcp/examples/tcp/tcp-large-transfer.cc:202-207 | a turn takes the greatest number of bytes that the socket accepts and has space for and that neither the end of the buffer nor that of the transfer forbids |
| StreamWriter.WillingSocketGetsAll | ns-3-dev-dctcp/examples/tcp/tcp-large-transfer.cc:200-214 | a socket that takes something at every turn has received everything by the end of one call |
| StreamWriter.EndsAt | ns-3-dev-dctcp/examples/tcp/tcp-large-transfer.cc:200-215 | at the first turn that shows no space, a refusal or the last byte, the call ends there, with the bytes accepted until then |
| StreamWriter.WhyItEnds | ns-3-dev-dctcp/examples/tcp/tcp-large-transfer.cc:208-215 | from the turns before the call: it closes early iff the socket shows no space before any refusal and before all is sent, and ends without closing iff it refuses before that |

## Left out

- TestDriver.NextInv: a worker thread is a step relation and a job a value with an identity, not a thread and a shared object; job runs always return, and Python's queues are assumed to be FIFO and atomic.
- TestDriver.RunJob: what a job returns depends on the job alone, not on when or where it runs.
- TestDriverLaws.Summarize: job identities stand for display names; durations, report files and the lists printed at the end are not modelled.
- Topsort.TopsortLevelsCore: levels are collected in a list instead of being yielded one by one; counts that disagree with the children table are outside its documented use.
- FindCycles.FindCycles: cycles are collected in a list instead of being yielded; the result does not depend on when the consumer asks for the next one.
- Rotation.IsRotated: two empty sequences make the source read a missing head item; cycles are never empty.
- ShellRunner.Run: failures of `open` and `Popen`, verbose output, the process environment beyond the assignments, and pipe buffers are not modelled; waiting for a process always returns.
- PosixLists.RunIsPosixIff: the reading starts from parsed nodes, so what splitting and parsing lose (quoting, the order of the redirections of one command) is not compared; directories exist and files can be opened, a bare cd goes to a given home, and `cd -`, CDPATH and expansions are not modelled; a cd in a longer pipeline moves only a subshell; the names of the null device are those of the source.
- ShellParser.Pipeline.ParseTokens: splitting a string into tokens (`shlex`) comes before the model, `\S` excludes the six ASCII white-space characters, and the node under construction is a value, which nothing else shares.
- `get_abbreviated_command` of `shellcmd.py`: it tests for And twice and so never renders `||`.
- StaticInformation.StaticInformation.Gather: the TypeId database is a record of types, attributes, names, children and a lookup; that its edges lead to registered types, and that entries are totally ordered, is assumed.
- `Print`, `GetNoTypeIds` and the doxygen output of `print-introspected-doxygen.cc`.
- PatchObjects.ParsePatchset: chunk lines are values; `append_to_line` and everything in `remove_trailing_whitespace_changes`, the uncrustify and hg calls and the file handling are not modelled.
- BinaryNumbers.Bin2IntOfInt2Bin: negative numbers and strings that are not binary numerals are not modelled.
- Fractions.Gcf: floating-point arguments, for which the epsilon of the source exists, are not modelled.
- StreamWriter.Writer.WriteUntilBufferFull: the socket gives finitely many turns before it is out of space, which stands for the progress `Send` must make; 32-bit widths do not matter, since every value stays at or below the 2000000 bytes of the transfer. The transfer's connection set-up is not part of this model.
- The simulation scripts, the queue disciplines and the TCP variants: they wire or configure simulator objects whose code is not part of this model.
- The remaining helpers of `rad_util.py` (formatting, statistics, geometry), `utils/grid.py`, the waf tools and the Python bindings: easy members or plain glue.
