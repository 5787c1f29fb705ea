# Verified models of the algorithmic cores

A Dafny project that models the self-contained algorithms of this ns-3 tree and proves what they are for:
dependency sorting and cycle enumeration, the parallel test dispatcher, configuration-path discovery, the shell
pipeline parser and evaluator, a few combinatorial and number routines, unified diffs, VANET loss accounting and
timeline queries. `dafny verify dfyconfig.toml` checks the whole project.

| file | models |
|---|---|
| PairGraph.dfy | graphs given by pair lists: walks, cycles, chains, pigeonhole |
| Topsort.dfy | `topsort`, `topsort_levels`, `topsort_levels_core` |
| Rotation.dfy, FindCycles.dfy | `is_rotated`, `find_cycles` |
| Dispatcher.dfy | main thread, worker threads, queues and interrupt of `test.py`, as a step relation |
| ConfigPaths.dfy | `StaticInformation` and its recursive walk over the type registry |
| ShellSyntax.dfy, ShellParse.dfy | tokens, the parser's state machine, the grammar it recognises |
| ShellRun.dfy, ShellResources.dfy | what a pipeline run asks of the system, its status, its resources |
| ShellPipeline.dfy | the `Pipeline` object: `parse` and `run` as the source writes them |
| Permutations.dfy, Binary.dfy, Gcd.dfy | `permutations`; `int2bin`, `bin2int`, `binary_range`, `gray_encode`; `gcf`, `lcm`, `reduce_fraction` |
| Patches.dfy | patch objects, their writer and `parse_patchset` |
| Vanet.dfy | packet stamps, log and counters of `MyVanet.cc` |
| Timeline.dfy | binary searches and window queries of `grid.py` |
| Seqs.dfy, Prelude.dfy | named facts about sequences; what several modules share |

Conventions. Python dictionaries are maps whose iteration order is arbitrary; the elements being sorted are of any type
with equality. Generators are methods that return the list of what they yield, together with how they end. Exceptions are
constructors of a result type. The Python files under `bindings/python` are read with Python 2 semantics (floor division
and floor remainder). Exit statuses of processes, return codes of test jobs, the interleaving of threads and the delivery
of packets are arbitrary: theorems quantify over all of them.

Where the code and its comments disagree, the code is followed. The comment at `bindings/python/topsort.py:109` says that
every leftover element has a child; what holds, and is proved, is that every leftover element has a leftover parent.
`int2bin` with a width of 0 does not truncate, because the slices at `bindings/python/rad_util.py:100-104` then keep everything.
Six natural expectations turn out false of the code; each has a witness and an exact condition:

* a pipeline mixing `&&` and `||` is not evaluated as a POSIX shell would, and the `&&` behind a `cd` counts
  (`ShellPipeline.MixedOperatorsDiffer`, `ShellPipeline.CdBehindOrDiffers`, `ShellRun.RunAgreesWithPosixIffOneKind`);
* a written patch is not always read back (`Patches.MisleadingLineIsLost`, `Patches.RoundTripIffClean`);
* a window query can miss every range inside its window (`Timeline.WindowAroundRangeFindsNothing`, `Timeline.GetRanges`);
* it can also miss a range that touches another one at an end of the window (`Timeline.TouchingRangeIsLost`,
  `Timeline.GetRanges`);
* the packet log is not exact if a source needs more than 16 bits or sends twice at one time
  (`Vanet.IrregularLogGoesWrong`, `Vanet.LogExactIffRegular`);
* the dispatcher waits for ever if it has jobs and no worker (`Dispatcher.NoWorkersNoReturn`, `Dispatcher.ReturnsIffWorkers`).

## Model

| member | source | states |
|---|---|---|
| PairGraph.SupportedBelowCycle | bindings/python/topsort.py:108-111 | in a finite set where every element has a parent in the set, every element lies on or below a cycle |
| PairGraph.ParentsFirstAvoidsCycles | bindings/python/topsort.py:97-106 | a list that puts every parent before its children contains nothing on or below a cycle |
| PairGraph.AcyclicIffNothingBelowCycle | bindings/python/topsort.py:108-111 | having no closed walk is the same as having no element on or below a cycle |
| Topsort.Build | bindings/python/topsort.py:77-90 | the two dictionaries count parents with multiplicity and list children in pair order, with no key for an element without children, for every pair list |
| Topsort.ZeroKeys | bindings/python/topsort.py:93 | exactly the keys with count zero, each once, in any order |
| Topsort.KnockDown | bindings/python/topsort.py:100-103 | each count falls by the number of times the child is listed; exactly the counts that reach zero are reported, once |
| Topsort.TakeOut | bindings/python/topsort.py:98-106 | after removing a parentless element the dictionaries describe the remaining graph |
| Topsort.AdvanceKeepsWorklist | bindings/python/topsort.py:97-103 | the growing answer keeps distinct elements, parents first, and ends with exactly the parentless ones |
| Topsort.LeftoverIsBelowCycle | bindings/python/topsort.py:108-111 | when no count is zero, the rest is exactly what lies on or below a cycle, each with a leftover parent; it is empty iff the graph is acyclic |
| Topsort.Topsort | bindings/python/topsort.py:61-112 | returns iff acyclic, then every element once with parents before children; otherwise the emitted prefix is exactly the elements not reachable from a cycle, with the exact leftover counts and lists |
| Topsort.ZeroMeansLevel | bindings/python/topsort.py:205 | after k levels, the zero counts are exactly the elements whose longest chain of predecessors has k edges |
| Topsort.TakeOutLevel | bindings/python/topsort.py:217-224 | removing a whole level leaves dictionaries that describe the remaining graph |
| Topsort.TopsortLevelsCore | bindings/python/topsort.py:174-232 | level k is exactly the elements with longest predecessor chain k; the levels concatenated are a topological order of what is not below a cycle; the end is an error iff there is a cycle |
| Topsort.TopsortLevels | bindings/python/topsort.py:114-172 | the same for the dictionaries built from any pair list |
| Topsort.SortsFailAlike | bindings/python/topsort.py:226-229 | both sorts fail on the same inputs, with the same elements emitted and equal dictionaries left over |
| Rotation.IsRotated | bindings/python/rad_util.py:735-775 | decides rotation for all inputs except two empty ones, on which it raises |
| Rotation.RotationReflexive | bindings/python/rad_util.py:735-736 | being a rotation is reflexive on nonempty lists |
| Rotation.RotationSymmetric | bindings/python/rad_util.py:735-736 | being a rotation is symmetric |
| Rotation.RotationTransitive | bindings/python/rad_util.py:735-736 | being a rotation is transitive |
| FindCycles.IsDuplicate | bindings/python/topsort.py:371-375 | true iff some listed cycle is a rotation of the new one |
| FindCycles.RecordCycle | bindings/python/topsort.py:368-378 | the listed cycles stay simple and pairwise unrotated, and now cover the cycle just closed |
| FindCycles.Expand | bindings/python/topsort.py:362-385 | pushes exactly the simple extensions, marks exactly their last nodes, and covers every cycle closed from the path |
| FindCycles.PopDecreases | bindings/python/topsort.py:352-383 | each pop lowers the number of pops still to come by exactly one, so the search ends |
| FindCycles.PopKeepsPending | bindings/python/topsort.py:352-383 | no simple path from the root is ever lost: it is finished or continues a path on the stack |
| FindCycles.SearchFrom | bindings/python/topsort.py:351-385 | after one root, every cycle closed by any simple path from it is covered, and marked nodes are reachable from it |
| FindCycles.CompleteCovers | bindings/python/topsort.py:346-349 | a finished search from a root covers every simple cycle that the root reaches, which justifies skipping marked nodes |
| FindCycles.FindAllCycles | bindings/python/topsort.py:235-385 | yields simple cycles only, no two rotations of each other, and every simple cycle up to rotation |
| Dispatcher.InitInv | test.py:1372-1402 | the initial state satisfies the invariant |
| Dispatcher.StepKeepsInv | test.py:965-1033 | every step of main, of any worker and of the interrupt keeps the invariant: queue order, one place per job, truthful outcomes, counters |
| Dispatcher.RunKeepsInv | test.py:1399-1829 | the invariant holds at every moment of every interleaving |
| Dispatcher.NeverTwiceNoStopOut | test.py:972-982 | at every moment no job is out twice and no stop job ever comes out |
| Dispatcher.NoExitBeforeLastJob | test.py:1667-1670 | once a worker has exited, every job has been taken and only stop jobs wait |
| Dispatcher.ReturnedCollectsEachOnce | test.py:1689-1829 | when main returns it has collected each job exactly once, the output queue is empty and every worker has exited |
| Dispatcher.TallyAddsUp | test.py:1691-1718 | passed, failed, valgrind, crashed, skipped and interrupted add up to the number of jobs got back |
| Dispatcher.ReturnedAccounts | test.py:1913-1916 | the counters account for every job; the code is 0 iff every job came back skipped or with return code 0, uninterrupted |
| Dispatcher.CountersAreTrue | test.py:1697-1718 | at return, passed, failed, valgrind and crashed are the numbers of jobs really run with code 0, 1, 2 and any other, and skipped that of the jobs that came back skipped |
| Dispatcher.ReturnsZeroIffAllRan | test.py:979-1033 | in terms of what really ran: 0 iff nothing was interrupted and every job not to be skipped ran and gave 0; skipped jobs never ran |
| Dispatcher.InterruptStopsWork | test.py:979-994 | a job not yet taken when the interrupt has come is never run, and comes back as a break, even if it was to be skipped |
| Dispatcher.StepUsesUp | test.py:965-1829 | every step strictly lowers a bound on the steps that remain |
| Dispatcher.RunsEnd | test.py:1399-1829 | no run is longer than 6 steps a job, 4 a worker and 5 more |
| Dispatcher.NeverStuck | test.py:1689-1690 | until main returns, main or some worker can move, if there is a worker or no job |
| Dispatcher.StuckIffReturned | test.py:1689-1829 | a run that neither main nor a worker can continue is exactly a run in which main has returned |
| Dispatcher.RunsReturn | test.py:1689-1829 | every run can be continued until main returns, so no get and no join blocks for ever |
| Dispatcher.NoWorkersNoReturn | test.py:1382-1402 | with jobs and no worker, main never returns |
| Dispatcher.ReturnsIffWorkers | test.py:1382-1402 | all runs carried on as long as possible end with main returning iff there is a worker or no job |
| ConfigPaths.StaticInformation.GetCurrentPath | utils/print-introspected-doxygen.cc:1092-1102 | the labels, each after a slash |
| ConfigPaths.PathStringJoins | utils/print-introspected-doxygen.cc:1092-1102 | the string of two lists of labels is that of the first followed by that of the second |
| ConfigPaths.PathStringOfOne | utils/print-introspected-doxygen.cc:1092-1102 | no label gives the empty string, and one label itself behind a slash |
| ConfigPaths.StaticInformation.RecordOutput | utils/print-introspected-doxygen.cc:1106-1110 | appends the type with the string of the current path |
| ConfigPaths.StaticInformation.HasAlreadyBeenProcessed | utils/print-introspected-doxygen.cc:1114-1125 | true iff the type is on the stack |
| ConfigPaths.LinksComeFrom | utils/print-introspected-doxygen.cc:1193-1268 | the links out of a type are, in this order and each once: pointer attributes except to plain objects under their name, containers under their name and an index, registered subtypes, and other sides of aggregations |
| ConfigPaths.LinkIffGiven | utils/print-introspected-doxygen.cc:1193-1268 | a link leaves a type iff one of these gives it |
| ConfigPaths.ObjectNotListed | utils/print-introspected-doxygen.cc:1204-1211 | if nothing but pointer attributes leads to ns3::Object, no walk from another type lists it |
| ConfigPaths.StaticInformation.Follow | utils/print-introspected-doxygen.cc:1214-1218 | push, recurse, pop: both stacks are restored and the output is that of a visit below the pushed type |
| ConfigPaths.StaticInformation.DoGather | utils/print-introspected-doxygen.cc:1186-1269 | ends on every finite type graph, restores both stacks, and extends the output by the visit of the type |
| ConfigPaths.VisitListsSimplePaths | utils/print-introspected-doxygen.cc:1186-1269 | from an empty stack a visit appends one entry for each path without repeated type, with that path's end and string, in depth-first order, and nothing else |
| ConfigPaths.ListingIsUnique | utils/print-introspected-doxygen.cc:1193-1268 | there is only one such list, so the output is determined |
| ConfigPaths.StaticInformation.Gather | utils/print-introspected-doxygen.cc:1177-1182 | appends exactly the entries of the simple paths from the root and leaves both stacks empty |
| ConfigPaths.StaticInformation.Get | utils/print-introspected-doxygen.cc:1129-1142 | the strings that the output has for the type, in the order of the output |
| ConfigPaths.StringsArePaths | utils/print-introspected-doxygen.cc:1129-1142 | after a walk, these are exactly the strings of the simple paths that end in the type |
| ShellSyntax.AssignmentMatches | waf-tools/shellcmd.py:24 | a name, an equals sign and a value match the assignment expression with exactly those groups |
| ShellSyntax.EnvMatchIff | waf-tools/shellcmd.py:24 | a token matches with given groups iff it is that name, an equals sign and that value without spaces, perhaps with a newline behind |
| ShellParse.StepAgrees | waf-tools/shellcmd.py:136-199 | one token moves the parser exactly as it extends the phrase of the grammar, and fails exactly where no phrase exists |
| ShellParse.ParseIffSpelled | waf-tools/shellcmd.py:121-201 | the parser accepts a token list and yields given nodes iff some phrase of the grammar spells the tokens and means the nodes |
| ShellParse.ParsedIsWellFormed | waf-tools/shellcmd.py:121-201 | every result is operand (operator operand)*, piped iff a pipe follows, a cd followed by "and" or nothing |
| ShellParse.PrintThenParse | waf-tools/shellcmd.py:121-201 | parsing the printed tokens of any well-formed pipeline gives it back |
| ShellParse.WellFormedIffParsed | waf-tools/shellcmd.py:121-201 | the well-formed pipelines are exactly the possible results |
| ShellPipeline.Pipeline.CommitCommand | waf-tools/shellcmd.py:101-104 | the current node is appended and cleared |
| ShellPipeline.Pipeline.AtBegin | waf-tools/shellcmd.py:138-153 | assignments, cd and command names, as the machine has them |
| ShellPipeline.Pipeline.AfterName | waf-tools/shellcmd.py:154-179 | arguments, redirections and operators after a command name |
| ShellPipeline.Pipeline.AfterCd | waf-tools/shellcmd.py:180-187 | one directory and "and" after cd |
| ShellPipeline.Pipeline.FileName | waf-tools/shellcmd.py:188-199 | a redirection's file; a second one for the same stream fails |
| ShellPipeline.Pipeline.Parse | waf-tools/shellcmd.py:121-201 | the parse that the grammar determines, for every token list, and a well-formed pipeline on success |
| ShellPipeline.SignsMean | waf-tools/shellcmd.py:154-199 | what each of the four redirections does to a command, for every command name and file |
| ShellPipeline.PipeMeans | waf-tools/shellcmd.py:164-169 | two commands with a pipe between them |
| ShellPipeline.Pipeline.ExecPipedCommands | waf-tools/shellcmd.py:203-212 | waits for each process once, in order; the status is the last one's, for all statuses |
| ShellPipeline.Pipeline.CloseFiles | waf-tools/shellcmd.py:301-304 | closes each file in order except the null device |
| ShellPipeline.Pipeline.OpenOut | waf-tools/shellcmd.py:252-274 | the target of an output stream and the file opened for it |
| ShellPipeline.Pipeline.StartCommand | waf-tools/shellcmd.py:242-291 | opens what the command redirects and starts it with the right streams, environment and directory |
| ShellPipeline.Pipeline.Run | waf-tools/shellcmd.py:214-346 | the status is right-nested short-circuit evaluation; the commands started are those up to the group that decides it, each once and as the command says; a run that returns is tidy |
| ShellPipeline.MixedOperatorsDiffer | waf-tools/shellcmd.py:330-341 | the tokens `false && true` or-ed with `true` parse to a pipeline whose run returns 1 where the POSIX shell returns 0 |
| ShellPipeline.CdBehindOrDiffers | waf-tools/shellcmd.py:225-323 | the tokens `true` or-ed with `cd d && false` parse to a pipeline whose run returns 0 where the POSIX shell returns 1 |
| ShellRun.RunEvaluatesRight | waf-tools/shellcmd.py:293-346 | for every exit status function, the outcome is right-nested short-circuit evaluation of the pipe groups, each with its last command's status, and the commands started are those up to the group that decides |
| ShellRun.OneOpAgrees | waf-tools/shellcmd.py:312-346 | with one kind of operator, right-nested and left-associative evaluation agree |
| ShellRun.AgreesWithPosixIffOneOp | waf-tools/shellcmd.py:312-346 | on lists of groups, they agree for all exit statuses iff only one kind of operator occurs |
| ShellRun.RunAgreesWithListIffOneOp | waf-tools/shellcmd.py:214-346 | the same of whole runs, reading each cd as a part of the operand behind it |
| ShellRun.PosixEvaluatesLeft | waf-tools/shellcmd.py:312-346 | without a cd, the evaluation of nodes in the POSIX shell is the left-associative evaluation of the groups |
| ShellRun.OneKindAgrees | waf-tools/shellcmd.py:222-346 | if from the first operator behind a command's group on the other operator does not occur, not even behind a cd, the run gives the status of the POSIX shell |
| ShellRun.TwoKindsDiffer | waf-tools/shellcmd.py:222-346 | otherwise there are exit statuses for which it does not |
| ShellRun.RunAgreesWithPosixIffOneKind | waf-tools/shellcmd.py:214-346 | for every pipeline: the run returns the POSIX status for all exit statuses iff that condition holds and every cd can be carried out; a cd is an operand with status 0 (section 2.9.3 of the POSIX.1-2017 Shell Command Language) |
| ShellResources.ReturnedRunIsTidy | waf-tools/shellcmd.py:293-346 | every run that returns has waited once for each process and closed once each opened file, never early |
| ShellResources.StartsUpToDecider | waf-tools/shellcmd.py:293-346 | however a run ends, the processes started are those numbered up to the deciding group, each once |
| ShellResources.RunMatchesStages | waf-tools/shellcmd.py:222-291 | each process started has its command's arguments, streams, environment and accumulated directory; a piped one reads from the process just before it |
| ShellResources.RelativeCd | waf-tools/shellcmd.py:225-231 | a relative directory is put behind the current one, with one slash between them |
| ShellResources.AbsoluteCd | waf-tools/shellcmd.py:225-231 | an absolute directory replaces the current one |
| ShellResources.CdsAddUp | waf-tools/shellcmd.py:225-231 | behind any number of relative cds everything runs in the directory "./d1/d2/..." |
| ShellResources.OpensUnlessNull | waf-tools/shellcmd.py:252-274 | an output file is opened for writing, except the null device |
| ShellResources.FinishLogs | waf-tools/shellcmd.py:293-304 | at the end of a group its processes are waited for in order, and then its files closed in order |
| Permutations.OneMoreItem | bindings/python/rad_util.py:313-322 | inserting the first item everywhere turns all permutations of the rest into all permutations of the list |
| Permutations.Permutations | bindings/python/rad_util.py:293-326 | n! lists, exactly the rearrangements, without repetition if the items are distinct |
| Binary.ValueOfBinString | bindings/python/rad_util.py:130 | reading a width-n binary string of k gives k |
| Binary.BinStringOfValue | bindings/python/rad_util.py:130 | a string of bits is the binary string of its value and width |
| Binary.Int2Bin | bindings/python/rad_util.py:72-105 | for n >= 1 the n-bit string of the value, failing iff the value needs more bits; negative numbers raise |
| Binary.HexBitsAre | bindings/python/rad_util.py:91-105 | what width 0 gives: the binary string of the number with four bits for each hexadecimal digit, and no digit too many |
| Binary.Increment | bindings/python/rad_util.py:649-659 | the rippled list denotes one more, with the carry out in the last toggle |
| Binary.BinaryRange | bindings/python/rad_util.py:632-660 | for bits >= 1 the strings of 0 to 2^bits - 1 in order; nothing for 0 bits |
| Binary.GrayDiffersInOneBit | bindings/python/rad_util.py:612-615 | the codes of k and k + 1 differ in exactly one position of their strings |
| Binary.GrayFits | bindings/python/rad_util.py:612-615 | a code needs no more bits than its number |
| Binary.GrayInjective | bindings/python/rad_util.py:612-615 | no two numbers share a code |
| Binary.GrayHalves | bindings/python/rad_util.py:612-615 | the last bit of a code is the sum of the last two bits of the number, and the rest is the code of its half |
| Gcd.Gcf | bindings/python/rad_util.py:252-258 | for all integers: ends, and gives the greatest common divisor, as a combination of the two; 0 only for two zeros |
| Gcd.GcdIsGreatest | bindings/python/rad_util.py:222-223 | no common divisor is larger |
| Gcd.Lcm | bindings/python/rad_util.py:285-290 | a common multiple that divides every other, with lcm * gcf = a * b |
| Gcd.ReduceFraction | bindings/python/rad_util.py:345-348 | a coprime pair with the same cross-product, and both arguments are the results times the positive gcf; only 0/0 raises |
| Patches.ProjectSrc | utils/check-style.py:254-263 | the removed and kept lines in order |
| Patches.ProjectDst | utils/check-style.py:264-273 | the added and kept lines in order |
| Patches.SourceSide | utils/check-style.py:254-263 | the source side keeps, in order and as often as they occur, all lines but the added ones |
| Patches.DestinationSide | utils/check-style.py:264-273 | the destination side keeps all lines but the removed ones |
| Patches.HunkCounts | utils/check-style.py:274-293 | the sizes of the two sides, which the header gives, are the numbers of written lines that start with a minus sign or a space, and with a plus sign or a space |
| Patches.HeaderIsRead | utils/check-style.py:292-293 | a written header is read back with both positions and with the sizes of both projections |
| Patches.WriteChunk | utils/check-style.py:286-295 | appends the header and the lines of the chunk |
| Patches.SmallChunkIsWritten | utils/check-style.py:286-295 | a chunk with lines of all kinds, and the text it is written as |
| Patches.WritePatch | utils/check-style.py:348-357 | appends the two file lines and the chunks |
| Patches.ParsePatchset | utils/check-style.py:359-403 | the patches that reading all lines gives, or the error |
| Patches.AfterIff | utils/check-style.py:360-365 | a line matches an expression with a given group iff it is the prefix and the group, with or without a newline behind |
| Patches.HeaderTailIgnored | utils/check-style.py:362 | a header is read whatever follows its second pair of at-signs |
| Patches.LateLine | utils/check-style.py:367-402 | a patch without a destination line has none, and a line before the first chunk of a patch goes to the chunk before it |
| Patches.ParseFailsIff | utils/check-style.py:367-402 | parsing raises iff some line matches nothing, or comes before the patch or chunk that it belongs to |
| Patches.PatchesReadBack | utils/check-style.py:359-403 | patches without newlines and misleading lines are read back |
| Patches.ParsedIsOk | utils/check-style.py:359-403 | whatever the text, no parsed field contains a newline |
| Patches.RoundTripIffClean | utils/check-style.py:348-403 | for every list of patches, the text written parses back to them iff no field contains a newline, no removed line starts with two dashes and a space and no added line with two plus signs and a space |
| Patches.MisleadingLineIsLost | utils/check-style.py:360-374 | a concrete patch that does not come back |
| Vanet.Stamp | scratch/MyVanet.cc:195-210 | the ten bytes of a stamp, for every source and time |
| Vanet.StampBytes | scratch/MyVanet.cc:198-210 | byte i of a stamp is digit i of the time to the base 256, and the last two are the higher and the lower byte of the source |
| Vanet.Unstamp | scratch/MyVanet.cc:287-299 | the time and source the ten bytes denote |
| Vanet.StampRoundTrip | scratch/MyVanet.cc:198-299 | decoding a stamp gives the time back, and the source modulo 65536 |
| Vanet.LessIsTotalOrder | scratch/MyVanet.cc:65-85 | the comparison of keys is a strict total order, by source, then destination, then time, and keys it does not tell apart are equal |
| Vanet.SendKeepsLog | scratch/MyVanet.cc:217-219 | logging a new packet keeps the log equal to the outstanding packets |
| Vanet.ArrivalKeepsLog | scratch/MyVanet.cc:317-320 | erasing an arrived packet keeps the log equal to the outstanding packets, first arrival or repetition |
| Vanet.RegularLogIsExact | scratch/MyVanet.cc:198-320 | through every history of sends and repeated deliveries of packets with 16-bit sources and distinct keys, the log holds exactly the sent and undelivered packets, and sent = logged + arrived |
| Vanet.IrregularLogGoesWrong | scratch/MyVanet.cc:206-320 | for any other packets there is an order of arrival after which the log is wrong |
| Vanet.LogExactIffRegular | scratch/MyVanet.cc:198-320 | so the log is exact through all histories of given packets iff sources fit in 16 bits and no source sends twice at one time |
| Vanet.DelayKeepsBuckets | scratch/MyVanet.cc:301-306 | every bucket counts the delays that belong in it and the buckets sum to the number received |
| Vanet.BucketBounds | scratch/MyVanet.cc:301-306 | counter b counts the delays above b - 1 and up to b seconds, and counter 9 also those above 98 seconds |
| Vanet.Experiment.Send | scratch/MyVanet.cc:195-220 | for every source and time, stamps, logs and counts the packet, keeping log and counters in step with the history |
| Vanet.Experiment.Receive | scratch/MyVanet.cc:287-320 | after any delivery, first or repeated, the decoded key is out of the log, and buckets and total delay account for every delivery |
| Vanet.Experiment.Accounts | scratch/MyVanet.cc:301-320 | at every moment with regular packets: log keys are the outstanding packets, sent - logged = arrived <= received = sum of the buckets |
| Timeline.SearchRanges | utils/grid.py:105-122 | -1 iff no range holds the key; otherwise the one among the ranges holding it that repeated halving meets first |
| Timeline.GetRangesBounds | utils/grid.py:153-169 | the bounds enclose every range meeting the window iff an end lies in a range and the search hits the outer one where ranges touch, or nothing meets the window; no other range if both ends lie in ranges |
| Timeline.OneHolderIsHit | utils/grid.py:105-122 | where no two ranges touch at the key the search has no choice, so apart ranges need no further condition |
| Timeline.GetRanges | utils/grid.py:136-152 | every range meeting the window is found under exactly that condition; nothing else if both ends lie in ranges; from the start's range on, or up to the end's range, if only that end does; nothing if neither does |
| Timeline.WindowAroundRangeFindsNothing | utils/grid.py:145-146 | a query whose window contains the only range and which returns nothing |
| Timeline.TouchingRangeIsLost | utils/grid.py:109-152 | a query on three touching ranges that does not return the first, which meets its window |
| Timeline.TouchingPairIsFound | utils/grid.py:109-152 | a query on two touching ranges that finds both, as the search takes the lower midpoint first |
| Timeline.SearchEvents | utils/grid.py:201-218 | the first position whose time is not before the key |
| Timeline.GetEvents | utils/grid.py:226-235 | an event is returned iff it is not before the window and it is the first of all or the one before it is before the window's end: those of the window, in order, and the first one beyond it |

## Left out

- The ns-3 simulator proper, the examples, benchmarks and binding generators: wiring over objects that are not part of this model.
- `test.py` beyond dispatch, collection and accounting: reports, waf, environment paths and conditions on examples; a job's run is an arbitrary return code that does not raise.
- `test.py` threads are steps of a relation, not Dafny methods: the model keeps queue order and ownership of jobs, not Python's thread objects; starting the threads is part of the initial state.
- `Uniquefy` in `print-introspected-doxygen.cc`: it sorts a copy and changes nothing; `IsChildOf` is a table of ancestors, and registering aggregations by name is not modelled.
- `shlex.split`, the `verbose` branches and `get_abbreviated_command` of `shellcmd.py`; opening a file and starting a process always succeed.
- ShellRun.RunAgreesWithPosixIffOneKind: a cd that the POSIX shell cannot carry out, because its directory does not exist, is not modelled; the evaluator itself never looks.
- A pipeline whose last operand is a cd, or a cd without a directory, makes the run raise when it is reached; what such a run leaves open is not described.
- Floating-point and formatting helpers of `rad_util.py`; `gcf`, `lcm` and `reduce_fraction` are modelled on integers only, `int2bin` for widths of at least 0, `gray_encode` for numbers of at least 0.
- Binary.ValueOfBinString: `bin2int` is modelled on strings of 0 and 1 only; the signs, prefixes and spaces that `int` also accepts are not.
- Patches.Take: patches and chunks are values found by their position, since the parser's references always lead into the patch set; sharing a chunk between patches is not modelled, and lines of no kind, which the writer refuses, do not exist in the model.
- `remove_trailing_whitespace_changes`, uncrustify and difflib in `check-style.py`.
- Random choice of the source, distances, sockets and the packets' payload in `MyVanet.cc`; times are 63-bit and not negative, and a packet arrives no earlier than it was sent.
- Vanet.DelayKeepsBuckets: the bucket of a delay is computed over exact numbers, not doubles.
- Timeline.GetRanges: ranges are already in order and do not overlap (they may touch), events are strictly increasing, and times are integers, as the file format has them.
- Rendering, colours and file reading in `grid.py`.
