# Verified models of the MapReduce scheduler and two backend utilities

This project models three parts of the repository in Dafny and proves properties of them.

**MapReduce (`6.824/mapReduce`).** A master hands map tasks and then reduce tasks to workers through
a bounded channel of task tokens, takes tasks back after a timeout, and accepts reports from workers
that may have been superseded. Workers hash-partition map output into intermediate files and regroup
those files into output files. `mrsequential` is the one-process program that the result must agree
with; the repository's own script compares the sorted lines of all `mr-out-*` files with it.

**Query strings (`CommonUtils.cpp`).** Splitting at a separator, parsing `name=value&...`, trimming,
with `npos` and 64-bit wrap-around as in C++.

**The shop cache (`ShopServiceImpl.cc`).** `getById` and `update` as a cache-aside protocol whose
calls interleave step by step.

## How the MapReduce model is built

| file | content |
|---|---|
| `Types`, `Naming`, `Strings`, `Grouping`, `Jobs` | tasks, pairs, file contents; file names; string order; buckets, values of a key, reductions; a job and what its inputs emit |
| `MasterSpec` | the master's state and what each lock-protected operation does to it, with `schedule` cut at the iterations of its loop |
| `Protocol` | the runs: the master, GetOneTask calls between their receive and `regTask`, and every execution ever handed out |
| `Effects` | every step classified by what it does to tasks, tokens and executions; the classification is proved complete |
| `Invariants`, `Timeouts` | what holds in every run, however late the reports |
| `TimelyRuns`, `OneAtATime` | exactly when tokens and statuses match, and what follows; when finished tasks stay finished |
| `Potential` | a measure that bounds the work of every run |
| `ClusterSpec`, `DiskFacts`, `DiskInvariants` | the runs together with the disk: what executions read and write, how writes can go wrong, what is on the disk in every run, and which files are right |
| `Sequential`, `Refinement` | the one-process program, and the theorem that a finished distributed run agrees with it |
| `Progress`, `Recovery` | from every timely state the job can still finish; from every state with a living master it can, too |
| `LateReports`, `TornOutputs`, `Witnesses` | which jobs late reports, shared ids and failed writes can harm, exactly, and runs in which they do |
| `Master`, `Worker` | the objects and loops as written, proved to do what the specifications say |
| `Apps` | word count and inverted index as instances |

A run is any interleaving of single steps. Between two iterations of `schedule` the lock stays held,
but other goroutines may receive from the channel; a token that was received and not yet registered
is in hand. Clock readings are arbitrary integers, so every timeout pattern is a run. A worker may do
nothing for any time, die, or have its report lost. The worker id in a GetOneTask call
ranges from 0 (a worker whose registration failed still asks for tasks, under the id 0) to the last id
handed out.

*Late reports.* `ReportTask` does not look at the status of the task, and a timed-out task keeps its
old worker id while it is queued again. A report from that worker is then acted on although a token
of the task is still on its way. A run without such reports is called *timely*. This asks less than
that every report that is acted on finds its task running. One token per queued task and none
otherwise holds throughout a run exactly if the run is timely. An untimely run can end in the panic
of `regTask`, and a send under the lock can find the channel full; `LateReports` says for which jobs, as
if-and-only-if. The invariants in `Invariants`, the bound in `Potential` and the refinement theorem need
no timeliness. As long as there was no panic, done can still be reached (`Recovery.DoneStaysInReach`), if
need be by leaving GetOneTask calls that hold a token of the map phase waiting for the lock. A lock that
eventually serves every waiter would let such a call panic; `Recovery.ServedExactlyWhenClear` says when done
can be reached with no call left waiting and no such token left. Theorems about jobs assume that no
input file is named like one of the job's intermediate or output files.

*Torn writes.* When a write fails in the middle of `doMapTask` or at the end of `doReduceTask`, the
worker reports failure and then success. A worker can be killed in the middle of a write, a file can be
read between its truncation and the end of its rewriting, and two executions of a task can write the
same file at once. In the model such a write leaves anything in the file if there was something to write,
and an empty file if there was not; the write of an output file may also not reach the file at all.
The file counts as *torn* until it is next written as a whole. The refinement theorem is about runs in
which no reduce execution reads a torn file and no output file is torn at the end; files that are torn
and written again in time do no harm. Without this condition, a finished job can have a wrong output
exactly if it emits something or finds lines of an earlier job in an output file
(`TornOutputs.WrongExactlyWhenThereIsSomethingToSpoil`); in the runs that show it, an output file is left
empty, or is not reached. `Witnesses.TornWriteCanLoseOutput` is such a run in full.

*Order.* Go map iteration and the unstable `sort.Sort` may give any order, so a map function's pairs and
a file's lines are compared as multisets, and the refinement theorem asks that reduce ignores
the order of a key's values. Both shipped applications are proved to do so. An output line is the
pair of key and reduce result that is printed on it.

*When Finish is left.* Within a phase of a timely run, a task leaves that status exactly if a failure
report about it is acted on afterwards. A worker does one task at a time and reports success last, so
under ids that are never used for two tasks at once this does not happen: `OneAtATime.FinishStands`. Two
workers whose registration failed share the id 0, and then it can, for exactly the jobs in
`LateReports.UnfinishesExactlyWhenSomethingFinishes`.

## The other two models

Two functions do less than their names promise. `TrimRight` removes one character too
many: `Trimming.TrimRightExactly` says when it is right. `mySplit` does not terminate for an empty
separator: `Splitting.LoopMovesExactlyForNonEmptySeparators`. Round trips are stated as if-and-only-if. The round trip for a separator of any length needs more than separator-free pieces
(a piece may end in a prefix of the separator); `Splitting.SplitUndoesJoinExactly` has the exact
condition, and `SplitUndoesJoinForOneChar` the simple one.

In the cache model a call may stop for good between any two of its steps. A step breaks "every wrong
cache entry is about to be deleted" exactly if it is a fill with a row that the database no longer
has, with no deletion to come. `ShopCache.StaleForever` is a run that ends with a wrong entry.

## Model

| member | source | states |
|---|---|---|
| Naming.ItoaInjective | 6.824/mapReduce/src/mr/common.go:28 | decimal numerals of different natural numbers differ |
| Naming.ItoaReadsBack | 6.824/mapReduce/src/mr/common.go:28 | the numeral of a number, read digit by digit, gives the number back, and has no leading zero |
| Naming.NamesAsPrinted | 6.824/mapReduce/src/mr/common.go:27-33 | the names for some one-digit and two-digit indices, letter by letter, the map index first |
| Naming.NamesNeverCollide | 6.824/mapReduce/src/mr/common.go:27-33 | for all natural numbers: intermediate names are equal only for equal map and reduce indices, output names only for equal reduce indices, and no intermediate name is an output name |
| Grouping.PartitionThenRegroup | 6.824/mapReduce/src/mr/worker.go:105-156 | hashing every map output into pieces and regrouping the pieces of one reduce task in map order gives each of its keys exactly its values, in map then emission order, and gives other keys nothing; a key's reduce index is in range |
| Grouping.ReducedBucket | 6.824/mapReduce/src/mr/worker.go:107-161 | reducing one bucket is reducing everything and keeping that bucket's keys |
| Grouping.PartsAreTheWhole | 6.824/mapReduce/src/mr/worker.go:26-30 | every key is in exactly one of the parts, so the parts' lines together are the lines of the whole reduction |
| Grouping.ReducedPermute | 6.824/mapReduce/src/mr/worker.go:151-161 | with a reduce function that ignores value order, a reduction depends on the pairs only as a multiset |
| Effects.StepChanges | 6.824/mapReduce/src/mr/master.go:77-193 | every protocol step changes exactly what its effect says, for one of ten effects, and no step indexes out of range in these states |
| Effects.TokensChange | 6.824/mapReduce/src/mr/master.go:91-162 | conservation of tokens: a send adds one, registering (or its panic) consumes the one in hand, nothing else changes their multiset |
| Invariants.InvStep | 6.824/mapReduce/src/mr/master.go:77-193 | every step, timely or not, keeps the invariant: shape, well-made tokens, queued tasks have tokens, provenance, accepted finishes, phase barrier |
| Invariants.InvRun | 6.824/mapReduce/src/mr/master.go:77-193 | the invariant holds in every state of every run |
| Invariants.IndicesStayInRange | 6.824/mapReduce/src/mr/master.go:135-182 | in every run no status slice is indexed out of range, although map and reduce phases differ in size and old tokens and reports arrive in the later phase |
| Invariants.NoTaskIsLost | 6.824/mapReduce/src/mr/master.go:87-108 | in every run a queued task has a token of the current phase in the channel or in hand |
| Invariants.RecordedWorkerHasTheTask | 6.824/mapReduce/src/mr/master.go:135-146 | in every run a running, finished or failed task was handed out in the current phase, last of all to the worker recorded for it |
| Invariants.LatestWorkerIsLatest | 6.824/mapReduce/src/mr/master.go:144 | the history function used for this names an execution of the task after which there is no other |
| Invariants.AcceptedExactlyBySuccess | 6.824/mapReduce/src/mr/master.go:164-178 | one step gives an execution the mark of acceptance if and only if it is a success report by that execution, from the recorded worker in the current phase |
| Invariants.AcceptedMeansSucceeded | 6.824/mapReduce/src/mr/master.go:164-178 | in a whole run, a task has that mark if and only if such a report was made |
| Invariants.PhaseBarrier | 6.824/mapReduce/src/mr/master.go:110-116 | in every run the reduce phase has begun, or the job is done, only if for every map task a success report from the recorded worker was acted on in the map phase; done needs the same of every reduce task in the reduce phase |
| Invariants.NothingGoesBack | 6.824/mapReduce/src/mr/master.go:110-116 | phase and done never go back and accepted reports stay accepted, between any two states of a run |
| Invariants.WorkerIdsAreDistinct | 6.824/mapReduce/src/mr/master.go:184-188 | registrations hand out positive ids, increasing, so no id twice |
| Timeouts.RequeuedExactlyAfterTimeout | 6.824/mapReduce/src/mr/master.go:95-100 | in every run an iteration of schedule queues a running task again if and only if more than 5 * 10^9 nanoseconds have passed since the task's last registered hand-out, and else leaves it as it is |
| TimelyRuns.TokenInvStep | 6.824/mapReduce/src/mr/master.go:164-178 | one step keeps tokens and statuses matched if and only if it is not a late report; no matched state can panic in one step |
| TimelyRuns.TokensMatchExactlyInTimelyRuns | 6.824/mapReduce/src/mr/master.go:77-182 | through a whole run, each queued task has exactly one token, all others none, and no token is of another phase, if and only if the run is timely |
| TimelyRuns.TimelyRunsAreSafe | 6.824/mapReduce/src/mr/master.go:86-145 | in every timely run: no panic, all tokens are of the current phase, the channel holds at most one token per task and so never more than its capacity, and the send under the lock never blocks |
| TimelyRuns.NoPanic | 6.824/mapReduce/src/mr/master.go:139-141 | while tokens match statuses, a token in hand is of the current phase |
| TimelyRuns.SendHasRoom | 6.824/mapReduce/src/mr/master.go:245-249 | while tokens match statuses, the iteration about to run has room in the channel |
| TimelyRuns.FinishIsLeftOnlyByFailure | 6.824/mapReduce/src/mr/master.go:170-178 | while tokens match, one step within a phase takes a task out of Finish if and only if it is a failure report from the worker recorded for it |
| OneAtATime.FinishStands | 6.824/mapReduce/src/mr/master.go:170-178 | in every timely run in which no id is given a task while it still has one under way, a task once finished is finished to the end of its phase |
| OneAtATime.FinishLeftExactlyByRetraction | 6.824/mapReduce/src/mr/master.go:170-178 | in every timely run, some task leaves Finish within a phase if and only if a failure report about a finished task is acted on |
| LateReports.SharedIdUnfinishes | 6.824/mapReduce/src/mr/worker.go:191-198 | for every job of which some task can finish in its first phase: a timely run in which two executions under the id 0, which workers share when their registration fails, take a task from Finish to Err |
| LateReports.UnfinishesExactlyWhenSomethingFinishes | 6.824/mapReduce/src/mr/master.go:170-178 | a timely run of a job can take a task from Finish to Err within a phase if and only if some input can be read and what it emits has a bucket to go to, or the job has no inputs and has reduce tasks |
| LateReports.PanicsExactlyWhenMapped | 6.824/mapReduce/src/mr/master.go:139-141 | some run of a job ends in the panic of regTask if and only if the job has an input, every input can be read, and what they emit has a bucket to go to |
| LateReports.BlocksExactlyWhenThereAreTasks | 6.824/mapReduce/src/mr/master.go:86-106 | in some run a schedule call blocks on a full channel while it holds the lock if and only if the job has any task; late failure reports let it send the same task again and again |
| Potential.PhiStep | 6.824/mapReduce/src/mr/master.go:77-182 | an effective step lowers the potential by at least one, a fault raises it by at most four, no other step raises it |
| Potential.BoundedWork | 6.824/mapReduce/src/mr/master.go:77-182 | in every run the effective steps are at most 4 (files + nReduce) + 2 + 4 faults |
| Potential.FaultsAreTimeoutsAndBadReports | 6.824/mapReduce/src/mr/master.go:95-178 | what counts as a fault: exactly the steps that queue a running task again, or act on a report that is a failure or about a task that is not running |
| Potential.EffectiveStepsChangeSomething | 6.824/mapReduce/src/mr/master.go:77-182 | what counts as effective: of the other steps, exactly those that change the phase, a status, the tokens, done, or whether the master is alive |
| ClusterSpec.PlayIsRun | 6.824/mapReduce/src/mr/worker.go:80-188 | every run with the disk contains a protocol run of the same states, timely exactly if it is |
| DiskFacts.FactsRun | 6.824/mapReduce/src/mr/worker.go:96-170 | in every run, torn writes included: inputs stay as they were, map executions past their read have a readable input, and the intermediate files behind an execution exist |
| DiskInvariants.PieceBehindBarrier | 6.824/mapReduce/src/mr/worker.go:138-145 | while a reduce execution is under way, every intermediate file it may read is right or torn |
| DiskInvariants.ActKeepsFine | 6.824/mapReduce/src/mr/worker.go:96-170 | no action of any execution, late, repeated or failing, makes a safe file (right, or known to be torn) unsafe, and the acting execution stays on course unless it reads a torn file |
| DiskInvariants.DiskRun | 6.824/mapReduce/src/mr/worker.go:96-170 | in every run in which no reduce execution reads a torn file, each execution's progress tells which files are right or torn |
| Refinement.DoneOutputs | 6.824/mapReduce/src/mr/worker.go:134-170 | a run that is done, without reads of torn files and without torn output files, has read all inputs, and its output files together hold the reduction of everything emitted |
| Refinement.DistributedEqualsSequential | 6.824/mapReduce/src/main/mrsequential.go:38-84 | the refinement theorem: in every such run, with any workers, crashes in or between writes, timeouts, re-executions and late reports, the lines of mr-out-0 to mr-out-(nReduce-1) are, as a multiset, those of the sequential program on the same inputs |
| Refinement.FinishableExactlyWhenInputsAre | 6.824/mapReduce/src/mr/worker.go:99-110 | some run of a job reaches done if and only if every input can be read and, with no reduce tasks, nothing is emitted; and then some run does so with no torn file |
| TornOutputs.WrongExactlyWhenThereIsSomethingToSpoil | 6.824/mapReduce/src/mr/worker.go:163-167 | some run of a job reaches done with a wrong output if and only if the job has a reduce task, every input can be read, and it emits something or an output file holds lines before it begins; the witnesses leave an output file empty or unreached by a failed write that is reported as success in the end |
| Progress.FinishPhase | 6.824/mapReduce/src/mr/master.go:227-234 | from every unfinished state that satisfies the invariants of timely runs there is a timely continuation to the next phase or to done, for a job whose inputs can be read |
| Progress.NoStuckState | 6.824/mapReduce/src/mr/master.go:227-234 | after every timely run of a job whose inputs can be read there is a timely continuation, with whole writes only, that reaches done |
| Recovery.DoneStaysInReach | 6.824/mapReduce/src/mr/master.go:77-182 | after every run whatsoever, late reports, torn writes and blocked sends included, that has not panicked: done can still be reached, calls that hold a token of an earlier phase being left waiting, if and only if every input can be read and what they emit has a bucket to go to |
| Recovery.ServedExactlyWhenClear | 6.824/mapReduce/src/mr/master.go:139-146 | after every run that has not panicked: done can be reached with no call left waiting and no token of the map phase left if and only if the inputs are as above and there is no such token now, or the map phase is not over and no schedule call is about to end it |
| Witnesses.LateReportCanPanic | 6.824/mapReduce/src/mr/master.go:139-141 | the smallest case, worked out: one file that can be read and one reducer, and a run in which a late report leads to the panic in regTask |
| Witnesses.TornWriteCanLoseOutput | 6.824/mapReduce/src/mr/worker.go:163-167 | for every such job that emits something: a finished run whose output file does not exist, after a write that failed and was reported as success all the same |
| Master.Master.MakeMaster | 6.824/mapReduce/src/mr/master.go:239-259 | a new master is the initial state of the protocol, every status ready, its channel as large as the larger phase |
| Master.Master.InitReduceTask | 6.824/mapReduce/src/mr/master.go:128-133 | the reduce phase starts with nReduce statuses, all ready |
| Master.Master.GetTask | 6.824/mapReduce/src/mr/master.go:48-65 | a token names its phase and index, and its file in the map phase |
| Master.Master.Send | 6.824/mapReduce/src/mr/master.go:91-105 | sends a token, or blocks exactly when the channel is full |
| Master.Master.ScheduleTask | 6.824/mapReduce/src/mr/master.go:87-109 | the loop body is one iteration of the protocol after the receives that came before it; a running task is queued again if and only if it is older than 5 * 10^9 nanoseconds; blocked on a send, the body has marked a timed-out or failed task as queued and a ready one not |
| Master.Master.Schedule | 6.824/mapReduce/src/mr/master.go:77-117 | a schedule call does what ScanLoop says, for every clock and every way in which others receive meanwhile |
| Master.ScanLoopIsRun | 6.824/mapReduce/src/mr/master.go:77-117 | what ScanLoop says is a run of protocol steps; if the call blocks, it is at an iteration that is not enabled |
| Master.ScheduleNeverBlocks | 6.824/mapReduce/src/mr/master.go:77-117 | where tokens match statuses, a schedule call comes to its end even if nobody receives, and they match again |
| Master.Master.RegTask | 6.824/mapReduce/src/mr/master.go:135-148 | registering is the protocol's RegTask, panics included |
| Master.Master.Receive | 6.824/mapReduce/src/mr/master.go:151-153 | GetOneTask takes the oldest token |
| Master.Master.ReportTask | 6.824/mapReduce/src/mr/master.go:164-182 | reporting is the protocol's ReportTask, with its index panic |
| Master.Master.RegWorker | 6.824/mapReduce/src/mr/master.go:184-193 | a worker's id is the number of registrations so far |
| Worker.Worker.Partition | 6.824/mapReduce/src/mr/worker.go:106-110 | bucket r holds exactly the pairs whose hash leaves r, in order; with no reduce tasks the first pair panics |
| Worker.Worker.DoMapTask | 6.824/mapReduce/src/mr/worker.go:96-132 | the disk and all reports, however each file's write goes: unreadable input, panic, files that cannot be created, write errors that are reported and passed over, whole writes |
| Worker.Worker.Regroup | 6.824/mapReduce/src/mr/worker.go:146-155 | appending one file's pairs extends every key's value list in order |
| Worker.Worker.Render | 6.824/mapReduce/src/mr/worker.go:158-161 | one line per key, in any iteration order |
| Worker.Worker.ReadPieces | 6.824/mapReduce/src/mr/worker.go:137-156 | all intermediate files regrouped in map order, or failure if one is missing |
| Worker.ReadsTheBuckets | 6.824/mapReduce/src/mr/worker.go:137-156 | if the intermediate files hold the buckets of some map outputs, what is read is these buckets one after the other, in map order, each in the order of emission |
| Worker.Worker.DoReduceTask | 6.824/mapReduce/src/mr/worker.go:134-170 | the disk, the output lines and all reports: a missing file, a write that fails and is followed by success, or a whole write of the reduction of all pairs read |
| Worker.WholeMapTask | 6.824/mapReduce/src/mr/worker.go:112-130 | when every write is whole, the one report is success, every intermediate file holds its bucket, and no other file has changed |
| Worker.SuccessUnlessNotCreated | 6.824/mapReduce/src/mr/worker.go:112-130 | the last report of a map task is success if and only if all its files could be created, whatever went wrong in writing them |
| Worker.MapTaskIsDeeds | 6.824/mapReduce/src/mr/worker.go:96-132 | what DoMapTask leaves on the disk and reports is what an execution of the cluster leaves and reports, however the writes go, and also when the input cannot be read or the worker dies for want of a bucket |
| Worker.ReduceTaskIsDeeds | 6.824/mapReduce/src/mr/worker.go:134-170 | the same for DoReduceTask, a missing intermediate file included |
| Worker.TellIsReport | 6.824/mapReduce/src/mr/worker.go:120-128 | the failure report after which a task goes on is the protocol's report step, with the same verdict and the same continuation |
| Worker.SeenInTheMiddle | 6.824/mapReduce/src/mr/worker.go:114-163 | a write seen in the middle, with any part of it in the file, leaves nothing of that when it is finished, and leaves it there if the worker is killed |
| Worker.PastFailingStays | 6.824/mapReduce/src/mr/worker.go:112-167 | an execution that has read, or dealt with, all its files no longer fails for good: whatever it does and reports from then on, it ends in success or with its worker's death |
| Strings.LeqIsDictionaryOrder | 6.824/mapReduce/src/main/mrsequential.go:23 | one string is at most another if and only if it is a prefix of it or has the smaller character where they first differ |
| Sequential.StretchEndsClean | 6.824/mapReduce/src/main/mrsequential.go:70-73 | in a key-sorted array, a maximal stretch of one key has all pairs of that key behind it |
| Sequential.CollectValues | 6.824/mapReduce/src/main/mrsequential.go:74-77 | collects exactly the values of the stretch |
| Sequential.GroupRuns | 6.824/mapReduce/src/main/mrsequential.go:68-84 | on every key-sorted array: ends, and writes one line per distinct key, in key order, from one call of reduce with all and only that key's values |
| Sequential.MrSequential | 6.824/mapReduce/src/main/mrsequential.go:38-84 | stops exactly if an input cannot be read, else writes a sequential output of the job, whichever order the sort chooses among equal keys |
| Sequential.SequentialLines | 6.824/mapReduce/src/main/mrsequential.go:59-84 | every sequential output is, as a multiset, the reduction of everything emitted |
| Apps.WordsAreTheStretches | 6.824/mapReduce/src/mrapps/wc.go:23-26 | for every text and letter test, the words are the stretches of the text between bounds that only letters lie between and no letter touches, from left to right, and every letter of the text lies in one of them |
| Apps.WcMap | 6.824/mapReduce/src/mrapps/wc.go:21-34 | one pair per word, in order: the word as the key and "1" as the value |
| Apps.WcOrderInsensitive | 6.824/mapReduce/src/mrapps/wc.go:41-44 | word count meets the refinement theorem's hypothesis |
| Apps.WordCountCounts | 6.824/mapReduce/src/mrapps/wc.go:21-44 | a cleanly finished job has exactly one line for each word that occurs, with the number of its occurrences over all inputs, and no other line |
| Apps.SortedFormIsUnique | 6.824/mapReduce/src/mrapps/indexer.go:37 | two sorted arrangements of the same strings are equal |
| Apps.IndexMap | 6.824/mapReduce/src/mrapps/indexer.go:20-31 | each distinct word of the document as the key of exactly one pair, with the document's name, and no other pair, in any iteration order |
| Apps.IndexReduceInPlace | 6.824/mapReduce/src/mrapps/indexer.go:36-39 | sorts its argument in place and returns the count and the sorted list, the same for every sort |
| Apps.IndexOrderInsensitive | 6.824/mapReduce/src/mrapps/indexer.go:36-39 | the indexer meets the refinement theorem's hypothesis |
| Apps.IndexLists | 6.824/mapReduce/src/mrapps/indexer.go:20-39 | a cleanly finished job has exactly one line for each word that occurs, with the number and the sorted names of the inputs that contain it |
| Splitting.MySplit | drogon/hmdp-cpp-backend/src/hmdp/source/utils/CommonUtils.cpp:88-109 | for every non-empty separator and every string whose positions fit in an int: ends, and returns the recursive split at leftmost occurrences without empty pieces |
| Splitting.LoopMovesExactlyForNonEmptySeparators | drogon/hmdp-cpp-backend/src/hmdp/source/utils/CommonUtils.cpp:95-102 | each hit moves the position on within the string if and only if the separator is not empty; an empty one hits for ever at the same place |
| Splitting.PiecesAreClean | drogon/hmdp-cpp-backend/src/hmdp/source/utils/CommonUtils.cpp:97-107 | no piece is empty or contains the separator |
| Splitting.SplitLosesOnlyEmpties | drogon/hmdp-cpp-backend/src/hmdp/source/utils/CommonUtils.cpp:95-107 | the pieces are the non-empty ones of a list that joins to the string |
| Splitting.SplitUndoesJoinExactly | drogon/hmdp-cpp-backend/src/hmdp/source/utils/CommonUtils.cpp:88-109 | for every separator and list of parts, split undoes join if and only if no part is empty and each separator is found where it was put |
| Splitting.SplitUndoesJoinForOneChar | drogon/hmdp-cpp-backend/src/hmdp/source/utils/CommonUtils.cpp:88-109 | for a one-character separator: if and only if all parts are non-empty and without it |
| Params.ParseParam | drogon/hmdp-cpp-backend/src/hmdp/source/utils/CommonUtils.cpp:111-123 | updates the given map by the pieces' pairs in order: exactly the old and the new names, each new name with the value of the last pair that has it, every other as before |
| Params.AssignMeans | drogon/hmdp-cpp-backend/src/hmdp/source/utils/CommonUtils.cpp:116-122 | the same for the assignment loop alone, for every map and list of pairs |
| Params.NameAndValue | drogon/hmdp-cpp-backend/src/hmdp/source/utils/CommonUtils.cpp:118-119 | a piece is cut at its first '='; without one, npos + 1 wraps and the piece maps to itself |
| Params.ParsingUndoesPrintingExactly | drogon/hmdp-cpp-backend/src/hmdp/source/utils/CommonUtils.cpp:111-123 | parsing gives the printed pairs back, in order, if and only if no name has '&' or '=' and no value has '&' |
| Params.ParsingUndoesPrintingMaps | drogon/hmdp-cpp-backend/src/hmdp/source/utils/CommonUtils.cpp:111-123 | printing such a map in any order of its keys and parsing it updates the parameters by exactly that map |
| Trimming.TrimExactly | drogon/hmdp-cpp-backend/src/hmdp/source/utils/CommonUtils.cpp:29-38 | for every string and delimiter set, Trim returns the one middle with no delimiter at either end and only delimiters around it, and nothing else is that |
| Trimming.StringRef.ClearHeadTailSpace | drogon/hmdp-cpp-backend/src/hmdp/source/utils/CommonUtils.cpp:125-134 | leaves Trim of the string with delimiter " ", on every string, all-space ones included |
| Trimming.TrimRightExactly | drogon/hmdp-cpp-backend/src/hmdp/source/utils/CommonUtils.cpp:50-58 | TrimRight removes exactly the tail delimiters if and only if there is nothing but delimiters; otherwise one character too many is gone |
| ShopCache.ShopService.GetById | drogon/hmdp-cpp-backend/src/hmdp/source/services/ShopServiceImpl.cc:383-451 | each outcome with the new cache, a cached text that does not parse included; alone, it keeps cache and database coherent and answers the database's row |
| ShopCache.ShopService.Update | drogon/hmdp-cpp-backend/src/hmdp/source/services/ShopServiceImpl.cc:488-505 | database and cache after it: of the row with that id exactly the columns that the update sets are new, all other rows are as they were, and the key is deleted; alone, it keeps them coherent |
| ShopCache.KeysAsPrinted | drogon/hmdp-cpp-backend/src/hmdp/source/constants/RedisConstants.cpp:5 | two keys, letter by letter |
| ShopCache.GetAlone | drogon/hmdp-cpp-backend/src/hmdp/source/services/ShopServiceImpl.cc:383-451 | a getById whose interleaved steps nothing comes between ends with exactly the reply, database and cache of the method's contract, on every branch |
| ShopCache.UpdateAlone | drogon/hmdp-cpp-backend/src/hmdp/source/services/ShopServiceImpl.cc:488-505 | the same for update |
| ShopCache.AnswersWereHeld | drogon/hmdp-cpp-backend/src/hmdp/source/services/ShopServiceImpl.cc:383-451 | in every interleaved run: getById rejects exactly the ids that are not positive, answers a row only if the cache or the database held it for that id while the call was under way, and throws only if one of them had nothing for that id meanwhile |
| ShopCache.AnswersWereInDatabase | drogon/hmdp-cpp-backend/src/hmdp/source/services/ShopServiceImpl.cc:383-505 | in every run that begins with a cache of database rows, stale fills included, every row answered was in the database under that id at some moment |
| ShopCache.ThrowsForPresentRow | drogon/hmdp-cpp-backend/src/hmdp/source/services/ShopServiceImpl.cc:399-411 | for every row and update of it: a run in which a getById throws although the row is in the database all the time and was in the cache when the call began |
| ShopCache.CacheInvStep | drogon/hmdp-cpp-backend/src/hmdp/source/services/ShopServiceImpl.cc:433-448 | one interleaved step keeps every disagreement about to be deleted if and only if it is not a stale fill |
| ShopCache.CacheAgreesExactlyWithoutStaleFills | drogon/hmdp-cpp-backend/src/hmdp/source/services/ShopServiceImpl.cc:383-505 | the same through whole runs of any number of calls |
| ShopCache.CacheAgreement | drogon/hmdp-cpp-backend/src/hmdp/source/services/ShopServiceImpl.cc:383-505 | if no update writes an id between a getById's database read and its fill for that id, every disagreement is about to be deleted, and when all calls have ended cache and database agree on every id |
| ShopCache.AnswersAreCurrent | drogon/hmdp-cpp-backend/src/hmdp/source/services/ShopServiceImpl.cc:383-505 | in such a run a row is answered only while the database holds it for that id, or while an update of that id has written and not yet deleted the key |
| ShopCache.StaleForever | drogon/hmdp-cpp-backend/src/hmdp/source/services/ShopServiceImpl.cc:433-448 | for every row and every update that changes it: a run of one read and that update after which all calls have ended and the cache is wrong |

## Left out

- Worker.Worker.ReadPieces: an intermediate file that exists can be opened; an open error on an existing file is an action of the cluster model (`ClusterSpec.Act`) only.
- Sequential.MrSequential: `sort.Sort` is a parameter that may be any function returning a key-sorted permutation; its swaps on the array are not modelled.
- Apps.IndexReduceInPlace: `sort.Strings` is a parameter of the same kind.
- Splitting.MySplit: strings longer than 2^31 - 1, whose positions would be truncated, are excluded by the precondition; so are they for `Params.ParseParam`.
- Refinement.DistributedEqualsSequential: assumes that no input file is named like an intermediate or output file of the job, that no reduce execution reads a torn file, and that no output file is torn at the end.
- RPC, sockets, plug-in loading and logging. A call that is lost is an execution that is never reported.
- The JSON encoding of intermediate files; a decoded file gives back the pairs that were encoded. Invalid UTF-8 in keys and values, which the encoder would replace, is not modelled.
- The clock's monotonicity and the saturation of time differences; a fresh status has start time 0.
- The `Alive` flag and the workers' exit: `getTask` always sets it and the channel is never closed.
- How FNV computes; `ihash` is any function to the natural numbers.
- A negative `nReduce`, at which `make` panics.
- `strings.FieldsFunc` is a recursive definition over an arbitrary letter test, proved to give the maximal stretches of letters; Unicode classes and invalid UTF-8 are not modelled.
- The formatting of a line as text; a line is the pair printed on it, so keys or results that contain line breaks are not compared as text.
- `mtiming`, `rtiming`, `crash`, `nocrash`, and the `diskvd`, `lockd`, `pbd` and `viewd` mains: test plug-ins and wrappers.
- `TrimLeft`, which is half of `Trim`, and the wide-string, path and type conversions of `CommonUtils.cpp`.
- The JSON and date encoding of shop rows: a cached text decodes to the row it was made from, or does not parse. Entries without the text field, which other modes of the service write under the same key.
- Database or cache commands that fail. An update without any column, for which the mapper's statement would be malformed.
- The mutex, pass-through and logical-expiry modes of `ShopServiceImpl`, `save` and paging; expiry times; the user, voucher and blog services; the generated ORM models; controllers, filters and configuration.
