# Verified models of the operating-systems labs

Four programs of the repository are modelled here, each in the form the C code has, and
what they are meant to guarantee is proved for every input, run or interleaving.

**The CPU scheduling simulator** (`Lab3/scheduler.c`). `Scheduler.dfy` is the simulator as a
state machine: a process table, a ready queue, a blocked list, a running process and counters;
one pass through the loop of `fcfs_run`, `rr_run` or `sjf_run` is `Step`, made of five phases.
`SchedulerHeap.dfy` is the program itself: `Process` objects threaded by `nextInReadyQueue` and
`nextInBlockedList`, list insertions that walk and rewrite pointers, cycle loops, and the three
runs of `main`, each proved to do what `Step` says. `SchedulerInvariant.dfy` holds the invariant
of every run under every scheduler, `SchedulerTotals.dfy` termination, the makespan, exact I/O
time, the summary counters and the comparison of the schedulers, `SchedulerWaiting.dfy` the
length of every stay in the ready queue and the case where Round Robin is FCFS,
`SjfOrder.dfy` when the queue of SJF is sorted, and `SchedulerSlices.dfy` how long a process keeps
the CPU and in what order the queue is joined.

**The file-system tree** (`Lab1/commands.c`). `FileTree.dfy` describes the tree as a map from
locations to entries (type letter and names of the children in order), path resolution and the
commands, `reload` of any file included. `FileTreeCommands.dfy` says of every command, without its
code, when it succeeds and which nodes it adds or takes away. `FileTreeSave.dfy` is the printer of
saved files and the round trips. `FileTreeHeap.dfy` is the program: `Node` objects with child, sibling and parent
pointers, walked and relinked in place. `Strings.dfy` models `strtok` and `fgets`.

**Shell job control** (`Lab2/tsh.c`). `Jobs.dfy` is the job table, as an array of structs with
the search loops and as a specification on values. `Shell.dfy` interleaves the main line
(`eval`, `do_bgfg`, `waitfg`), the SIGCHLD handler and the kernel, one table access at a time.
`ShellWaiting.dfy` follows one job through them: how long it is waited for and what becomes of it.

**Robust I/O and number printing** (`Lab5/csapp.c`, `Lab2/sio.h`). `Rio.dfy` is the buffered
reader over a descriptor that answers `read()` in any way it likes. `Sio.dfy` is the digit loop
and the in-place reversal of `sio_ltoa`.

`Seqs.dfy` holds the facts about sequences and linked chains that the others share, `Numbers.dfy`
those about numbers.

`dafny verify dfyconfig.toml` checks everything.

## How to read the model

- A process is named by its index in the process list, which is its `processID`. The process
  list and the lines of the random-number file are parameters (`Workload`), with B, C and M at
  least 1 as the code needs them. The quantum counter of `rr_run`, which the program never
  initialises, starts with an arbitrary number (`garbage`).
- `After(policy, w, garbage, t)` is the state after t cycles, and `StopsAfter` says that the
  main loop ends after exactly t of them.
- `Inv` is the invariant: every process is in exactly the place its status names, both lists are
  free of duplicates, the blocked list is sorted by remaining I/O, the burst counters agree with
  the CPU and I/O time so far, every cycle since an arrival is accounted for, and the finished
  list holds every terminated process once in increasing order of finishing time.
- In the heap modules the methods carry ghost state that says which abstract state the objects
  stand for (`Rep`), and their contracts give the whole new abstract state.
- Counters are unbounded numbers; `CountersFit` says for which workloads the 32-bit counters of
  the program hold the same values. The subtraction of `uint32_t` values is modelled with its
  wrap-around.

## What the code does not guarantee

Each of these comes with an input on which the property fails and the exact condition under
which it holds.

- **Removing the working directory.** `rmdir` and `rm` do not check that the target is not the
  root, the working directory or a node above it, and `reload` does not check that a line has
  the tokens it reads. `ExecuteKeeps` shows that a command keeps the system alive exactly if it
  avoids these; `UnsafeRemovalBreaks` gives three commands after which the working directory no
  longer exists, `EmptyRootRemoved` a removal of the root, and `EmptyLineCrashes` a file that
  makes `reload` go through a null pointer. `CrashesIff` says for every file, from the tokens of
  its lines, whether it does, and the contract of `FileSystem.Rmdir` says the same for `rmdir`.
- **Job numbers.** Two live jobs can have the same number (`NumbersCanRepeat`,
  `LowCounterRepeats`). Adding a job keeps the numbers distinct exactly if no job in the table
  has the number that `nextjid` gives out (`AddKeepsDistinct`), and over a whole interleaving
  they are distinct throughout exactly if this holds at every `addjob` (`NumbersStayDistinct`).
  `pid2jid` and `getjobjid` agree for all live jobs exactly if the numbers are distinct
  (`LookupsAgree`).
- **`fg` can hang.** `do_bgfg` reads the pid for `waitfg` after it has set the state. If the
  handler has cleared the slot by then, it calls `waitfg(0)`, and this never returns
  (`FgCanHang`, `HangsForever`). On a table that no longer changes `waitfg(pid)` returns exactly
  if pid is not what `fgpid` finds (`WaitReturns`); if every slot in the foreground has been
  cleared, which is so where `FgCanHang` ends, this means exactly if pid is not 0
  (`WaitForCleared`).
- **The order of the SJF queue.** The comment in `sjf_add_to_ready` says the queue is kept
  sorted, but `Lab3/scheduler.c:594` takes the total of one process less the run time of the
  next. Three arrivals with C = 5, 10 and 7 end up in this order, none of them having run
  (`SjfQueueUnsorted`). A sorted queue stays sorted exactly if the guard of the loop holds
  neither too early nor too late (`SjfKeepsOrder`); among processes that have not run, exactly
  if the new one is shorter than the head, or nobody is longer (`SjfKeepsOrderUnrun`). A process
  that ends its I/O is queued at the end, which keeps the order exactly if it is not to run
  before the last one (`AppendSorted`).
- **The buffer of `sio_putl`.** Its 16 bytes are enough for every `int`, but for a `long` exactly
  within the bounds that `PutlFits` gives; `PutlOverflows` names the two numbers next to them.

## Model

| member | source | states |
|---|---|---|
| `Scheduler.Burst` | Lab3/scheduler.c:74-82 | the burst of a process lies between 1 and its bound B, and depends on the process alone |
| `Scheduler.BlockedPositionIs` | Lab3/scheduler.c:276-300 | a place with only bursts up to the new one before it, and a longer one (or the end) at it, is the place `add_to_blocked` chooses |
| `SchedulerInvariant.ExpiredFacts` | Lab3/scheduler.c:378-392 | on a sorted blocked list the processes whose I/O ends are exactly the ones the tick loop pops from the head |
| `SchedulerInvariant.TickBlockedSorted` | Lab3/scheduler.c:372-393 | after the tick the blocked list is sorted again and everybody on it has at least one unit of I/O left |
| `SchedulerInvariant.TickBlockedPartition` | Lab3/scheduler.c:372-393 | the tick moves processes from the blocked list to the ready queue without losing or doubling any, in agreement with their status |
| `SchedulerInvariant.TickBlockedKeeps` | Lab3/scheduler.c:372-393 | the tick keeps the whole invariant |
| `SchedulerInvariant.AdmitKeeps` | Lab3/scheduler.c:353-360 | admitting the arrivals one by one, in list order under FCFS and Round Robin or at the SJF place, keeps the invariant, with exactly the processes seen so far admitted |
| `SchedulerInvariant.BlockedPositionFacts` | Lab3/scheduler.c:276-300 | a newly blocked process goes behind all bursts not longer than its own and before all longer ones |
| `SchedulerInvariant.InsertSorted` | Lab3/scheduler.c:266-301 | inserting into the blocked list keeps it sorted by remaining I/O |
| `SchedulerInvariant.EnterBlockedLists` | Lab3/scheduler.c:266-301 | a process that blocks leaves the CPU and is on the blocked list exactly once, which stays sorted |
| `SchedulerInvariant.TickRunningProc` | Lab3/scheduler.c:397-415 | one unit of CPU time keeps the agreement between burst counters, CPU time and I/O owed, whether the process terminates, blocks or goes on |
| `SchedulerInvariant.TickRunningKeeps` | Lab3/scheduler.c:397-415 | ticking the running process keeps the invariant; a terminated process is entered in the finished list after all earlier ones |
| `SchedulerInvariant.StartNextKeeps` | Lab3/scheduler.c:418-422 | starting the head of the ready queue keeps the invariant, and afterwards nobody waits while the CPU is free |
| `SchedulerInvariant.PreemptKeeps` | Lab3/scheduler.c:540-544 | a preempted process keeps what is left of its burst and is queued once |
| `SchedulerInvariant.DispatchKeeps` | Lab3/scheduler.c:536-552 | every dispatcher keeps the invariant and leaves the CPU busy if anybody waits |
| `SchedulerInvariant.ChargeKeeps` | Lab3/scheduler.c:424-431 | charging the ready queue makes CPU, I/O and waiting time of every process add up to the cycles since its arrival |
| `SchedulerInvariant.StepKeeps` | Lab3/scheduler.c:483-564 | one cycle of any scheduler keeps the invariant and work conservation |
| `SchedulerInvariant.RunKeeps` | Lab3/scheduler.c:365-433 | the invariant and work conservation hold between any two cycles of any run of any of the three schedulers |
| `SchedulerTotals.StepTimes` | Lab3/scheduler.c:369-432 | in a cycle exactly the process that was running gains CPU time and exactly those that were blocked gain I/O time |
| `SchedulerTotals.BlockedCycles` | Lab3/scheduler.c:372-393 | the count of blocked cycles always lies between the largest single I/O time and the sum of all of them |
| `SchedulerTotals.CpuAccounting` | Lab3/scheduler.c:397-432 | the CPU times of all processes and the idle cycles together make up all cycles after the first |
| `SchedulerTotals.IODueClosed` | Lab3/scheduler.c:303-330 | owing `io` after every full burst comes to (cpu / burst) times `io` |
| `SchedulerTotals.DueIsTotalIO` | Lab3/scheduler.c:303-330 | the I/O owed up to the last unit of CPU time is ((C-1)/b)·b·M |
| `SchedulerTotals.WorkLeft` | Lab3/scheduler.c:369-432 | no process gets more CPU or I/O time than its fixed totals, and the sums fall short as long as one has not terminated |
| `SchedulerTotals.DoneMeansTerminated` | Lab3/scheduler.c:369 | the loop condition fails exactly when every process has terminated |
| `SchedulerTotals.SomebodyWorks` | Lab3/scheduler.c:417-422 | after the last arrival every cycle of an unfinished run begins with a process running or blocked |
| `SchedulerTotals.RunOnSchedule` | Lab3/scheduler.c:369-432 | in a run that has not ended, the clock is never ahead of the last arrival and the work done |
| `SchedulerTotals.RunningInBound` | Lab3/scheduler.c:369-432 | a loop that is still running has not passed the makespan bound maxA + ΣC + ΣI/O |
| `SchedulerTotals.Terminates` | Lab3/scheduler.c:621-688 | the main loop of every scheduler ends, after at most maxA + ΣC + ΣI/O + 1 cycles |
| `SchedulerTotals.Outcome` | Lab3/scheduler.c:397-415 | at the end every process has terminated with CPU time C, its fixed I/O time, and finishingTime - A = C + I/O + waiting; the finished list holds each once in strictly increasing finishing time; the last cycle is the largest finishing time, within the bound |
| `SchedulerTotals.LastFinisher` | Lab3/scheduler.c:174 | CURRENT_CYCLE-1 is the finishing time of some process |
| `SchedulerTotals.RunStarts` | Lab3/scheduler.c:326-329 | TOTAL_STARTED_PROCESSES always counts exactly the processes that have been started at least once, preempted ones not twice |
| `SchedulerTotals.Summary` | Lab3/scheduler.c:174-187 | at the end ΣC and the idle cycles make up CURRENT_CYCLE-1, the blocked cycles lie between the longest and the sum of the I/O times, and all processes have been counted as started |
| `SchedulerTotals.CountersFit` | Lab3/scheduler.c:15-43 | for a workload whose makespan bound and computed I/O bursts fit, none of the clock, the blocked cycles, the numbers of started and finished processes and the fields of a process leaves its 32-bit type during a run, nor does the quantum counter if it and the quantum fit at the start |
| `SchedulerTotals.SchedulersAgree` | Lab3/scheduler.c:756-771 | under any two schedulers a process ends with the same I/O time ((C-1)/b)·b·M, and with the same turnaround less waiting time |
| `SchedulerWaiting.RoundRobinStep` | Lab3/scheduler.c:536-562 | in every cycle a waiting process either gets the CPU or its rank (place · quantum + counter + 1) drops, whatever joins behind it |
| `SchedulerWaiting.RoundRobinCounter` | Lab3/scheduler.c:536-562 | whatever the uninitialised quantum counter held, after the first cycle it is below the quantum |
| `SchedulerWaiting.RoundRobinWaits` | Lab3/scheduler.c:536-562 | a process in the ready queue stays in it without interruption until it gets the CPU, within as many cycles as its rank |
| `SchedulerWaiting.RoundRobinBoundedWaiting` | Lab3/scheduler.c:536-562 | with n processes any stay in the ready queue ends on the CPU after at most (n-1)·quantum cycles |
| `SchedulerWaiting.FcfsNoneSuspended` | Lab3/scheduler.c:365-433 | under FCFS nobody waits with part of a burst left |
| `SchedulerWaiting.FcfsStep` | Lab3/scheduler.c:397-429 | in a cycle of FCFS the delay of a waiting process (running burst and bursts of those ahead) drops by exactly one, and it gets the CPU exactly when it was one |
| `SchedulerWaiting.FcfsExactWaiting` | Lab3/scheduler.c:397-429 | under FCFS a stay in the ready queue lasts exactly the running CPUBurst and min(b, C - cpu) of everybody ahead; it is charged in each of these cycles, and nothing that joins later changes it |
| `SchedulerWaiting.StepSame` | Lab3/scheduler.c:536-552 | with no burst longer than the quantum, one cycle of Round Robin and one of FCFS lead from equal states to equal states |
| `SchedulerWaiting.RoundRobinIsFcfs` | Lab3/scheduler.c:483-564 | if no burst outlasts the quantum, the runs of Round Robin and FCFS agree cycle for cycle in both lists, the running process, every field of every process and all counters |
| `SchedulerSlices.EndedJoin` | Lab3/scheduler.c:378-392 | under every scheduler those whose I/O ends join the ready queue behind all that wait, in the order of the blocked list |
| `SchedulerSlices.JoinOrder` | Lab3/scheduler.c:490-534 | in a cycle of FCFS or Round Robin the queue is joined first by those whose I/O ends, then by the arrivals in the order of the process list, all behind those that wait |
| `SchedulerSlices.DispatchExact` | Lab3/scheduler.c:536-562 | whatever the ready queue: if the CPU is free or the quantum used up, the head of the line runs, a preempted process being last in it, and a new quantum begins; else the same process runs on with one unit of the quantum less |
| `SchedulerSlices.CycleExact` | Lab3/scheduler.c:516-562 | a running process loses one unit of its burst in a cycle, and keeps the CPU if and only if it has some left and, under Round Robin, the quantum is not used up; else the head of the line follows |
| `SchedulerSlices.FreeCycle` | Lab3/scheduler.c:536-552 | a cycle that begins with the CPU free starts the head of the queue, if there is one, and a new quantum |
| `SchedulerSlices.SliceKept` | Lab3/scheduler.c:397-422 | in a run a process keeps the CPU for the rest of its burst, or under Round Robin of the quantum if this is shorter, whether or not anybody waits |
| `SchedulerSlices.SliceEnds` | Lab3/scheduler.c:536-552 | after exactly that many cycles it gives the CPU to the head of the line, in which it is last itself if its burst is not over; so FCFS and SJF never preempt |
| `SchedulerSlices.FullQuantum` | Lab3/scheduler.c:536-562 | a process that starts with a burst longer than the quantum q runs for exactly q cycles and is then queued last |
| `SjfOrder.InsertFits` | Lab3/scheduler.c:596-603 | a process inserted into a sorted queue leaves it sorted if and only if it is not to run before its predecessor nor its successor before it |
| `SjfOrder.AppendSorted` | Lab3/scheduler.c:640-645 | queueing a process that ends its I/O at the end keeps a sorted queue sorted if and only if it is not to run before the last one |
| `SjfOrder.FirstStop` | Lab3/scheduler.c:592-606 | the place chosen is behind the first element where the guard of the loop holds |
| `SjfOrder.SjfKeepsOrder` | Lab3/scheduler.c:568-610 | for a sorted queue of any processes, the insertion keeps it sorted if and only if the queue is empty, the new process is to run before the head, or the guard never holds before a process that is to run before the new one and has held before any that the new one is to run before |
| `SjfOrder.SjfKeepsOrderUnrun` | Lab3/scheduler.c:568-610 | among processes that have not run and arrived no later, the queue stays sorted if and only if it is empty, the new process is shorter than the head, or nobody is longer |
| `SjfOrder.ArrivalsKeepOrder` | Lab3/scheduler.c:612-619 | while the arrivals of a cycle are admitted the queue is sorted at every point if and only if it was before and every arrival meets that condition |
| `SjfOrder.SjfQueueUnsorted` | Lab3/scheduler.c:592-609 | three arrivals with C = 5, 10 and 7 leave the queue in this order, sorted after two and unsorted after three |
| `SchedulerHeap.Simulator.BlockedFront` | Lab3/scheduler.c:270-281 | linking a process in front makes it the head of the blocked list |
| `SchedulerHeap.Simulator.BlockedBehind` | Lab3/scheduler.c:286-300 | linking a process behind another inserts it there; at the end of the list its own link is not written, so it has to be nil before |
| `SchedulerHeap.Simulator.FindBlockedPlace` | Lab3/scheduler.c:285-297 | the walk stops at the process behind which the burst belongs |
| `SchedulerHeap.Simulator.AddToBlocked` | Lab3/scheduler.c:266-301 | the pointer insertion enters the process in the blocked list at its sorted place and changes nothing else |
| `SchedulerHeap.Simulator.LastReady` | Lab3/scheduler.c:344-347 | the walk ends at the last process of the ready queue |
| `SchedulerHeap.Simulator.FcfsAddToReady` | Lab3/scheduler.c:334-351 | the process becomes ready and the last of the queue, the order of the others kept |
| `SchedulerHeap.Simulator.ComesBefore` | Lab3/scheduler.c:580-598 | the comparison of remaining times and arrivals, said with the fields: the new total less its run time against the total of one process less the run time of the next, both modulo 2^32, and the arrivals if they are equal |
| `SchedulerHeap.Simulator.FindReadyPlace` | Lab3/scheduler.c:592-606 | the walk stops where the mixed criterion first holds, or at the end |
| `SchedulerHeap.Simulator.SjfAddToReady` | Lab3/scheduler.c:568-610 | the process becomes ready and is inserted once, at the place the walk finds, the order of the others kept |
| `SchedulerHeap.Simulator.TickOne` | Lab3/scheduler.c:378-392 | a step of the walk ticks one process and, if its I/O ends, moves it from the head of the blocked list to the end of the ready queue |
| `SchedulerHeap.Simulator.TickBlockedList` | Lab3/scheduler.c:372-393 | although it only ever removes the head, the walk ticks each blocked process exactly once and moves out exactly those whose I/O ends |
| `SchedulerHeap.Simulator.AddArrivals` | Lab3/scheduler.c:353-360 | exactly the processes that arrive in this cycle enter the ready queue, in the order of the process list |
| `SchedulerHeap.Simulator.GetRandNumFromFile` | Lab3/scheduler.c:51-68 | the number on the line asked for, counted from 1, or 1804289383 if the file is shorter |
| `SchedulerHeap.Simulator.RandomOS` | Lab3/scheduler.c:74-82 | 1 plus the number on line 200 + process number modulo the bound |
| `SchedulerHeap.Simulator.LoadBurst` | Lab3/scheduler.c:306-319 | a cold start takes the shorter of burst and time left, with I/O only after a full burst; a suspended process keeps its burst |
| `SchedulerHeap.Simulator.StartProcess` | Lab3/scheduler.c:303-330 | the process gets its burst, is running and counted if new, and has no link into either list |
| `SchedulerHeap.Simulator.StartNext` | Lab3/scheduler.c:417-422 | the head of the ready queue is taken out of it and started; nothing happens on an empty queue |
| `SchedulerHeap.Simulator.TickRunningProcess` | Lab3/scheduler.c:397-415 | the running process gets one unit, and terminates with a snapshot in the finished list, blocks, or goes on; its blocked link is nil when it has to be |
| `SchedulerHeap.Simulator.PreemptRunning` | Lab3/scheduler.c:540-544 | the running process goes to the end of the ready queue |
| `SchedulerHeap.Simulator.ChargeReadyQueue` | Lab3/scheduler.c:424-429 | the walk charges one cycle to exactly the waiting processes |
| `SchedulerHeap.Simulator.PlainCycle` | Lab3/scheduler.c:369-432 | one pass through the loop of `fcfs_run` or `sjf_run` is one step of the state machine |
| `SchedulerHeap.Simulator.RoundRobinCycle` | Lab3/scheduler.c:489-563 | one pass through the loop of `rr_run` is one step, with the 32-bit quantum counter |
| `SchedulerHeap.Simulator.FcfsRun` | Lab3/scheduler.c:365-433 | the loop terminates, after exactly the cycles the state machine needs, in its final state |
| `SchedulerHeap.Simulator.RrRun` | Lab3/scheduler.c:483-564 | the same for Round Robin with any quantum and any initial counter |
| `SchedulerHeap.Simulator.SjfRun` | Lab3/scheduler.c:621-688 | the same for SJF |
| `SchedulerHeap.Simulator.ResetProcessList` | Lab3/scheduler.c:248-264 | every process is as before its first run, with nil links |
| `SchedulerHeap.Simulator.Reset` | Lab3/scheduler.c:241-264 | counters, lists and processes are in the initial state, so that each run starts afresh |
| `SchedulerHeap.Simulator.RunSchedulers` | Lab3/scheduler.c:756-777 | the three runs of `main` over the same objects, of FCFS, Round Robin with quantum 2 and SJF, leave what runs of these schedulers leave, all processes completed, with the same I/O time and the same finishing time less waiting time |
| `Strings.TokenFirst` | Lab1/commands.c:30-33 | a token followed by a delimiter or the end is the first token found |
| `Strings.NextToken` | Lab1/commands.c:4-12 | one `strtok` call returns the next token, and what is left holds the others |
| `Strings.NextLine` | Lab1/commands.c:317 | one `fgets` call returns the next line with its newline |
| `Strings.LastLine` | Lab1/commands.c:317 | what is left without a newline is the last line |
| `FileTree.WalkStays` | Lab1/commands.c:41-83 | path resolution only ends at nodes of the tree, and for a new file only under one that has no child of that name |
| `FileTree.TokensOfPath` | Lab1/commands.c:240-260 | cutting a printed path at slashes gives back the names on the way |
| `FileTree.PathLeadsBack` | Lab1/commands.c:25-84 | the path printed for a node resolves to that node from any working directory, and creating it anew fails with ALREADY_EXISTS |
| `FileTree.PathsDiffer` | Lab1/commands.c:240-260 | different nodes have different paths |
| `FileTreeCommands.PathText` | Lab1/commands.c:249-259 | a printed path begins with a slash, has as many as there are names on the way, and does not end in one |
| `FileTreeCommands.WalkExact` | Lab1/commands.c:41-83 | a path resolves to its destination if and only if there is a node at every step of the way, and fails with NOT_FOUND otherwise |
| `FileTreeCommands.WalkNewExact` | Lab1/commands.c:64-81 | for a new node: ALREADY_EXISTS if the whole way is there, the parent if only the last step is missing, NOT_FOUND otherwise |
| `FileTreeCommands.NavigateExact` | Lab1/commands.c:25-84 | the same from the root for a path with a leading slash and from the working directory for any other |
| `FileTreeCommands.RelativePath` | Lab1/commands.c:26-38 | from a directory above a node, the rest of its printed path without the leading slash leads to it |
| `FileTreeCommands.DotPaths` | Lab1/commands.c:42-47 | a dot and the empty path name the working directory, two dots its parent, a slash the root |
| `FileTree.InsertKeeps` | Lab1/commands.c:107-144 | appending a child of a new name keeps a rooted tree with distinct sibling names |
| `FileTree.RemoveKeeps` | Lab1/commands.c:86-105 | unlinking any node but the root keeps a rooted tree |
| `FileTree.RemoveInserted` | Lab1/commands.c:86-144 | unlinking a node just appended restores the tree exactly, sibling order included |
| `FileTree.NewFileFound` | Lab1/commands.c:107-144 | a path that has just been created resolves to the new node |
| `FileTreeCommands.MkdirExact` | Lab1/commands.c:146-155 | mkdir adds exactly one directory, without children, as the last child of its parent, if and only if just the last step of the path is missing; else NOT_ENOUGH_ARGS, ALREADY_EXISTS or NOT_FOUND, and nothing changes |
| `FileTreeCommands.CreatExact` | Lab1/commands.c:269-277 | the same of creat, with a file |
| `FileTreeCommands.PlainName` | Lab1/commands.c:107-144 | mkdir and creat of a plain new name add it to the working directory |
| `FileTreeCommands.RmdirExact` | Lab1/commands.c:157-188 | rmdir takes away exactly one node, a directory without children, its siblings keeping their order; a node with children is refused with DIR_NOT_EMPTY, a childless one that is no directory with WRONG_TYPE, a missing one with NOT_FOUND, and nothing changes |
| `FileTreeCommands.RmExact` | Lab1/commands.c:279-299 | rm takes away a file and what is below it and nothing else; a directory is refused with WRONG_TYPE, a missing node with NOT_FOUND, and nothing changes |
| `FileTreeCommands.CdExact` | Lab1/commands.c:217-238 | cd goes to the root without an argument, to the node named if there is one, and otherwise nowhere |
| `FileTree.ExecuteKeeps` | Lab1/commands.c:146-337 | a command keeps the tree a tree with the working directory in it, if and only if it does not remove the root, the working directory or a node above it, nor reload a file with a short line behind good ones |
| `FileTree.RunLive` | Lab1/commands.c:146-337 | every run of mkdir, creat, rmdir, rm, cd and reload without such a removal or file keeps a rooted tree |
| `FileTree.RmdirUndoesMkdir` | Lab1/commands.c:157-188 | rmdir of the same path after a successful mkdir succeeds and restores the tree exactly |
| `FileTree.RmUndoesCreat` | Lab1/commands.c:279-299 | rm of the same path after a successful creat succeeds and restores the tree exactly |
| `FileTree.UnsafeRemovalBreaks` | Lab1/commands.c:157-188 | mkdir a, cd a, rmdir ../a leaves a working directory that is not in the tree |
| `FileTree.EmptyRootRemoved` | Lab1/commands.c:167-186 | rmdir . in an empty file system comes to remove the root |
| `FileTree.CrashesIff` | Lab1/commands.c:317-335 | whatever the tree, reload goes through a null pointer if and only if a blank line or a type letter alone comes behind nothing but good lines |
| `FileTree.EmptyLineCrashes` | Lab1/commands.c:318-320 | a file of one empty line makes it do so in every tree |
| `FileTree.LoadKeeps` | Lab1/commands.c:317-336 | reloading any file keeps a rooted tree and all the nodes it had |
| `FileTreeCommands.ReloadExact` | Lab1/commands.c:316-336 | reload takes in everything before the first line that is not good, and this line, if there is one, says whether it ends with WRONG_TYPE or a null pointer |
| `FileTreeSave.RenderTokens` | Lab1/commands.c:345 | a saved line is cut into the type letter and the whole path |
| `FileTreeSave.SavedSample` | Lab1/commands.c:339-352 | a root with one directory a is saved as the lines "D /" and "D /a" |
| `FileTreeSave.ReloadIsReplay` | Lab1/commands.c:316-336 | reloading printed lines creates their nodes in order from the root, without a malformed line |
| `FileTreeSave.ReplaySubtree` | Lab1/commands.c:339-352 | replaying the lines of a subtree into another tree grafts exactly that subtree as the last child of its parent |
| `FileTreeSave.ReplayKids` | Lab1/commands.c:347-351 | replaying the lines of the remaining children completes a node whose earlier children are there |
| `FileTreeSave.SaveReload` | Lab1/commands.c:301-369 | reloading a saved tree into a fresh root rebuilds the same names, types and sibling order |
| `FileTreeSave.ReloadUnchanged` | Lab1/commands.c:301-337 | reloading a saved tree into itself changes nothing |
| `FileTreeSave.LoadSavable` | Lab1/commands.c:308-331 | every name that reload takes from a file can be saved and read back |
| `FileTreeSave.ExecuteSavable` | Lab1/lab1_barran.c:45-52 | commands whose arguments hold no blank, and reloads of any file, keep a tree that can be saved and read back |
| `FileTreeSave.RunSavable` | Lab1/lab1_barran.c:41-87 | every safe run of such commands keeps a live tree that can be saved and read back |
| `FileTreeSave.SaveReloadAfterRun` | Lab1/commands.c:301-369 | both round trips hold for every tree that commands, reloads of other files included, can build from the initial one without an unsafe step |
| `FileTreeHeap.InsertLinks` | Lab1/commands.c:118-133 | appending a child changes one pointer of the old nodes: the first-child pointer of a parent without children, or the sibling pointer of the last child |
| `FileTreeHeap.RemoveFirstKid` | Lab1/commands.c:89-91 | unlinking changes a first-child pointer only where the node was the first child, to its next sibling |
| `FileTreeHeap.RemoveSibling` | Lab1/commands.c:92-102 | unlinking changes a sibling pointer only where it led to the node, to the node's next sibling |
| `FileTreeHeap.FileSystem.constructor` | Lab1/lab1_barran.c:24-33 | a root that is its own parent, without children, as working directory |
| `FileTreeHeap.FileSystem.JumpToRoot` | Lab1/commands.c:17-23 | following parents from any node ends at the root |
| `FileTreeHeap.FileSystem.FindChild` | Lab1/commands.c:50-62 | the search over the siblings finds the child of that name if there is one |
| `FileTreeHeap.FileSystem.NavigateToPath` | Lab1/commands.c:25-84 | the token loop over the pointers returns the node and status that path resolution gives on the tree |
| `FileTreeHeap.FileSystem.ParseLowestFile` | Lab1/commands.c:3-15 | the last name of the path |
| `FileTreeHeap.FileSystem.LastChild` | Lab1/commands.c:124-128 | the walk over the siblings ends at the last child |
| `FileTreeHeap.FileSystem.Append` | Lab1/commands.c:114-143 | the new node becomes the last child; every old node stays where it is |
| `FileTreeHeap.FileSystem.NewFile` | Lab1/commands.c:107-144 | status and new tree of creating a node, with all error cases |
| `FileTreeHeap.FileSystem.Mkdir` | Lab1/commands.c:146-155 | status and new tree of mkdir, a missing argument included |
| `FileTreeHeap.FileSystem.Creat` | Lab1/commands.c:269-277 | status and new tree of creat |
| `FileTreeHeap.FileSystem.PreviousSibling` | Lab1/commands.c:94-99 | the walk ends at the sibling just before the node |
| `FileTreeHeap.FileSystem.RmHelper` | Lab1/commands.c:86-105 | the pointers represent the tree without the node and everything below it; all other nodes stay where they are |
| `FileTreeHeap.FileSystem.Rmdir` | Lab1/commands.c:157-188 | status and new tree of rmdir in all cases, and exactly when the program follows a null pointer; the working directory stays valid if the command is safe |
| `FileTreeHeap.FileSystem.Rm` | Lab1/commands.c:279-299 | status and new tree of rm in all cases; the working directory stays valid if the command is safe |
| `FileTreeHeap.FileSystem.Cd` | Lab1/commands.c:217-238 | the working directory becomes the node named, the root without an argument, and stays on an error |
| `FileTreeHeap.FileSystem.AbsoluteWd` | Lab1/commands.c:240-260 | prepending names up to the root builds the path that leads back to the node |
| `FileTreeHeap.FileSystem.SaveRecursive` | Lab1/commands.c:339-352 | the recursion over child and sibling pointers writes the lines of the subtree in pre-order |
| `FileTreeHeap.FileSystem.Save` | Lab1/commands.c:354-369 | the text saved is that of the whole tree |
| `FileTreeHeap.FileSystem.Reload` | Lab1/commands.c:301-337 | reading any file line by line leaves the tree that its lines describe, stops at a malformed line with what came before taken in, or goes through a null pointer exactly on a short line behind good ones |
| `FileTreeHeap.CopyThroughFile` | Lab1/commands.c:301-369 | saving one heap tree and reloading the text into a fresh one gives an equal tree |
| `Jobs.AddJobPids` | Lab2/tsh.c:514-538 | addjob enters a process in exactly one slot if one is free, and otherwise changes nothing |
| `Jobs.DeleteJobPids` | Lab2/tsh.c:540-556 | deletejob removes exactly that process from the table, and says whether it was there |
| `Jobs.AddJobEntry` | Lab2/tsh.c:522-533 | the job entered has the process, state and command line asked for and the next number, in the first free slot; all other jobs are unchanged |
| `Jobs.DeleteJobEntry` | Lab2/tsh.c:548-553 | the slot of the process is emptied, the next number is one past the largest left, and all other jobs are unchanged |
| `Jobs.AddJobNumbers` | Lab2/tsh.c:522-529 | with a counter one past the largest number a new job gets a number nobody has, and the counter stays so if and only if it is not set back to 1 |
| `Jobs.AddKeepsDistinct` | Lab2/tsh.c:522-529 | whatever the counter, adding a job keeps the numbers distinct if and only if no job in the table has the number given out |
| `Jobs.LookupsAgree` | Lab2/tsh.c:580-605 | pid2jid and getjobjid agree for every process in the table if and only if the numbers are distinct |
| `Jobs.LowCounterRepeats` | Lab2/tsh.c:526 | with jobs 1 and 2 in the table and the counter at 2, the next job is another number 2 |
| `Jobs.NumbersCanRepeat` | Lab2/tsh.c:526-528 | fifteen jobs, the second ends, two more start: two live jobs have number 1, and the second cannot be reached by it |
| `Jobs.JobTable.constructor` | Lab2/tsh.c:495-501 | an empty table whose first number is 1 |
| `Jobs.JobTable.FindMaxJid` | Lab2/tsh.c:503-512 | the largest job number in use |
| `Jobs.JobTable.Add` | Lab2/tsh.c:514-538 | the first free slot takes the job; table, counter with its wrap and result in all cases |
| `Jobs.JobTable.Delete` | Lab2/tsh.c:540-556 | the first slot of that process is cleared and the counter recomputed; table, counter and result in all cases |
| `Jobs.JobTable.FindFgPid` | Lab2/tsh.c:558-566 | the process of the first slot in the foreground, 0 if there is none |
| `Jobs.JobTable.FindJobPid` | Lab2/tsh.c:568-578 | the first slot of that process, none for an impossible one |
| `Jobs.JobTable.FindJobJid` | Lab2/tsh.c:580-591 | the first slot with that job number |
| `Jobs.JobTable.PidToJid` | Lab2/tsh.c:593-605 | the job number of the process, 0 if it has none |
| `Shell.NextTracked` | Lab2/tsh.c:201-224 | every step of shell, handler or kernel keeps the account of children: in the table, not yet added, already reaped, or lost to a full table |
| `Shell.NextForeground` | Lab2/tsh.c:29-37 | every step keeps at most one job in the foreground, and none outside a wait |
| `Shell.NextNumbered` | Lab2/tsh.c:503-556 | every step keeps nextjid = maxjid + 1 and distinct numbers until the counter is set back |
| `Shell.RunSound` | Lab2/tsh.c:178-238 | all three hold in every state of every interleaving |
| `Shell.ForkReap` | Lab2/tsh.c:201-224 | whenever SIGCHLD is deliverable the table holds exactly the forked, unreaped children, each in one slot, but for those that met a full table; the handler finds the job of a reported child exactly if it is not one of those |
| `Shell.NothingLost` | Lab2/tsh.c:522-537 | without an overflow of the table no child is ever missing from it |
| `Shell.HandlerFindsJob` | Lab2/tsh.c:407-436 | without an overflow the handler's lookup always finds its job, so it never follows a null pointer |
| `Shell.ForegroundSafety` | Lab2/tsh.c:321-378 | in every interleaving at most one job is in the foreground, and none when a command starts |
| `ShellWaiting.ForegroundWaits` | Lab2/tsh.c:221-231 | in every interleaving, from the addjob of a foreground child that finds a slot until the handler reacts to a report about it, its job is in the foreground and the shell does not come back to its prompt |
| `ShellWaiting.ForegroundAlive` | Lab2/tsh.c:443-456 | nor does the shell end in between, by ctrl-c or in its handler, if addjob has always found a free slot |
| `ShellWaiting.FgWaits` | Lab2/tsh.c:360-363 | the same wait for a job that fg brings to the foreground while its process is in the table |
| `ShellWaiting.ReportEndsWait` | Lab2/tsh.c:418-435 | once the handler has reacted to the report nothing is in the foreground, and the wait comes to its end |
| `ShellWaiting.SeekExact` | Lab2/tsh.c:341-352 | the lookup of fg and bg takes the first job of that number, or of that process, and gives up if and only if there is none |
| `ShellWaiting.ReactExact` | Lab2/tsh.c:418-431 | a job reported as stopped is left as stopped, one reported as ended is out of the table, and no other job changes |
| `Shell.NumberSafety` | Lab2/tsh.c:580-605 | until the counter is set back, nextjid = maxjid + 1, the numbers are distinct, and the number of every process leads to its slot |
| `Shell.NextDistinct` | Lab2/tsh.c:514-556 | a step from distinct numbers leads to distinct numbers if and only if it does not give out one in use |
| `Shell.NumbersStayDistinct` | Lab2/tsh.c:514-556 | in every interleaving, however often the counter is set back, the numbers are distinct throughout if and only if addjob never gives out one in use |
| `Shell.HangsForever` | Lab2/tsh.c:373-378 | once waitfg has been called with 0, the shell never comes back to its prompt, in any interleaving |
| `Shell.WaitReturns` | Lab2/tsh.c:373-378 | on a table that no longer changes, waitfg(pid) returns if and only if pid is not what fgpid finds there |
| `Shell.WaitForCleared` | Lab2/tsh.c:373-378 | once every slot in the foreground has been cleared, or there is none, it returns if and only if pid is not 0 |
| `Shell.FgCanHang` | Lab2/tsh.c:355-363 | a concrete interleaving in which fg resumes a job that ends before its number is read, and waits for process 0, with the cleared slot in the foreground |
| `Rio.LineLengthIs` | Lab5/csapp.c:876-890 | a length with no earlier newline that ends in one, at the end of the stream or at the limit is the length of the line |
| `Rio.LineLengthEnds` | Lab5/csapp.c:876-890 | the length of the line has this property, so it is the only one |
| `Rio.DeliverSlices` | Lab5/csapp.c:848-893 | what any mix of buffered reads delivers, put together and followed by what is left, is the byte stream: nothing lost, repeated or reordered |
| `Rio.ReadsReachEnd` | Lab5/csapp.c:848-893 | enough reads that each ask for at least one byte deliver the whole stream |
| `Rio.RioReader.constructor` | Lab5/csapp.c:837-842 | nothing is buffered, so all of the descriptor's bytes are still to be delivered |
| `Rio.RioReader.Refill` | Lab5/csapp.c:809-820 | refilling changes nothing about the bytes to be delivered through any number of interruptions, and ends with a filled buffer, at the end of the data, or with -1 exactly on an error other than an interruption |
| `Rio.RioReader.TakeOut` | Lab5/csapp.c:822-829 | the first bytes of the buffer are moved to the caller, the rest stays |
| `Rio.RioReader.RioRead` | Lab5/csapp.c:805-830 | the next bytes of the stream, at least one unless none was asked for or none is left, taken off it; other parts of the caller's buffer unchanged |
| `Rio.RioReader.RioReadnb` | Lab5/csapp.c:849-865 | the next n bytes, or all there are, however read() splits them; -1 if and only if read() gives an error other than an interruption, and then at most a prefix is lost |
| `Rio.RioReader.RioReadlineb` | Lab5/csapp.c:871-893 | exactly the bytes up to and with the first newline, the end, or maxlen-1 bytes, with a zero byte behind them; -1 if and only if read() gives an error other than an interruption |
| `Rio.RioReader.Session` | Lab5/csapp.c:848-893 | what any mix of reads delivers depends on the byte stream alone, not on chunks or interruptions |
| `Rio.RioReadn` | Lab5/csapp.c:749-769 | n bytes or all there are, however read() splits them; -1 if and only if read() gives an error other than an interruption |
| `Rio.RioWriten` | Lab5/csapp.c:775-792 | all n bytes are written in order; -1, with a prefix of them written, if and only if write() gives an error other than an interruption |
| `Sio.LtoaParse` | Lab2/sio.h:29-48 | the string reads back to the number, has a sign exactly for a negative one, and no leading zero but for zero itself, in every base from 2 to 36 |
| `Sio.LtoaDigits` | Lab2/sio.h:38-40 | behind the sign there are only digits of the base, 0 to 9 and small letters from a on |
| `Sio.HighestDigit` | Lab2/sio.h:38-40 | the last digit the loop writes is not zero unless the number is |
| `Sio.ReversedDigitsParse` | Lab2/sio.h:38-47 | the digits written lowest first read, when reversed, as the number |
| `Sio.DigitsLength` | Lab2/sio.h:38-40 | a number has at most k digits if and only if it is less than the k-th power of the base |
| `Sio.LtoaLength` | Lab2/sio.h:29-48 | the string has at most k characters if and only if the number is within the powers of the base, the sign counted |
| `Sio.IntFits` | Lab2/sio.h:55-61 | every 32-bit value in base 10 fits in 12 bytes with sign and terminator |
| `Sio.PutlFits` | Lab2/sio.h:55-61 | the 16 bytes of sio_putl are enough if and only if the number lies between -10^14 and 10^15 |
| `Sio.PutlOverflows` | Lab2/sio.h:55-61 | 10^15 and -10^14 each take 17 bytes |
| `Sio.SioStrlen` | Lab2/sio.h:6-15 | the length of the string in the buffer |
| `Sio.SioReverse` | Lab2/sio.h:17-27 | the two-index swap loop leaves the reversed string, and nothing else changes |
| `Sio.WriteDigits` | Lab2/sio.h:38-40 | the digit loop writes the digits, lowest first |
| `Sio.SioLtoa` | Lab2/sio.h:29-48 | the buffer holds, with its terminator, a string of digits of the base behind the sign that reads back to the number |

## Left out

Scheduler:

- Printing, the floating-point averages of the summary, input-line parsing and the reading of
  files: library calls. The quotients are not modelled, the counters they are made of are.
- `rr_add_to_ready` and `rr_add_arrivals_to_ready`: never called, `rr_run` uses the FCFS versions.
- The optimality of SJF: the code does not keep the order it would rest on.
- Workloads with B, C or M equal to 0: the code would divide by zero, never terminate the
  process, or wrap a burst counter.
- The field `quantum` of a process and `nextInReadySuspendedQueue`: written at most once, never
  read.
- SchedulerTotals.CountersFit: one direction only; a workload that does not fit may still run
  without a wrap-around.
- The finished list is a sequence of snapshots instead of a preallocated array; the early returns
  of the insertion routines are joined into one front and one behind case.

File tree:

- `ls`, `pwd`, `quit`, messages, and file names: the text of a file is a string that is passed on.
- The fixed sizes of names and lines, and overflows of the buffers.
- What happens after a null pointer has been followed: the methods end there with a flag, and in
  a run no tree is left.
- `free`: a removed node and what is below it (a file can be given children, and `rm` removes it
  all the same) is no longer in the tree; its memory is not modelled.
- The return value of `reload` after the last line and of `save`, which the code leaves undefined,
  is `None` or absent.

Shell:

- Command-line parsing, `execve`, process groups, option handling, output and `sigtstp_handler`,
  which changes no state of the shell; what a signal does to a child is a change the kernel may
  make at any time.
- `sigint_handler` reads the foreground process in one step; when there is one it changes nothing
  of the shell's state.
- `do_bgfg` with a missing, zero or negative argument, which changes nothing.
- Whether `fg` and `waitfg` return in the end when a job stays in the foreground: this is up to
  the child.

Robust I/O and number printing:

- The error-checking wrappers, the conversions between `int`, `size_t` and `ssize_t`, a `write()`
  that returns 0, and `rio_readlineb` with `maxlen` 0, which writes outside its buffer.
- Rio.RioReader.RioReadnb: after an error the bytes already taken off the stream are lost to the
  caller, as in the code; the contract says only that a prefix of the stream is gone.
- Sio.SioLtoa: not for the smallest `long`, whose negation overflows.

Not modelled at all: the cat programs (`HW1`), the kernel modules (`Lab4`, `HW6`), the proxy and
the tiny web server (`Lab5`), `HW4`, sockets and CGI. They are network or kernel plumbing, easy
loops, or repetitions of the code above.
