/**
 The shell of Lab2/tsh.c, its SIGCHLD handler and the kernel, as interleaved steps.

 The main line is a program counter. While the handler is active the main line stands
 still, but children go on changing state. The handler can be entered whenever SIGCHLD is
 not blocked, and between any two accesses to the job table by the main line.
 */
module Shell {
  import opened Seqs
  import opened Jobs

  // A forked child that has not been reaped, as the kernel knows it.
  datatype Child = Running | Stopped(reported: bool) | Zombie(signaled: bool)

  // What waitpid reports about a child.
  datatype Report = WasSignaled | WasStopped | HasExited

  datatype Pc =
    | Idle                                          // eval may start
    | Masked(bg: bool)                              // SIGCHLD blocked, about to fork
    | Forked(pid: int, bg: bool)                    // about to add the job
    | Added(pid: int, bg: bool)                     // about to unblock SIGCHLD
    | Unmasked(pid: int, bg: bool)                  // about to report or to wait
    | Scanning(pid: int, i: nat)                    // waitfg(pid): fgpid is at slot i
    | Hit(pid: int, i: nat)                         // it saw FG there, about to read the pid
    | Seeking(byJid: bool, id: int, fg: bool, i: nat) // do_bgfg: the lookup is at slot i
    | Holding(slot: nat, fg: bool)                  // it has a pointer to the job, about to kill
    | Resumed(slot: nat, fg: bool)                  // SIGCONT sent, about to set the state
    | Fetched(slot: nat)                            // state set to FG, about to read the pid
    | Exited

  datatype Handler = Inactive | Polling | Reaped(pid: int, report: Report)

  datatype Sys = Sys(
    jobs: Jobs,
    children: map<int, Child>,
    pc: Pc,
    handler: Handler,
    lost: set<int>,    // unreaped children for which addjob found no slot
    wrapped: bool)     // nextjid has been set back to 1

  const START := Sys(NoJobs(), map[], Idle, Inactive, {}, false)

  predicate Blocked(s: Sys) {
    s.handler != Inactive || s.pc.Masked? || s.pc.Forked? || s.pc.Added? || s.pc.Exited?
  }

  // Who moves next, with everything the step does not determine itself.
  datatype Event =
    // the main line
    | StartEval(bg: bool)
    | Fork(pid: int)
    | ForkFailure
    | Add(cmdline: string)
    | Unblock
    | EndEval
    | Scan
    | Compare
    | StartBgFg(byJid: bool, id: int, fg: bool)
    | Seek
    | Kill(ok: bool)
    | Set
    | Fetch
    | Quit
    // the SIGCHLD handler
    | Enter
    | Poll(child: Option<int>)
    | React
    // the environment
    | Change(pid: int, to: Child)
    | Interrupt

  predicate MainLine(e: Event) {
    !(e.Enter? || e.Poll? || e.React? || e.Change? || e.Interrupt?)
  }

  // ----- What each step does

  predicate Enabled(s: Sys, e: Event) {
    && !s.pc.Exited?
    && (MainLine(e) ==> s.handler == Inactive)
    && match e
       case StartEval(bg) => s.pc == Idle
       case Fork(pid) => s.pc.Masked? && pid >= 1 && pid !in s.children
       case ForkFailure => s.pc.Masked?
       case Add(_) => s.pc.Forked?
       case Unblock => s.pc.Added?
       case EndEval => s.pc.Unmasked?
       case Scan => s.pc.Scanning?
       case Compare => s.pc.Hit? && s.pc.i < MAXJOBS
       case StartBgFg(_, id, _) => s.pc == Idle && id >= 1
       case Seek => s.pc.Seeking?
       case Kill(_) => s.pc.Holding?
       case Set => s.pc.Resumed? && s.pc.slot < MAXJOBS
       case Fetch => s.pc.Fetched? && s.pc.slot < MAXJOBS
       case Quit => s.pc == Idle
       case Enter => !Blocked(s)
       case Poll(child) =>
         && s.handler == Polling
         && (child.Some? ==>
               && child.value in s.children && !s.children[child.value].Running?
               && s.children[child.value] != Stopped(true))
       case React => s.handler.Reaped?
       case Change(child, to) => child in s.children && !s.children[child].Zombie?
       // ctrl-c with no foreground job ends the shell.
       case Interrupt => FgPid(s.jobs.table) == 0
  }

  // addjob, in eval.
  function DoAdd(s: Sys, cmdline: string): Sys
    requires s.pc.Forked?
  {
    var result := AddJob(s.jobs, s.pc.pid, if s.pc.bg then BG else FG, cmdline);
    s.(jobs := result.0,
       pc := Added(s.pc.pid, s.pc.bg),
       lost := if result.1 then s.lost else s.lost + {s.pc.pid},
       wrapped := s.wrapped || (result.1 && s.jobs.nextjid + 1 > MAXJOBS))
  }

  // One turn of the loop of fgpid, inside the loop of waitfg.
  function DoScan(s: Sys): Sys
    requires s.pc.Scanning?
  {
    s.(pc := if s.pc.i >= MAXJOBS then (if s.pc.pid == 0 then Scanning(0, 0) else Idle)
             else if s.jobs.table[s.pc.i].state == FG then Hit(s.pc.pid, s.pc.i)
             else Scanning(s.pc.pid, s.pc.i + 1))
  }

  // fgpid has read the process number of the slot, and waitfg compares it with its own.
  function DoCompare(s: Sys): Sys
    requires s.pc.Hit? && s.pc.i < MAXJOBS
  {
    s.(pc := if s.jobs.table[s.pc.i].pid == s.pc.pid then Scanning(s.pc.pid, 0) else Idle)
  }

  // One turn of the loop of getjobjid or getjobpid, in do_bgfg.
  function DoSeek(s: Sys): Sys
    requires s.pc.Seeking?
  {
    s.(pc := if s.pc.i >= MAXJOBS then Idle
             else if (if s.pc.byJid then s.jobs.table[s.pc.i].jid else s.jobs.table[s.pc.i].pid) == s.pc.id
             then Holding(s.pc.i, s.pc.fg)
             else Seeking(s.pc.byJid, s.pc.id, s.pc.fg, s.pc.i + 1))
  }

  // waitpid: nothing to report, or one child.
  function DoPoll(s: Sys, child: Option<int>): Sys
    requires Enabled(s, Poll(child))
  {
    if child.None? then s.(handler := Inactive)
    else
      match s.children[child.value]
      case Stopped(_) =>
        s.(children := s.children[child.value := Stopped(true)], handler := Reaped(child.value, WasStopped))
      case Zombie(signaled) =>
        s.(children := s.children - {child.value},
           handler := Reaped(child.value, if signaled then WasSignaled else HasExited))
      case Running => s
  }

  // The reaction to a report. Without a job it goes through a null pointer, to print or to
  // set the state.
  function DoReact(s: Sys): Sys
    requires s.handler.Reaped?
  {
    var pid := s.handler.pid;
    var found := GetJobPid(s.jobs.table, pid);
    if s.handler.report == WasStopped then
      if found.None? then s.(pc := Exited)
      else s.(jobs := SetState(s.jobs, found.value, ST), handler := Polling)
    else if s.handler.report == WasSignaled && found.None? then s.(pc := Exited)
    else s.(jobs := DeleteJob(s.jobs, pid).0, handler := Polling, lost := s.lost - {pid})
  }

  function Do(s: Sys, e: Event): Sys
    requires Enabled(s, e)
  {
    match e
    case StartEval(bg) => s.(pc := Masked(bg))
    case Fork(pid) => s.(children := s.children[pid := Running], pc := Forked(pid, s.pc.bg))
    case ForkFailure => s.(pc := Exited)
    case Add(cmdline) => DoAdd(s, cmdline)
    case Unblock => s.(pc := Unmasked(s.pc.pid, s.pc.bg))
    case EndEval => s.(pc := if s.pc.bg then Idle else Scanning(s.pc.pid, 0))
    case Scan => DoScan(s)
    case Compare => DoCompare(s)
    case StartBgFg(byJid, id, fg) => s.(pc := Seeking(byJid, id, fg, 0))
    case Seek => DoSeek(s)
    case Kill(ok) => s.(pc := if ok then Resumed(s.pc.slot, s.pc.fg) else Idle)
    case Set =>
      s.(jobs := SetState(s.jobs, s.pc.slot, if s.pc.fg then FG else BG),
         pc := if s.pc.fg then Fetched(s.pc.slot) else Idle)
    case Fetch => s.(pc := Scanning(s.jobs.table[s.pc.slot].pid, 0))
    case Quit => s.(pc := Exited)
    case Enter => s.(handler := Polling)
    case Poll(child) => DoPoll(s, child)
    case React => DoReact(s)
    case Change(child, to) => s.(children := s.children[child := to])
    case Interrupt => s.(pc := Exited)
  }

  // The states of an interleaving, from the start.
  predicate IsRun(states: seq<Sys>, events: seq<Event>) {
    && |states| == |events| + 1 && states[0] == START
    && forall k :: 0 <= k < |events| ==> Enabled(states[k], events[k]) && states[k + 1] == Do(states[k], events[k])
  }

  // ----- Fork and reap

  // A child that is forked but not yet in the table.
  function Pending(s: Sys): set<int> {
    if s.pc.Forked? then {s.pc.pid} else {}
  }

  // A child that is reaped but still in the table.
  function Leaving(s: Sys): set<int> {
    if s.handler.Reaped? && s.handler.report != WasStopped then {s.handler.pid} else {}
  }

  ghost predicate Tracked(s: Sys) {
    var pids := Pids(s.jobs.table);
    && OneSlotEach(s.jobs.table) && s.jobs.nextjid >= 1
    && (forall p :: p in s.children ==> p >= 1)
    && pids !! s.lost && pids !! Pending(s) && s.lost !! Pending(s)
    && s.children.Keys !! Leaving(s)
    && pids + s.lost + Pending(s) == s.children.Keys + Leaving(s)
    && (s.handler.Reaped? ==> s.handler.pid >= 1)
    && (s.handler.Reaped? && s.handler.report == WasStopped ==> s.handler.pid in s.children)
    && (s.handler != Inactive ==> !s.pc.Masked? && !s.pc.Forked? && !s.pc.Added?)
    && (s.pc.Forked? ==> s.pc.pid in s.children)
  }

  lemma SetStatePids(jobs: Jobs, slot: nat, state: JobState)
    requires slot < MAXJOBS && OneSlotEach(jobs.table)
    ensures OneSlotEach(SetState(jobs, slot, state).table)
    ensures Pids(SetState(jobs, slot, state).table) == Pids(jobs.table)
  {
    var t := SetState(jobs, slot, state).table;
    assert forall i :: 0 <= i < MAXJOBS ==> t[i].pid == jobs.table[i].pid;
  }

  lemma AddTracked(s: Sys, cmdline: string)
    requires Tracked(s) && s.pc.Forked?
    ensures Tracked(DoAdd(s, cmdline))
  {
    AddJobPids(s.jobs, s.pc.pid, if s.pc.bg then BG else FG, cmdline);
    hide Pids, OneSlotEach, AddJob;
  }

  lemma PollTracked(s: Sys, child: Option<int>)
    requires Tracked(s) && Enabled(s, Poll(child))
    ensures Tracked(DoPoll(s, child))
  {
    hide Pids, OneSlotEach;
  }

  lemma StopTracked(s: Sys)
    requires Tracked(s) && !s.pc.Exited? && s.handler.Reaped? && s.handler.report == WasStopped
    ensures Tracked(DoReact(s)) || DoReact(s).pc.Exited?
  {
    var found := GetJobPid(s.jobs.table, s.handler.pid);
    if found.Some? {
      SetStatePids(s.jobs, found.value, ST);
    }
    hide Pids, OneSlotEach, SetState, PidSlot, DeleteJob;
  }

  lemma EndTracked(s: Sys)
    requires Tracked(s) && !s.pc.Exited? && s.handler.Reaped? && s.handler.report != WasStopped
    ensures Tracked(DoReact(s)) || DoReact(s).pc.Exited?
  {
    DeleteJobPids(s.jobs, s.handler.pid);
    hide Pids, OneSlotEach, PidSlot, DeleteJob, GetJobPid, SetState;
  }

  lemma NextTracked(s: Sys, e: Event)
    requires Tracked(s) && Enabled(s, e)
    ensures Tracked(Do(s, e)) || Do(s, e).pc.Exited?
  {
    match e
    case Add(cmdline) => AddTracked(s, cmdline);
    case Poll(child) => PollTracked(s, child);
    case React => if s.handler.report == WasStopped { StopTracked(s); } else { EndTracked(s); }
    case Set => SetStatePids(s.jobs, s.pc.slot, if s.pc.fg then FG else BG);
    case _ =>
  }

  // ----- The foreground

  ghost predicate NoForeground(t: Table) {
    forall i :: 0 <= i < MAXJOBS ==> t[i].state != FG
  }

  ghost predicate OneForeground(t: Table) {
    forall i, j :: 0 <= i < j < MAXJOBS && t[i].state == FG ==> t[j].state != FG
  }

  ghost predicate ForegroundIs(t: Table, pid: int) {
    forall i :: 0 <= i < MAXJOBS && t[i].state == FG ==> t[i].pid == pid
  }

  ghost predicate ForegroundAt(t: Table, slot: nat) {
    forall i :: 0 <= i < MAXJOBS && t[i].state == FG ==> i == slot
  }

  // At most one job is in the foreground, and which one it can be.
  ghost predicate Foreground(s: Sys) {
    var t := s.jobs.table;
    && OneForeground(t)
    && match s.pc
       case Idle => NoForeground(t)
       case Masked(_) => NoForeground(t)
       case Forked(_, _) => NoForeground(t)
       case Added(pid, bg) => if bg then NoForeground(t) else ForegroundIs(t, pid)
       case Unmasked(pid, bg) => if bg then NoForeground(t) else ForegroundIs(t, pid)
       case Scanning(pid, i) => ForegroundIs(t, pid) && forall j :: 0 <= j < i && j < MAXJOBS ==> t[j].state != FG
       case Hit(pid, i) => ForegroundIs(t, pid) && ForegroundAt(t, i)
       case Seeking(_, _, _, _) => NoForeground(t)
       case Holding(_, _) => NoForeground(t)
       case Resumed(_, _) => NoForeground(t)
       case Fetched(slot) => ForegroundAt(t, slot)
       case Exited => true
  }

  // No job comes to the foreground.
  ghost predicate Recedes(t: Table, t': Table) {
    forall i :: 0 <= i < MAXJOBS && t'[i].state == FG ==> t'[i] == t[i]
  }

  lemma RecedesKeeps(s: Sys, s': Sys)
    requires Foreground(s) && s'.pc == s.pc && Recedes(s.jobs.table, s'.jobs.table)
    ensures Foreground(s')
  {
    var t, t' := s.jobs.table, s'.jobs.table;
    assert forall i :: 0 <= i < MAXJOBS && t'[i].state == FG ==> t'[i] == t[i] && t[i].state == FG;
  }

  lemma ReactForeground(s: Sys)
    requires Foreground(s) && s.handler.Reaped?
    ensures Foreground(DoReact(s))
  {
    if !DoReact(s).pc.Exited? {
      RecedesKeeps(s, DoReact(s));
    } else {
      RecedesKeeps(s, DoReact(s).(pc := s.pc));
    }
  }

  lemma NextForeground(s: Sys, e: Event)
    requires Foreground(s) && Enabled(s, e)
    ensures Foreground(Do(s, e))
  {
    match e
    case Add(cmdline) => AddForeground(s, cmdline);
    case Scan => ScanForeground(s);
    case React => ReactForeground(s);
    case Poll(child) => RecedesKeeps(s, DoPoll(s, child));
    case Set => SetForeground(s);
    case _ =>
  }

  lemma AddForeground(s: Sys, cmdline: string)
    requires Foreground(s) && s.pc.Forked?
    ensures Foreground(DoAdd(s, cmdline))
  {
  }

  lemma ScanForeground(s: Sys)
    requires Foreground(s) && s.pc.Scanning?
    ensures Foreground(DoScan(s))
  {
  }

  lemma SetForeground(s: Sys)
    requires Foreground(s) && Enabled(s, Set)
    ensures Foreground(Do(s, Set))
  {
  }

  // ----- Job numbers

  // Until the counter is set back to 1, numbers are fresh.
  ghost predicate Numbered(s: Sys) {
    !s.wrapped ==> FreshNumbers(s.jobs)
  }

  lemma SetStateNumbers(jobs: Jobs, slot: nat, state: JobState)
    requires slot < MAXJOBS && FreshNumbers(jobs)
    ensures FreshNumbers(SetState(jobs, slot, state))
  {
    var t, t' := jobs.table, SetState(jobs, slot, state).table;
    assert forall i :: 0 <= i < MAXJOBS ==> t'[i].jid == t[i].jid;
    SameMaxJid(t, t');
  }

  lemma {:induction false} SameMaxJid(t: seq<Job>, t': seq<Job>)
    requires |t| == |t'| && forall i :: 0 <= i < |t| ==> t'[i].jid == t[i].jid
    ensures MaxJid(t) == MaxJid(t')
  {
    if t != [] {
      SameMaxJid(t[..|t| - 1], t'[..|t| - 1]);
    }
  }

  lemma NextNumbered(s: Sys, e: Event)
    requires Tracked(s) && Numbered(s) && Enabled(s, e)
    ensures Numbered(Do(s, e))
  {
    hide FreshNumbers, Pids, MaxJid, SetState;
    match e
    case Add(cmdline) => AddNumbered(s, cmdline);
    case React => ReactNumbered(s);
    case Set => if !s.wrapped { SetStateNumbers(s.jobs, s.pc.slot, if s.pc.fg then FG else BG); }
    case _ =>
  }

  lemma AddNumbered(s: Sys, cmdline: string)
    requires Tracked(s) && Numbered(s) && s.pc.Forked?
    ensures Numbered(DoAdd(s, cmdline))
  {
    hide FreshNumbers, Pids;
    var state := if s.pc.bg then BG else FG;
    AddJobPids(s.jobs, s.pc.pid, state, cmdline);
    if !s.wrapped && AddJob(s.jobs, s.pc.pid, state, cmdline).1 {
      AddJobNumbers(s.jobs, s.pc.pid, state, cmdline);
    }
  }

  lemma ReactNumbered(s: Sys)
    requires Tracked(s) && Numbered(s) && s.handler.Reaped?
    ensures Numbered(DoReact(s))
  {
    hide FreshNumbers, Pids, MaxJid, SetState, DeleteJob;
    if !s.wrapped {
      DeleteJobNumbers(s.jobs, s.handler.pid);
      var found := GetJobPid(s.jobs.table, s.handler.pid);
      if found.Some? {
        SetStateNumbers(s.jobs, found.value, ST);
      }
    }
  }

  // ----- Every state of every interleaving

  ghost predicate Sound(s: Sys) {
    s.pc.Exited? || (Tracked(s) && Foreground(s) && Numbered(s))
  }

  lemma StartSound()
    ensures Sound(START)
  {
    assert Pids(START.jobs.table) == {};
    MaxJidIs(START.jobs.table, 0, 0);
  }

  lemma {:induction false} RunSound(states: seq<Sys>, events: seq<Event>, k: nat)
    requires IsRun(states, events) && k <= |events|
    ensures Sound(states[k])
  {
    hide Tracked, Foreground, Numbered, Do;
    if k == 0 {
      StartSound();
    } else {
      RunSound(states, events, k - 1);
      var s, e := states[k - 1], events[k - 1];
      assert Enabled(s, e) && states[k] == Do(s, e);
      NextTracked(s, e);
      NextForeground(s, e);
      NextNumbered(s, e);
    }
  }

  // The fork and reap protocol. Whenever SIGCHLD can be delivered, the table holds exactly the
  // forked and unreaped children, each in one slot, but for those that found the table full.
  // The handler finds the job of every child that waitpid reports, again but for those.
  lemma ForkReap(states: seq<Sys>, events: seq<Event>, k: nat)
    requires IsRun(states, events) && k <= |events| && !states[k].pc.Exited?
    ensures var s := states[k];
      && OneSlotEach(s.jobs.table)
      && (!Blocked(s) ==> Pids(s.jobs.table) == s.children.Keys - s.lost)
      && (s.handler.Reaped? ==> (GetJobPid(s.jobs.table, s.handler.pid).Some? <==> s.handler.pid !in s.lost))
  {
    RunSound(states, events, k);
    var s := states[k];
    if s.handler.Reaped? {
      PidsSlot(s.jobs.table, s.handler.pid);
    }
  }

  // A job is lost only where addjob meets a table without a free slot.
  ghost predicate Overflow(s: Sys, e: Event) {
    e.Add? && forall i :: 0 <= i < MAXJOBS ==> s.jobs.table[i].pid != 0
  }

  lemma {:induction false} NothingLost(states: seq<Sys>, events: seq<Event>, k: nat)
    requires IsRun(states, events) && k <= |events|
    requires forall j :: 0 <= j < k ==> !Overflow(states[j], events[j])
    ensures states[k].lost == {}
  {
    if k > 0 {
      NothingLost(states, events, k - 1);
      RunSound(states, events, k - 1);
      var s, e := states[k - 1], events[k - 1];
      assert Enabled(s, e) && states[k] == Do(s, e);
      if e.Add? {
        AddJobPids(s.jobs, s.pc.pid, if s.pc.bg then BG else FG, e.cmdline);
      }
    }
  }

  // At most one job is in the foreground at any time, and none when a command starts.
  lemma ForegroundSafety(states: seq<Sys>, events: seq<Event>, k: nat)
    requires IsRun(states, events) && k <= |events| && !states[k].pc.Exited?
    ensures OneForeground(states[k].jobs.table)
    ensures states[k].pc == Idle ==> NoForeground(states[k].jobs.table)
  {
    RunSound(states, events, k);
  }

  // Until the counter starts again, the number of a process leads back to its slot.
  lemma NumberSafety(states: seq<Sys>, events: seq<Event>, k: nat)
    requires IsRun(states, events) && k <= |events| && !states[k].pc.Exited? && !states[k].wrapped
    ensures var t := states[k].jobs.table;
      && states[k].jobs.nextjid == MaxJid(t) + 1 && DistinctJids(t)
      && forall pid :: pid in Pids(t) ==> LookupAgrees(t, pid)
  {
    RunSound(states, events, k);
    LookupsAgree(states[k].jobs.table);
  }

  // addjob gives out a number that a job in the table has.
  ghost predicate Collision(s: Sys, e: Event) {
    && e.Add? && (exists i :: 0 <= i < MAXJOBS && s.jobs.table[i].pid == 0)
    && exists i :: 0 <= i < MAXJOBS && s.jobs.table[i].jid == s.jobs.nextjid
  }

  lemma NextDistinct(s: Sys, e: Event)
    requires Tracked(s) && DistinctJids(s.jobs.table) && Enabled(s, e)
    ensures DistinctJids(Do(s, e).jobs.table) <==> !Collision(s, e)
  {
    match e
    case Add(cmdline) =>
      var state := if s.pc.bg then BG else FG;
      AddJobPids(s.jobs, s.pc.pid, state, cmdline);
      if AddJob(s.jobs, s.pc.pid, state, cmdline).1 {
        AddKeepsDistinct(s.jobs, s.pc.pid, state, cmdline);
      }
    case React =>
      DeleteKeepsDistinct(s.jobs, s.handler.pid);
    case _ =>
  }

  // Over a whole interleaving, with any number of times that the counter starts again: the
  // numbers are distinct throughout exactly if addjob never gives out one that is in use.
  lemma {:induction false} NumbersStayDistinct(states: seq<Sys>, events: seq<Event>, k: nat)
    requires IsRun(states, events) && k <= |events|
    ensures (forall j :: 0 <= j <= k ==> DistinctJids(states[j].jobs.table)) <==>
      forall j :: 0 <= j < k ==> !Collision(states[j], events[j])
  {
    hide DistinctJids, Collision, Do, Tracked, Foreground, Numbered;
    if k == 0 {
      StartDistinct();
    } else {
      NumbersStayDistinct(states, events, k - 1);
      RunSound(states, events, k - 1);
      var s, e := states[k - 1], events[k - 1];
      assert Enabled(s, e) && states[k] == Do(s, e);
      if DistinctJids(s.jobs.table) {
        NextDistinct(s, e);
      }
    }
  }

  lemma StartDistinct()
    ensures DistinctJids(START.jobs.table)
  {
  }

  // So if addjob always found a free slot, the handler always finds its job.
  lemma HandlerFindsJob(states: seq<Sys>, events: seq<Event>, k: nat)
    requires IsRun(states, events) && k <= |events| && !states[k].pc.Exited?
    requires forall j :: 0 <= j < k ==> !Overflow(states[j], events[j])
    ensures var s := states[k];
      && (!Blocked(s) ==> Pids(s.jobs.table) == s.children.Keys)
      && (s.handler.Reaped? ==> GetJobPid(s.jobs.table, s.handler.pid).Some? && !Do(s, React).pc.Exited?)
  {
    ForkReap(states, events, k);
    NothingLost(states, events, k);
    RunSound(states, events, k);
  }

  // ----- fg on a job that ends meanwhile

  // The process number that do_bgfg hands to waitfg is read after the state has been set. If
  // the handler has cleared the slot by then, it is 0, and 0 is also what fgpid returns when
  // nothing is in the foreground.
  ghost predicate Hanging(s: Sys) {
    match s.pc
    case Scanning(pid, _) => pid == 0
    case Hit(pid, i) => pid == 0 && i < MAXJOBS && s.jobs.table[i].pid == 0
    case Exited => true
    case _ => false
  }

  lemma NextHanging(s: Sys, e: Event)
    requires Hanging(s) && Foreground(s) && Enabled(s, e)
    ensures Hanging(Do(s, e))
  {
  }

  // waitfg(0) never returns to the prompt, whatever happens.
  lemma {:induction false} HangsForever(states: seq<Sys>, events: seq<Event>, k: nat, j: nat)
    requires IsRun(states, events) && k <= j <= |events|
    requires states[k].pc.Scanning? && states[k].pc.pid == 0
    ensures Hanging(states[j])
    decreases j
  {
    hide Tracked, Foreground, Numbered, Do;
    if k < j {
      HangsForever(states, events, k, j - 1);
      RunSound(states, events, j - 1);
      var s, e := states[j - 1], events[j - 1];
      assert Enabled(s, e) && states[j] == Do(s, e);
      NextHanging(s, e);
    }
  }

  // The main line goes on by itself, up to n turns of waitfg.
  function Turns(s: Sys, n: nat): Sys
    decreases n
  {
    if n == 0 then s
    else if s.pc.Scanning? then Turns(DoScan(s), n - 1)
    else if s.pc.Hit? && s.pc.i < MAXJOBS then Turns(DoCompare(s), n - 1)
    else s
  }

  // fgpid has passed over the slots before i.
  ghost predicate Walking(s: Sys) {
    && s.pc.Scanning? && s.pc.i <= MAXJOBS
    && forall j :: 0 <= j < s.pc.i ==> s.jobs.table[j].state != FG
  }

  // fgpid is on its way to the first slot in the foreground, or there.
  ghost predicate OnItsWay(s: Sys) {
    Walking(s) || (s.pc.Hit? && s.pc.i < MAXJOBS && s.pc.i == FgSlot(s.jobs.table))
  }

  lemma TurnOnWay(s: Sys)
    requires OnItsWay(s)
    ensures var r := Turns(s, 1);
      r.jobs == s.jobs && (r.pc == Idle || (OnItsWay(r) && r.pc.pid == s.pc.pid))
    ensures Turns(s, 1).pc == Idle ==> FgPid(s.jobs.table) != s.pc.pid
  {
  }

  lemma TurnsNext(s: Sys, n: nat)
    ensures Turns(s, n) == if n == 0 then s else Turns(Turns(s, 1), n - 1)
  {
  }

  lemma {:induction false} TurnsGoOn(s: Sys, n: nat)
    requires OnItsWay(s) && FgPid(s.jobs.table) == s.pc.pid
    ensures OnItsWay(Turns(s, n))
    decreases n
  {
    hide Turns, OnItsWay;
    TurnsNext(s, n);
    if n > 0 {
      TurnOnWay(s);
      TurnsGoOn(Turns(s, 1), n - 1);
    }
  }

  lemma {:induction false} TurnsEnd(s: Sys) returns (n: nat)
    requires Walking(s) && FgPid(s.jobs.table) != s.pc.pid
    ensures Turns(s, n).pc == Idle
    decreases MAXJOBS - s.pc.i
  {
    var r := DoScan(s);
    if r.pc.Scanning? {
      var m := TurnsEnd(r);
      n := m + 1;
    } else if r.pc.Hit? {
      n := 2;
      TurnsNext(s, 2);
    } else {
      n := 1;
    }
  }

  // On a table that no longer changes, waitfg(pid) returns exactly if pid is not what fgpid
  // finds there, which is 0 if it finds nothing.
  lemma WaitReturns(s: Sys)
    requires Walking(s)
    ensures (exists n: nat :: Turns(s, n).pc == Idle) <==> FgPid(s.jobs.table) != s.pc.pid
  {
    var t := s.jobs.table;
    if FgPid(t) != s.pc.pid {
      var n := TurnsEnd(s);
    }
    forall n: nat ensures FgPid(t) == s.pc.pid ==> Turns(s, n).pc != Idle {
      if FgPid(t) == s.pc.pid {
        TurnsGoOn(s, n);
      }
    }
  }

  // So once every slot in the foreground has been cleared, which includes a table without any,
  // it returns exactly if pid is not 0.
  lemma WaitForCleared(s: Sys)
    requires Walking(s) && forall i :: 0 <= i < MAXJOBS && s.jobs.table[i].state == FG ==> s.jobs.table[i].pid == 0
    ensures (exists n: nat :: Turns(s, n).pc == Idle) <==> s.pc.pid != 0
  {
    WaitReturns(s);
  }

  // A background job is brought to the foreground and ends before its number is read.
  const RACE: seq<Event> := [
    StartEval(true), Fork(7), Add("job"), Unblock, EndEval,
    StartBgFg(false, 7, true), Seek, Kill(true),
    Change(7, Zombie(false)), Enter, Poll(Some(7)), React, Poll(None),
    Set, Fetch]

  lemma Play(states: seq<Sys>, events: seq<Event>, e: Event) returns (states': seq<Sys>, events': seq<Event>)
    requires IsRun(states, events) && Enabled(states[|events|], e)
    ensures events' == events + [e] && IsRun(states', events')
    ensures states'[|events'|] == Do(states[|events|], e)
  {
    states', events' := states + [Do(states[|events|], e)], events + [e];
  }

  // A background job of process 7 in the first slot, and no other.
  function JobSeven(): Jobs {
    Jobs(NoJobs().table[0 := Job(7, 1, BG, "job")], 2)
  }

  lemma JobSevenFacts()
    ensures AddJob(NoJobs(), 7, BG, "job") == (JobSeven(), true) && NoJobs().nextjid == 1
    ensures GetJobPid(JobSeven().table, 7) == Some(0)
    ensures DeleteJob(JobSeven(), 7) == (NoJobs(), true)
  {
    PidSlotIs(NoJobs().table, 0, 0);
    PidSlotIs(JobSeven().table, 7, 0);
    assert JobSeven().table[0 := CLEARED] == NoJobs().table;
    MaxJidIs(NoJobs().table, 0, 0);
  }

  lemma AddSeven() returns (states: seq<Sys>, events: seq<Event>)
    ensures IsRun(states, events) && events == [StartEval(true), Fork(7), Add("job"), Unblock, EndEval]
    ensures states[|events|] == Sys(JobSeven(), map[7 := Running], Idle, Inactive, {}, false)
  {
    hide AddJob, DeleteJob, PidSlot, NoJobs, IsRun;
    JobSevenFacts();
    states, events := Play([START], [], StartEval(true));
    states, events := Play(states, events, Fork(7));
    assert START.children[7 := Running] == map[7 := Running];
    states, events := Play(states, events, Add("job"));
    states, events := Play(states, events, Unblock);
    states, events := Play(states, events, EndEval);
  }

  lemma ResumeSeven(states: seq<Sys>, events: seq<Event>) returns (states': seq<Sys>, events': seq<Event>)
    requires IsRun(states, events)
    requires states[|events|] == Sys(JobSeven(), map[7 := Running], Idle, Inactive, {}, false)
    ensures IsRun(states', events') && events' == events + [StartBgFg(false, 7, true), Seek, Kill(true)]
    ensures states'[|events'|] == Sys(JobSeven(), map[7 := Running], Resumed(0, true), Inactive, {}, false)
  {
    hide AddJob, DeleteJob, PidSlot, IsRun;
    states', events' := Play(states, events, StartBgFg(false, 7, true));
    states', events' := Play(states', events', Seek);
    states', events' := Play(states', events', Kill(true));
  }

  lemma EndSeven(states: seq<Sys>, events: seq<Event>) returns (states': seq<Sys>, events': seq<Event>)
    requires IsRun(states, events)
    requires states[|events|] == Sys(JobSeven(), map[7 := Running], Resumed(0, true), Inactive, {}, false)
    ensures IsRun(states', events') && events' == events + [Change(7, Zombie(false)), Enter, Poll(Some(7))]
    ensures states'[|events'|] == Sys(JobSeven(), map[], Resumed(0, true), Reaped(7, HasExited), {}, false)
  {
    hide AddJob, DeleteJob, PidSlot, IsRun;
    states', events' := Play(states, events, Change(7, Zombie(false)));
    states', events' := Play(states', events', Enter);
    states', events' := Play(states', events', Poll(Some(7)));
    assert map[7 := Running][7 := Zombie(false)] - {7} == map[];
  }

  lemma DeleteSeven(states: seq<Sys>, events: seq<Event>) returns (states': seq<Sys>, events': seq<Event>)
    requires IsRun(states, events)
    requires states[|events|] == Sys(JobSeven(), map[], Resumed(0, true), Reaped(7, HasExited), {}, false)
    ensures IsRun(states', events') && events' == events + [React, Poll(None)]
    ensures states'[|events'|] == Sys(NoJobs(), map[], Resumed(0, true), Inactive, {}, false)
  {
    hide AddJob, DeleteJob, PidSlot, NoJobs, GetJobPid, IsRun;
    JobSevenFacts();
    states', events' := Play(states, events, React);
    states', events' := Play(states', events', Poll(None));
  }

  // So fg can wait for ever: the job it resumes ends before its number is read. The slot that
  // was cleared is then in the foreground, for process 0.
  lemma FgCanHang() returns (states: seq<Sys>, events: seq<Event>)
    ensures IsRun(states, events) && events == RACE
    ensures states[|events|].pc == Scanning(0, 0) && Walking(states[|events|])
    ensures states[|events|].jobs.table[0].state == FG && FgPid(states[|events|].jobs.table) == 0
  {
    hide AddJob, DeleteJob, PidSlot, IsRun;
    states, events := AddSeven();
    states, events := ResumeSeven(states, events);
    states, events := EndSeven(states, events);
    states, events := DeleteSeven(states, events);
    states, events := Play(states, events, Set);
    states, events := Play(states, events, Fetch);
  }
}
