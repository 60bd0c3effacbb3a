/** What fg, bg, waitfg and the handler do to a job, over whole interleavings. */
module ShellWaiting {
  import opened Seqs
  import opened Jobs
  import opened Shell

  // ----- The lookup of do_bgfg

  // The main line goes on by itself, up to n turns of the loop of getjobjid or getjobpid.
  function Seeks(s: Sys, n: nat): Sys
    decreases n
  {
    if n == 0 || !s.pc.Seeking? then s else Seeks(DoSeek(s), n - 1)
  }

  function LookUp(t: Table, byJid: bool, id: int): Option<nat> {
    if byJid then GetJobJid(t, id) else GetJobPid(t, id)
  }

  lemma {:induction false} SeekOn(s: Sys, n: nat)
    requires s.pc.Seeking? && s.pc.i <= MAXJOBS && s.pc.id >= 1 && n > MAXJOBS - s.pc.i
    requires forall j :: 0 <= j < s.pc.i ==>
      (if s.pc.byJid then s.jobs.table[j].jid else s.jobs.table[j].pid) != s.pc.id
    ensures Seeks(s, n) == s.(pc := match LookUp(s.jobs.table, s.pc.byJid, s.pc.id)
                                    case None => Idle
                                    case Some(k) => Holding(k, s.pc.fg))
    decreases n
  {
    hide JidSlot, PidSlot;
    if DoSeek(s).pc.Seeking? {
      SeekOn(DoSeek(s), n - 1);
    }
  }

  // On a table that does not change meanwhile the loop finds the first job of that number, or of
  // that process, and gives up exactly if there is none.
  lemma SeekExact(s: Sys)
    requires s.pc.Seeking? && s.pc.i == 0 && s.pc.id >= 1
    ensures Seeks(s, MAXJOBS + 1) == s.(pc := match LookUp(s.jobs.table, s.pc.byJid, s.pc.id)
                                              case None => Idle
                                              case Some(k) => Holding(k, s.pc.fg))
  {
    SeekOn(s, MAXJOBS + 1);
  }

  // Whatever happens meanwhile, the job that is taken has this number at that moment.
  lemma SeekFinds(s: Sys)
    requires s.pc.Seeking? && DoSeek(s).pc.Holding?
    ensures var k := DoSeek(s).pc.slot;
      k < MAXJOBS && s.pc.id == if s.pc.byJid then s.jobs.table[k].jid else s.jobs.table[k].pid
  {
  }

  // If the job cannot be sent SIGCONT, the command is given up and the table left as it is.
  lemma KillExact(s: Sys, ok: bool)
    requires Enabled(s, Kill(ok))
    ensures Do(s, Kill(ok)).jobs == s.jobs
    ensures Do(s, Kill(ok)).pc == if ok then Resumed(s.pc.slot, s.pc.fg) else Idle
  {
  }

  // ----- What becomes of a job

  // Only this slot differs.
  ghost predicate OnlySlot(t: Table, t': Table, k: nat) {
    forall i :: 0 <= i < MAXJOBS && i != k ==> t'[i] == t[i]
  }

  // fg leaves the job in the foreground and waits for it, bg leaves it in the background and
  // comes back to the prompt; nothing else about the table changes.
  lemma SetExact(s: Sys)
    requires Enabled(s, Set)
    ensures var k, r := s.pc.slot, Do(s, Set);
      && r.jobs.table[k] == s.jobs.table[k].(state := r.jobs.table[k].state)
      && r.jobs.table[k].state == (if s.pc.fg then FG else BG)
      && r.pc == (if s.pc.fg then Fetched(k) else Idle)
      && OnlySlot(s.jobs.table, r.jobs.table, k) && r.jobs.nextjid == s.jobs.nextjid
  {
  }

  // A job reported as stopped is left in the table as such; one reported as ended is taken out;
  // nothing else about the table changes.
  lemma ReactExact(s: Sys)
    requires Tracked(s) && Enabled(s, React) && GetJobPid(s.jobs.table, s.handler.pid).Some?
    ensures var k, r := GetJobPid(s.jobs.table, s.handler.pid).value, Do(s, React);
      && OnlySlot(s.jobs.table, r.jobs.table, k)
      && r.handler == Polling && r.pc == s.pc && r.children == s.children
      && if s.handler.report == WasStopped then
           r.jobs.table[k] == s.jobs.table[k].(state := ST)
         else
           GetJobPid(r.jobs.table, s.handler.pid).None? && r.jobs.table[k].state == UNDEF
  {
    hide GetJobPid, PidSlot, DeleteJob, MaxJid, Pids;
    if s.handler.report != WasStopped {
      DeleteJobEntry(s.jobs, s.handler.pid);
      DeleteJobPids(s.jobs, s.handler.pid);
      PidsSlot(DeleteJob(s.jobs, s.handler.pid).0.table, s.handler.pid);
    }
  }

  // eval comes straight back to the prompt for a background job, and only then.
  lemma EvalReturns(s: Sys)
    requires Enabled(s, EndEval)
    ensures Do(s, EndEval).pc == Idle <==> s.pc.bg
    ensures !s.pc.bg ==> Do(s, EndEval).pc == Scanning(s.pc.pid, 0)
  {
  }

  // ----- The foreground job is waited for

  // The job of this process is in the foreground in slot k, and the main line is on its way
  // through the wait for it, or the shell has ended.
  ghost predicate Waiting(s: Sys, pid: int, k: nat) {
    && pid >= 1 && k < MAXJOBS && s.jobs.table[k].pid == pid && s.jobs.table[k].state == FG
    && match s.pc
       case Added(p, bg) => p == pid && !bg
       case Unmasked(p, bg) => p == pid && !bg
       case Scanning(p, i) => p == pid && i <= k
       case Hit(p, i) => p == pid && i == k
       case Fetched(slot) => slot == k
       case Exited => true
       case _ => false
  }

  // The handler reacts to a report about this process.
  ghost predicate ReactsTo(s: Sys, e: Event, pid: int) {
    e.React? && s.handler.Reaped? && s.handler.pid == pid
  }

  lemma NextWaiting(s: Sys, e: Event, pid: int, k: nat)
    requires Tracked(s) && Foreground(s) && Waiting(s, pid, k) && Enabled(s, e) && !ReactsTo(s, e, pid)
    ensures Waiting(Do(s, e), pid, k)
  {
    match e
    case React =>
      if GetJobPid(s.jobs.table, s.handler.pid).Some? {
        ReactExact(s);
      } else {
        NoJobNoChange(s);
      }
    case _ =>
  }

  lemma NoJobNoChange(s: Sys)
    requires Enabled(s, React) && GetJobPid(s.jobs.table, s.handler.pid).None?
    ensures Do(s, React).jobs == s.jobs && (Do(s, React).pc == s.pc || Do(s, React).pc == Exited)
  {
  }

  lemma {:induction false} WaitingKept(states: seq<Sys>, events: seq<Event>, a: nat, j: nat, pid: int, k: nat)
    requires IsRun(states, events) && a <= j <= |events| && Waiting(states[a], pid, k)
    requires forall m :: a <= m < j ==> !ReactsTo(states[m], events[m], pid)
    ensures Waiting(states[j], pid, k)
    decreases j
  {
    hide Waiting, Tracked, Foreground, Numbered, Do, ReactsTo;
    if a < j {
      WaitingKept(states, events, a, j - 1, pid, k);
      RunSound(states, events, j - 1);
      var s, e := states[j - 1], events[j - 1];
      assert Enabled(s, e) && states[j] == Do(s, e);
      NextWaiting(s, e, pid, k);
    }
  }

  // In every interleaving: from the addjob of a foreground child that finds a slot, until the
  // handler reacts to a report about this child, its job is in the foreground and the shell does
  // not come back to its prompt.
  lemma ForegroundWaits(states: seq<Sys>, events: seq<Event>, a: nat, j: nat, pid: int)
    requires IsRun(states, events) && a < j <= |events|
    requires states[a].pc == Forked(pid, false) && events[a].Add?
    requires exists i :: 0 <= i < MAXJOBS && states[a].jobs.table[i].pid == 0
    requires forall m :: a < m < j ==> !ReactsTo(states[m], events[m], pid)
    ensures exists k :: Waiting(states[j], pid, k)
    ensures states[j].pc != Idle
  {
    var s, e := states[a], events[a];
    RunSound(states, events, a);
    assert Enabled(s, e) && states[a + 1] == Do(s, e);
    hide Foreground, Numbered, IsRun, AddJob;
    AddJobEntry(s.jobs, pid, FG, e.cmdline);
    var t' := AddJob(s.jobs, pid, FG, e.cmdline).0.table;
    var k :| 0 <= k < MAXJOBS && t'[k].pid == pid && t'[k].state == FG;
    assert Waiting(states[a + 1], pid, k);
    WaitingKept(states, events, a + 1, j, pid, k);
  }

  // Nor does the shell end meanwhile, if addjob has always found a free slot: ctrl-c goes to the
  // job, and the handler finds the jobs of all other children.
  lemma NextAlive(s: Sys, e: Event, pid: int, k: nat)
    requires Tracked(s) && Foreground(s) && Waiting(s, pid, k) && Enabled(s, e) && s.lost == {}
    ensures !Do(s, e).pc.Exited?
  {
    hide Pids, DeleteJob, SetState;
    match e
    case React => PidsSlot(s.jobs.table, s.handler.pid);
    case _ =>
  }

  lemma {:induction false} WaitingAlive(states: seq<Sys>, events: seq<Event>, a: nat, j: nat, pid: int, k: nat)
    requires IsRun(states, events) && a <= j <= |events| && Waiting(states[a], pid, k) && !states[a].pc.Exited?
    requires forall m :: a <= m < j ==> !ReactsTo(states[m], events[m], pid)
    requires forall m :: 0 <= m < j ==> !Overflow(states[m], events[m])
    ensures !states[j].pc.Exited?
    decreases j
  {
    hide Waiting, Tracked, Foreground, Numbered, Do, Overflow, ReactsTo;
    if a < j {
      WaitingKept(states, events, a, j - 1, pid, k);
      RunSound(states, events, j - 1);
      NothingLost(states, events, j - 1);
      var s, e := states[j - 1], events[j - 1];
      assert Enabled(s, e) && states[j] == Do(s, e);
      NextAlive(s, e, pid, k);
    }
  }

  lemma ForegroundAlive(states: seq<Sys>, events: seq<Event>, a: nat, j: nat, pid: int)
    requires IsRun(states, events) && a < j <= |events|
    requires states[a].pc == Forked(pid, false) && events[a].Add?
    requires forall m :: a < m < j ==> !ReactsTo(states[m], events[m], pid)
    requires forall m :: 0 <= m < j ==> !Overflow(states[m], events[m])
    ensures !states[j].pc.Exited?
  {
    assert !Overflow(states[a], events[a]);
    assert Enabled(states[a], events[a]) && states[a + 1] == Do(states[a], events[a]);
    ForegroundWaits(states, events, a, a + 1, pid);
    var k :| Waiting(states[a + 1], pid, k);
    hide Waiting, Overflow, IsRun;
    WaitingAlive(states, events, a + 1, j, pid, k);
  }

  // The same for a job that fg brings to the foreground while its process is in the table.
  lemma FgWaits(states: seq<Sys>, events: seq<Event>, a: nat, j: nat, pid: int)
    requires IsRun(states, events) && a < j <= |events|
    requires states[a].pc.Resumed? && states[a].pc.fg && events[a] == Set
    requires states[a].pc.slot < MAXJOBS && states[a].jobs.table[states[a].pc.slot].pid == pid >= 1
    requires forall m :: a < m < j ==> !ReactsTo(states[m], events[m], pid)
    ensures Waiting(states[j], pid, states[a].pc.slot)
    ensures states[j].pc != Idle
  {
    assert Enabled(states[a], events[a]) && states[a + 1] == Do(states[a], events[a]);
    SetExact(states[a]);
    WaitingKept(states, events, a + 1, j, pid, states[a].pc.slot);
  }

  // Once the handler has reacted to a report about it, nothing is in the foreground, and the wait
  // comes to its end.
  lemma ReportEndsWait(s: Sys, pid: int, k: nat)
    requires Tracked(s) && Foreground(s) && Waiting(s, pid, k) && Enabled(s, React) && ReactsTo(s, React, pid)
    ensures var r := Do(s, React);
      && NoForeground(r.jobs.table)
      && (r.pc.Scanning? || r.pc.Hit? ==> exists n: nat :: Turns(r, n).pc == Idle)
  {
    PidsSlot(s.jobs.table, pid);
    assert GetJobPid(s.jobs.table, pid) == Some(k);
    ReactExact(s);
    hide Tracked, DoReact, GetJobPid, PidSlot;
    var r := Do(s, React);
    assert forall i :: 0 <= i < MAXJOBS && i != k ==> r.jobs.table[i].state != FG;
    if r.pc.Scanning? {
      WaitReturns(r);
    } else if r.pc.Hit? {
      HitReturns(r);
    }
  }

  lemma HitReturns(s: Sys)
    requires s.pc.Hit? && s.pc.i < MAXJOBS && NoForeground(s.jobs.table) && s.pc.pid != 0
    ensures exists n: nat :: Turns(s, n).pc == Idle
  {
    var r := DoCompare(s);
    if r.pc == Idle {
      assert Turns(s, 1).pc == Idle;
    } else {
      WaitReturns(r);
      var n: nat :| Turns(r, n).pc == Idle;
      assert Turns(s, n + 1).pc == Idle;
    }
  }
}
