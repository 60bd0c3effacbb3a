/** The job table of Lab2/tsh.c and the helper routines that manipulate it. */
module Jobs {
  import opened Seqs

  const MAXJOBS := 16

  datatype JobState = UNDEF | FG | BG | ST

  datatype Job = Job(pid: int, jid: nat, state: JobState, cmdline: string)

  const CLEARED := Job(0, 0, UNDEF, "")

  type Table = t: seq<Job> | |t| == MAXJOBS witness seq(MAXJOBS, i => CLEARED)

  // ----- Searching

  // The first slot with this pid; MAXJOBS when there is none.
  function PidSlot(t: seq<Job>, pid: int): (k: nat)
    ensures k <= |t|
    ensures forall i :: 0 <= i < k ==> t[i].pid != pid
    ensures k < |t| ==> t[k].pid == pid
  {
    if t == [] || t[0].pid == pid then 0
    else
      var k := PidSlot(t[1..], pid);
      assert forall i :: 0 < i < k + 1 ==> t[i] == t[1..][i - 1];
      k + 1
  }

  function JidSlot(t: seq<Job>, jid: int): (k: nat)
    ensures k <= |t|
    ensures forall i :: 0 <= i < k ==> t[i].jid != jid
    ensures k < |t| ==> t[k].jid == jid
  {
    if t == [] || t[0].jid == jid then 0
    else
      var k := JidSlot(t[1..], jid);
      assert forall i :: 0 < i < k + 1 ==> t[i] == t[1..][i - 1];
      k + 1
  }

  function FgSlot(t: seq<Job>): (k: nat)
    ensures k <= |t|
    ensures forall i :: 0 <= i < k ==> t[i].state != FG
    ensures k < |t| ==> t[k].state == FG
  {
    if t == [] || t[0].state == FG then 0
    else
      var k := FgSlot(t[1..]);
      assert forall i :: 0 < i < k + 1 ==> t[i] == t[1..][i - 1];
      k + 1
  }

  function GetJobPid(t: Table, pid: int): (r: Option<nat>)
    ensures r.Some? ==> r.value < MAXJOBS && pid >= 1 && t[r.value].pid == pid
    ensures r.None? && pid >= 1 ==> forall i :: 0 <= i < MAXJOBS ==> t[i].pid != pid
  {
    if pid < 1 || PidSlot(t, pid) == MAXJOBS then None else Some(PidSlot(t, pid))
  }

  function GetJobJid(t: Table, jid: int): (r: Option<nat>)
    ensures r.Some? ==>
      r.value < MAXJOBS && jid >= 1 && t[r.value].jid == jid && forall i :: 0 <= i < r.value ==> t[i].jid != jid
    ensures r.None? && jid >= 1 ==> forall i :: 0 <= i < MAXJOBS ==> t[i].jid != jid
  {
    if jid < 1 || JidSlot(t, jid) == MAXJOBS then None else Some(JidSlot(t, jid))
  }

  function Pid2Jid(t: Table, pid: int): (jid: nat)
    ensures jid == if GetJobPid(t, pid).Some? then t[GetJobPid(t, pid).value].jid else 0
  {
    if pid < 1 || PidSlot(t, pid) == MAXJOBS then 0 else t[PidSlot(t, pid)].jid
  }

  // The process in the foreground; 0 if there is none.
  function FgPid(t: Table): (pid: int)
    ensures (forall i :: 0 <= i < MAXJOBS ==> t[i].state != FG) ==> pid == 0
    ensures (exists i :: 0 <= i < MAXJOBS && t[i].state == FG) ==>
      exists i :: 0 <= i < MAXJOBS && t[i].state == FG && t[i].pid == pid && forall j :: 0 <= j < i ==> t[j].state != FG
  {
    if FgSlot(t) == MAXJOBS then 0 else t[FgSlot(t)].pid
  }

  function MaxJid(t: seq<Job>): (m: nat)
    ensures forall i :: 0 <= i < |t| ==> t[i].jid <= m
    ensures m == 0 || exists i :: 0 <= i < |t| && t[i].jid == m
  {
    if t == [] then 0
    else
      var last := t[|t| - 1].jid;
      var m := MaxJid(t[..|t| - 1]);
      assert forall i :: 0 <= i < |t| - 1 ==> t[..|t| - 1][i] == t[i];
      if last > m then last else m
  }

  // ----- Changing

  datatype Jobs = Jobs(table: Table, nextjid: nat)

  // addjob. The result says whether there was a free slot.
  function AddJob(jobs: Jobs, pid: int, state: JobState, cmdline: string): (Jobs, bool) {
    var k := PidSlot(jobs.table, 0);
    if pid < 1 || k == MAXJOBS then (jobs, false)
    else
      (Jobs(jobs.table[k := Job(pid, jobs.nextjid, state, cmdline)],
            if jobs.nextjid + 1 > MAXJOBS then 1 else jobs.nextjid + 1),
       true)
  }

  function DeleteJob(jobs: Jobs, pid: int): (Jobs, bool) {
    var k := PidSlot(jobs.table, pid);
    if pid < 1 || k == MAXJOBS then (jobs, false)
    else
      var table := jobs.table[k := CLEARED];
      (Jobs(table, MaxJid(table) + 1), true)
  }

  function SetState(jobs: Jobs, slot: nat, state: JobState): Jobs
    requires slot < MAXJOBS
  {
    jobs.(table := jobs.table[slot := jobs.table[slot].(state := state)])
  }

  function NoJobs(): Jobs {
    Jobs(seq(MAXJOBS, i => CLEARED), 1)
  }

  // ----- Well-formed tables

  // No process is in two slots, and just the slots in use have a job number.
  ghost predicate OneSlotEach(t: Table) {
    && (forall i :: 0 <= i < MAXJOBS ==> t[i].pid >= 0 && (t[i].pid == 0 <==> t[i].jid == 0))
    && (forall i, j :: 0 <= i < j < MAXJOBS && t[i].pid != 0 ==> t[i].pid != t[j].pid)
  }

  // No two jobs have the same number.
  ghost predicate DistinctJids(t: Table) {
    forall i, j :: 0 <= i < j < MAXJOBS && t[i].jid != 0 ==> t[i].jid != t[j].jid
  }

  // As long as the numbers have not started again from 1.
  ghost predicate FreshNumbers(jobs: Jobs) {
    jobs.nextjid == MaxJid(jobs.table) + 1 && DistinctJids(jobs.table)
  }

  ghost function Pids(t: Table): (r: set<int>) {
    set i | 0 <= i < MAXJOBS && t[i].pid != 0 :: t[i].pid
  }

  lemma PidsSlot(t: Table, pid: int)
    requires pid >= 1
    ensures pid in Pids(t) <==> PidSlot(t, pid) < MAXJOBS
    ensures GetJobPid(t, pid).Some? <==> pid in Pids(t)
  {
    if PidSlot(t, pid) < MAXJOBS {
      assert t[PidSlot(t, pid)].pid == pid;
    }
  }

  lemma AddJobPids(jobs: Jobs, pid: int, state: JobState, cmdline: string)
    requires OneSlotEach(jobs.table) && pid >= 1 && pid !in Pids(jobs.table) && jobs.nextjid >= 1
    ensures var (r, ok) := AddJob(jobs, pid, state, cmdline);
      && OneSlotEach(r.table) && r.nextjid >= 1
      && Pids(r.table) == (if ok then Pids(jobs.table) + {pid} else Pids(jobs.table))
      && (!ok ==> r == jobs)
      && (ok <==> exists i :: 0 <= i < MAXJOBS && jobs.table[i].pid == 0)
  {
    var (r, ok) := AddJob(jobs, pid, state, cmdline);
    var k := PidSlot(jobs.table, 0);
    if ok {
      assert r.table[k].pid == pid;
      forall p ensures p in Pids(r.table) <==> p in Pids(jobs.table) + {pid} {
        if p in Pids(jobs.table) {
          var i :| 0 <= i < MAXJOBS && jobs.table[i].pid != 0 && jobs.table[i].pid == p;
          assert r.table[i].pid == p;
        }
      }
    }
  }

  lemma DeleteJobPids(jobs: Jobs, pid: int)
    requires OneSlotEach(jobs.table) && pid >= 1
    ensures var (r, ok) := DeleteJob(jobs, pid);
      && OneSlotEach(r.table) && (ok <==> pid in Pids(jobs.table))
      && Pids(r.table) == Pids(jobs.table) - {pid}
      && (ok ==> r.nextjid >= 1) && (!ok ==> r == jobs)
  {
    var (r, ok) := DeleteJob(jobs, pid);
    PidsSlot(jobs.table, pid);
    var k := PidSlot(jobs.table, pid);
    if ok {
      forall p ensures p in Pids(r.table) <==> p in Pids(jobs.table) - {pid} {
        if p in Pids(jobs.table) && p != pid {
          var i :| 0 <= i < MAXJOBS && jobs.table[i].pid != 0 && jobs.table[i].pid == p;
          assert r.table[i].pid == p;
        }
      }
    }
  }

  // The job entered is the one asked for, in the first free slot, and no other job changes.
  lemma AddJobEntry(jobs: Jobs, pid: int, state: JobState, cmdline: string)
    requires pid >= 1 && exists i :: 0 <= i < MAXJOBS && jobs.table[i].pid == 0
    ensures var (r, ok) := AddJob(jobs, pid, state, cmdline);
      && ok && r.nextjid == (if jobs.nextjid >= MAXJOBS then 1 else jobs.nextjid + 1)
      && exists k :: 0 <= k < MAXJOBS && jobs.table[k].pid == 0 && (forall i :: 0 <= i < k ==> jobs.table[i].pid != 0)
           && r.table[k].pid == pid && r.table[k].jid == jobs.nextjid
           && r.table[k].state == state && r.table[k].cmdline == cmdline
           && forall i :: 0 <= i < MAXJOBS && i != k ==> r.table[i] == jobs.table[i]
  {
    var k := PidSlot(jobs.table, 0);
    var r := AddJob(jobs, pid, state, cmdline).0;
    assert k < MAXJOBS && r.table[k] == Job(pid, jobs.nextjid, state, cmdline);
  }

  // The slot of the process is empty afterwards, the next number is one past the largest left,
  // and no other job changes.
  lemma DeleteJobEntry(jobs: Jobs, pid: int)
    requires OneSlotEach(jobs.table) && pid >= 1 && GetJobPid(jobs.table, pid).Some?
    ensures var (r, ok) := DeleteJob(jobs, pid);
      var k := GetJobPid(jobs.table, pid).value;
      && ok && r.table[k].pid == 0 && r.table[k].jid == 0 && r.table[k].state == UNDEF && r.table[k].cmdline == ""
      && (forall i :: 0 <= i < MAXJOBS && i != k ==> r.table[i] == jobs.table[i])
      && (forall i :: 0 <= i < MAXJOBS ==> r.table[i].jid < r.nextjid)
      && (r.nextjid == 1 || exists i :: 0 <= i < MAXJOBS && r.table[i].jid == r.nextjid - 1)
  {
    var r := DeleteJob(jobs, pid).0;
    assert r.nextjid == MaxJid(r.table) + 1;
  }

  // ----- Job numbers

  // While the counter is one past the largest number, a new job gets a number of its own, and
  // the counter stays so exactly when it is not set back to 1.
  lemma AddJobNumbers(jobs: Jobs, pid: int, state: JobState, cmdline: string)
    requires OneSlotEach(jobs.table) && FreshNumbers(jobs)
    requires AddJob(jobs, pid, state, cmdline).1
    ensures var r := AddJob(jobs, pid, state, cmdline).0;
      && DistinctJids(r.table)
      && (FreshNumbers(r) <==> jobs.nextjid < MAXJOBS)
  {
    var r := AddJob(jobs, pid, state, cmdline).0;
    var k := PidSlot(jobs.table, 0);
    assert r.table[k].jid == jobs.nextjid;
    MaxJidIs(r.table, jobs.nextjid, k);
  }

  lemma MaxJidIs(t: Table, m: nat, k: nat)
    requires k < MAXJOBS && t[k].jid == m && forall i :: 0 <= i < MAXJOBS ==> t[i].jid <= m
    ensures MaxJid(t) == m
  {
  }

  lemma DeleteJobNumbers(jobs: Jobs, pid: int)
    requires OneSlotEach(jobs.table) && FreshNumbers(jobs)
    ensures FreshNumbers(DeleteJob(jobs, pid).0)
  {
  }

  // Whatever the counter, adding a job keeps the numbers distinct exactly if no job in the
  // table has the number the counter gives out.
  lemma AddKeepsDistinct(jobs: Jobs, pid: int, state: JobState, cmdline: string)
    requires OneSlotEach(jobs.table) && DistinctJids(jobs.table) && jobs.nextjid >= 1
    requires AddJob(jobs, pid, state, cmdline).1
    ensures DistinctJids(AddJob(jobs, pid, state, cmdline).0.table) <==>
      forall i :: 0 <= i < MAXJOBS ==> jobs.table[i].jid != jobs.nextjid
  {
    var r := AddJob(jobs, pid, state, cmdline).0.table;
    var k := PidSlot(jobs.table, 0);
    assert r[k].jid == jobs.nextjid;
    forall i | 0 <= i < MAXJOBS && jobs.table[i].jid == jobs.nextjid ensures !DistinctJids(r) {
      assert i != k && r[i].jid == r[k].jid;
    }
  }

  lemma DeleteKeepsDistinct(jobs: Jobs, pid: int)
    requires OneSlotEach(jobs.table) && DistinctJids(jobs.table)
    ensures DistinctJids(DeleteJob(jobs, pid).0.table)
  {
  }

  // The number that pid2jid gives for a process leads getjobjid to the slot of this process.
  ghost predicate LookupAgrees(t: Table, pid: int) {
    GetJobJid(t, Pid2Jid(t, pid)) == GetJobPid(t, pid)
  }

  // The two agree for every process in the table exactly if the numbers are distinct.
  lemma LookupsAgree(t: Table)
    requires OneSlotEach(t)
    ensures (forall pid :: pid in Pids(t) ==> LookupAgrees(t, pid)) <==> DistinctJids(t)
  {
    forall i | 0 <= i < MAXJOBS && t[i].pid != 0
      ensures LookupAgrees(t, t[i].pid) <==> JidSlot(t, t[i].jid) == i {
      PidSlotIs(t, t[i].pid, i);
    }
    if forall pid :: pid in Pids(t) ==> LookupAgrees(t, pid) {
      forall i, j | 0 <= i < j < MAXJOBS && t[i].jid != 0 ensures t[i].jid != t[j].jid {
        assert t[j].jid != 0 ==> t[i].pid in Pids(t) && t[j].pid in Pids(t);
      }
    }
  }

  // ----- After the counter has been set back, numbers can repeat

  // Jobs 1 .. n in the first n slots.
  function Filled(n: nat): Jobs
    requires n < MAXJOBS
  {
    Jobs(seq(MAXJOBS, (i: nat) => if i < n then Job(i + 1, i + 1, BG, "") else CLEARED), n + 1)
  }

  function AddJobs(jobs: Jobs, pids: seq<int>): Jobs
    decreases |pids|
  {
    if pids == [] then jobs else AddJobs(AddJob(jobs, pids[0], BG, "").0, pids[1..])
  }

  lemma PidSlotIs(t: Table, pid: int, k: nat)
    requires k < MAXJOBS && t[k].pid == pid && forall i :: 0 <= i < k ==> t[i].pid != pid
    ensures PidSlot(t, pid) == k
  {
  }

  lemma PidSlotNone(t: Table, pid: int)
    requires forall i :: 0 <= i < MAXJOBS ==> t[i].pid != pid
    ensures PidSlot(t, pid) == MAXJOBS
  {
  }

  lemma {:induction false} AddJobsFill(n: nat)
    requires n < MAXJOBS
    ensures AddJobs(NoJobs(), seq(n, i => i + 1)) == Filled(n)
  {
    AddJobsFrom(0, n);
    assert NoJobs() == Filled(0);
    assert seq(n, i => 0 + i + 1) == seq(n, i => i + 1);
  }

  lemma {:induction false} AddJobsFrom(m: nat, n: nat)
    requires m + n < MAXJOBS
    ensures AddJobs(Filled(m), seq(n, i => m + i + 1)) == Filled(m + n)
    decreases n
  {
    if n > 0 {
      PidSlotIs(Filled(m).table, 0, m);
      assert AddJob(Filled(m), m + 1, BG, "").0.table == Filled(m + 1).table;
      assert seq(n, i => m + i + 1)[1..] == seq(n - 1, i => m + 1 + i + 1);
      AddJobsFrom(m + 1, n - 1);
    }
  }

  // A low counter is no remedy: with jobs 1 and 2 in the table and the counter at 2, the next
  // job is another number 2.
  const LOW_COUNTER: Jobs := Jobs(Filled(2).table, 2)

  lemma LowCounterRepeats(pid: int)
    requires pid > 2
    ensures OneSlotEach(LOW_COUNTER.table) && DistinctJids(LOW_COUNTER.table) && LOW_COUNTER.nextjid < MAXJOBS
    ensures AddJob(LOW_COUNTER, pid, BG, "").1 && !DistinctJids(AddJob(LOW_COUNTER, pid, BG, "").0.table)
  {
    PidSlotIs(LOW_COUNTER.table, 0, 2);
    AddKeepsDistinct(LOW_COUNTER, pid, BG, "");
    assert LOW_COUNTER.table[1].jid == 2;
  }

  // Fifteen jobs, the second one ends, two more start: two live jobs have number 1.
  lemma NumbersCanRepeat()
    ensures var fifteen := AddJobs(NoJobs(), seq(15, i => i + 1));
      var after := AddJobs(DeleteJob(fifteen, 2).0, [16, 17]);
      && after.table[0] == Job(1, 1, BG, "") && after.table[15] == Job(17, 1, BG, "")
      && Pid2Jid(after.table, 17) == 1 && GetJobJid(after.table, 1) == Some(0)
  {
    AddJobsFill(15);
    var fifteen := Filled(15);
    PidSlotIs(fifteen.table, 2, 1);
    var fourteen := DeleteJob(fifteen, 2).0;
    MaxJidIs(fourteen.table, 15, 14);
    assert fourteen == Jobs(fifteen.table[1 := CLEARED], 16);
    PidSlotIs(fourteen.table, 0, 1);
    var sixteen := AddJob(fourteen, 16, BG, "").0;
    assert sixteen == Jobs(fifteen.table[1 := Job(16, 16, BG, "")], 1);
    PidSlotIs(sixteen.table, 0, 15);
    var after := AddJob(sixteen, 17, BG, "").0;
    assert after == Jobs(sixteen.table[15 := Job(17, 1, BG, "")], 2);
    PidSlotIs(after.table, 17, 15);
    assert [16, 17][1..] == [17] && [17][1..] == [];
  }

  // ----- The routines as the program runs them, on the array of job structs

  class JobTable {
    const jobs: array<Job>
    var nextjid: nat

    ghost predicate Valid()
      reads this, jobs
    {
      jobs.Length == MAXJOBS
    }

    ghost function View(): Jobs
      reads this, jobs
      requires Valid()
    {
      Jobs(jobs[..], nextjid)
    }

    constructor ()
      ensures Valid() && View() == NoJobs() && fresh(jobs)
    {
      jobs := new Job[MAXJOBS](_ => CLEARED);
      nextjid := 1;
    }

    method ClearJob(i: nat)
      requires Valid() && i < MAXJOBS
      modifies jobs
      ensures View() == old(View()).(table := old(View()).table[i := CLEARED])
    {
      jobs[i] := CLEARED;
    }

    method FindMaxJid() returns (max: nat)
      requires Valid()
      ensures max == MaxJid(jobs[..])
    {
      max := 0;
      for i := 0 to MAXJOBS
        invariant forall j :: 0 <= j < i ==> jobs[j].jid <= max
        invariant max == 0 || exists j :: 0 <= j < i && jobs[j].jid == max
      {
        if jobs[i].jid > max {
          max := jobs[i].jid;
        }
      }
    }

    method Add(pid: int, state: JobState, cmdline: string) returns (ok: bool)
      requires Valid()
      modifies this, jobs
      ensures Valid() && (View(), ok) == AddJob(old(View()), pid, state, cmdline)
    {
      if pid < 1 {
        return false;
      }
      for i := 0 to MAXJOBS
        invariant jobs[..] == old(jobs[..]) && nextjid == old(nextjid)
        invariant forall j :: 0 <= j < i ==> jobs[j].pid != 0
      {
        if jobs[i].pid == 0 {
          PidSlotIs(jobs[..], 0, i);
          jobs[i] := Job(pid, nextjid, state, cmdline);
          nextjid := nextjid + 1;
          if nextjid > MAXJOBS {
            nextjid := 1;
          }
          return true;
        }
      }
      return false;
    }

    method Delete(pid: int) returns (ok: bool)
      requires Valid()
      modifies this, jobs
      ensures Valid() && (View(), ok) == DeleteJob(old(View()), pid)
    {
      if pid < 1 {
        return false;
      }
      for i := 0 to MAXJOBS
        invariant jobs[..] == old(jobs[..]) && nextjid == old(nextjid)
        invariant forall j :: 0 <= j < i ==> jobs[j].pid != pid
      {
        if jobs[i].pid == pid {
          ClearAt(i, pid);
          return true;
        }
      }
      PidSlotNone(jobs[..], pid);
      return false;
    }

    // The job found is cleared, and the counter set by the jobs that are left.
    method ClearAt(i: nat, ghost pid: int)
      requires Valid() && i < MAXJOBS && pid >= 1 && jobs[i].pid == pid
      requires forall j :: 0 <= j < i ==> jobs[j].pid != pid
      modifies this, jobs
      ensures Valid() && (View(), true) == DeleteJob(old(View()), pid)
    {
      PidSlotIs(jobs[..], pid, i);
      hide PidSlot, MaxJid;
      ClearJob(i);
      var max := FindMaxJid();
      nextjid := max + 1;
    }

    method FindFgPid() returns (pid: int)
      requires Valid()
      ensures pid == FgPid(jobs[..])
    {
      for i := 0 to MAXJOBS
        invariant forall j :: 0 <= j < i ==> jobs[j].state != FG
      {
        if jobs[i].state == FG {
          return jobs[i].pid;
        }
      }
      return 0;
    }

    // The position of the job, where the program returns a pointer to it.
    method FindJobPid(pid: int) returns (slot: Option<nat>)
      requires Valid()
      ensures slot == GetJobPid(jobs[..], pid)
    {
      if pid < 1 {
        return None;
      }
      for i := 0 to MAXJOBS
        invariant forall j :: 0 <= j < i ==> jobs[j].pid != pid
      {
        if jobs[i].pid == pid {
          return Some(i);
        }
      }
      return None;
    }

    method FindJobJid(jid: int) returns (slot: Option<nat>)
      requires Valid()
      ensures slot == GetJobJid(jobs[..], jid)
    {
      if jid < 1 {
        return None;
      }
      for i := 0 to MAXJOBS
        invariant forall j :: 0 <= j < i ==> jobs[j].jid != jid
      {
        if jobs[i].jid == jid {
          return Some(i);
        }
      }
      return None;
    }

    method PidToJid(pid: int) returns (jid: nat)
      requires Valid()
      ensures jid == Pid2Jid(jobs[..], pid)
    {
      if pid < 1 {
        return 0;
      }
      for i := 0 to MAXJOBS
        invariant forall j :: 0 <= j < i ==> jobs[j].pid != pid
      {
        if jobs[i].pid == pid {
          return jobs[i].jid;
        }
      }
      return 0;
    }
  }
}
