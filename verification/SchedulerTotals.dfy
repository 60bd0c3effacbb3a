/** Whole runs: termination, makespan, exact I/O time and the summary counters. */
module SchedulerTotals {
  import opened Numbers
  import opened Seqs
  import opened Scheduler
  import opened SchedulerInvariant

  // ----- What one cycle does to the time counters

  ghost function CpuTimes(s: State): (r: seq<nat>)
    ensures |r| == |s.ps|
  {
    seq(|s.ps|, i requires 0 <= i < |s.ps| => s.ps[i].cpuTime)
  }

  ghost function IoTimes(s: State): (r: seq<nat>)
    ensures |r| == |s.ps|
  {
    seq(|s.ps|, i requires 0 <= i < |s.ps| => s.ps[i].ioTime)
  }

  ghost function Starts(s: State): (r: seq<nat>)
    ensures |r| == |s.ps|
  {
    seq(|s.ps|, i requires 0 <= i < |s.ps| => if s.ps[i].firstTime then 0 else 1)
  }

  // The later state charges no CPU and no I/O time.
  ghost predicate SameTimes(a: State, b: State) {
    && |a.ps| == |b.ps| && a.blockedCycles == b.blockedCycles
    && forall i :: 0 <= i < |a.ps| ==> a.ps[i].cpuTime == b.ps[i].cpuTime && a.ps[i].ioTime == b.ps[i].ioTime
  }

  // Nobody is started in between.
  ghost predicate SameStarts(a: State, b: State) {
    && |a.ps| == |b.ps| && a.started == b.started
    && forall i :: 0 <= i < |a.ps| ==> a.ps[i].firstTime == b.ps[i].firstTime
  }

  lemma {:induction false} AdmitTimes(pol: Policy, w: Workload, s: State, upto: nat)
    requires Shape(w, s) && upto <= |w.jobs|
    ensures SameTimes(s, Admit(pol, w, s, upto)) && SameStarts(s, Admit(pol, w, s, upto))
  {
    if upto > 0 {
      AdmitTimes(pol, w, s, upto - 1);
    }
  }

  lemma DispatchTimes(pol: Policy, w: Workload, s: State)
    requires Shape(w, s)
    ensures SameTimes(s, Advance(pol, w, ChargeWaiting(w, Dispatch(pol, w, s))))
  {
    assert SameTimes(s, Dispatch(pol, w, s));
  }

  lemma TickTimes(w: Workload, s: State)
    requires Shape(w, s)
    ensures var r := TickBlocked(w, s);
      && r.blockedCycles == s.blockedCycles + (if s.blocked == [] then 0 else 1)
      && (forall i :: 0 <= i < |s.ps| ==> r.ps[i].cpuTime == s.ps[i].cpuTime)
      && (forall i :: 0 <= i < |s.ps| ==> r.ps[i].ioTime == s.ps[i].ioTime + if i in s.blocked then 1 else 0)
      && SameStarts(s, r)
  {
  }

  lemma ServeTimes(w: Workload, s: State)
    requires Shape(w, s)
    ensures var r := TickRunning(w, s);
      && r.blockedCycles == s.blockedCycles
      && (forall i :: 0 <= i < |s.ps| ==> r.ps[i].ioTime == s.ps[i].ioTime)
      && (forall i :: 0 <= i < |s.ps| ==> r.ps[i].cpuTime == s.ps[i].cpuTime + if s.running == Some(i) then 1 else 0)
      && SameStarts(s, r)
  {
  }

  // Only the running process gains CPU time and only the blocked ones gain I/O time.
  lemma StepTimes(pol: Policy, w: Workload, s: State)
    requires Shape(w, s)
    ensures var r := Step(pol, w, s);
      && r.blockedCycles == s.blockedCycles + (if s.blocked == [] then 0 else 1)
      && (forall i :: 0 <= i < |s.ps| ==> r.ps[i].cpuTime == s.ps[i].cpuTime + if s.running == Some(i) then 1 else 0)
      && (forall i :: 0 <= i < |s.ps| ==> r.ps[i].ioTime == s.ps[i].ioTime + if i in s.blocked then 1 else 0)
  {
    var a := TickBlocked(w, s);
    TickTimes(w, s);
    var b := Admit(pol, w, a, |w.jobs|);
    AdmitTimes(pol, w, a, |w.jobs|);
    ServeTimes(w, b);
    DispatchTimes(pol, w, TickRunning(w, b));
  }

  lemma StepCpuSum(pol: Policy, w: Workload, s: State)
    requires Shape(w, s)
    ensures Sum(CpuTimes(Step(pol, w, s))) == Sum(CpuTimes(s)) + if s.running.Some? then 1 else 0
  {
    hide Step;
    StepTimes(pol, w, s);
    var r := Step(pol, w, s);
    if s.running.Some? {
      var i := s.running.value;
      SumUpdate(CpuTimes(s), i, s.ps[i].cpuTime + 1);
      assert CpuTimes(r) == CpuTimes(s)[i := s.ps[i].cpuTime + 1];
    } else {
      assert CpuTimes(r) == CpuTimes(s);
    }
  }

  lemma StepIoSum(pol: Policy, w: Workload, s: State)
    requires Shape(w, s)
    ensures Sum(IoTimes(Step(pol, w, s))) >= Sum(IoTimes(s)) + if s.blocked == [] then 0 else 1
  {
    StepTimes(pol, w, s);
    var r := Step(pol, w, s);
    if s.blocked != [] {
      var i := s.blocked[0];
      assert i in s.blocked;
      assert IoTimes(s)[i] < IoTimes(r)[i];
    }
    SumMonotone(IoTimes(s), IoTimes(r));
  }

  // ----- Counters of the summary

  // Between the largest single I/O time and the sum of all of them.
  ghost predicate BlockedCyclesOk(s: State) {
    && (forall i :: 0 <= i < |s.ps| ==> s.ps[i].ioTime <= s.blockedCycles)
    && s.blockedCycles <= Sum(IoTimes(s))
  }

  lemma StepBlockedCycles(pol: Policy, w: Workload, s: State)
    requires Shape(w, s) && BlockedCyclesOk(s)
    ensures BlockedCyclesOk(Step(pol, w, s))
  {
    hide Step;
    StepTimes(pol, w, s);
    StepIoSum(pol, w, s);
  }

  lemma InitialBlockedCycles(w: Workload, garbage: nat)
    ensures BlockedCyclesOk(Initial(w, garbage))
  {
  }

  lemma {:induction false} BlockedCycles(pol: Policy, w: Workload, garbage: nat, t: nat)
    ensures BlockedCyclesOk(After(pol, w, garbage, t))
  {
    hide Step, BlockedCyclesOk;
    if t == 0 {
      InitialBlockedCycles(w, garbage);
    } else {
      BlockedCycles(pol, w, garbage, t - 1);
      AfterNext(pol, w, garbage, t);
      StepBlockedCycles(pol, w, After(pol, w, garbage, t - 1));
    }
  }

  // The cycles 1 .. t-1 that begin with no process running.
  ghost function IdleCycles(pol: Policy, w: Workload, garbage: nat, t: nat): nat {
    if t <= 1 then 0
    else IdleCycles(pol, w, garbage, t - 1) + if After(pol, w, garbage, t - 1).running.None? then 1 else 0
  }

  lemma {:induction false} InitialCpuSum(w: Workload, garbage: nat)
    ensures Sum(CpuTimes(Initial(w, garbage))) == 0
  {
    SumZero(CpuTimes(Initial(w, garbage)));
  }

  lemma {:induction false} SumZero(s: seq<nat>)
    requires forall i :: 0 <= i < |s| ==> s[i] == 0
    ensures Sum(s) == 0
  {
    if s != [] {
      SumZero(s[..|s| - 1]);
    }
  }

  // Every cycle after the first either runs a process for one unit or is idle.
  lemma {:induction false} CpuAccounting(pol: Policy, w: Workload, garbage: nat, t: nat)
    requires t >= 1
    ensures Sum(CpuTimes(After(pol, w, garbage, t))) + IdleCycles(pol, w, garbage, t) == t - 1
  {
    hide Step;
    var s := After(pol, w, garbage, t - 1);
    AfterNext(pol, w, garbage, t);
    StepCpuSum(pol, w, s);
    if t == 1 {
      InitialCpuSum(w, garbage);
    } else {
      CpuAccounting(pol, w, garbage, t - 1);
    }
  }

  // ----- I/O time in closed form

  lemma {:induction false} IODueClosed(b: nat, io: nat, cpu: nat)
    requires b >= 1
    ensures IODue(b, io, cpu) == (cpu / b) * io
  {
    if cpu == 0 {
      assert 0 / b == 0;
    } else {
      IODueClosed(b, io, cpu - 1);
      ModNext(cpu - 1, b);
      var k := (cpu - 1) / b;
      assert (k + 1) * io == k * io + io;
    }
  }

  lemma {:induction false} DueMonotone(w: Workload, i: nat, a: nat, b: nat)
    requires i < |w.jobs| && a <= b
    ensures Due(w, i, a) <= Due(w, i, b)
  {
    if a < b {
      DueMonotone(w, i, a, b - 1);
    }
  }

  // The I/O time of process i, whatever the scheduler: after every full burst but a last one.
  function TotalIO(w: Workload, i: nat): nat
    requires i < |w.jobs|
  {
    (w.jobs[i].total - 1) / Burst(w, i) * (Burst(w, i) * w.jobs[i].multiplier)
  }

  lemma DueIsTotalIO(w: Workload, i: nat)
    requires i < |w.jobs|
    ensures Due(w, i, w.jobs[i].total - 1) == TotalIO(w, i)
  {
    IODueClosed(Burst(w, i), BurstIO(w, i), w.jobs[i].total - 1);
  }

  // ----- Work done and work to do

  function Totals(w: Workload): (r: seq<nat>)
    ensures |r| == |w.jobs|
  {
    seq(|w.jobs|, i requires 0 <= i < |w.jobs| => w.jobs[i].total)
  }

  function TotalIOs(w: Workload): (r: seq<nat>)
    ensures |r| == |w.jobs|
  {
    seq(|w.jobs|, i requires 0 <= i < |w.jobs| => TotalIO(w, i))
  }

  function LastArrival(jobs: seq<Job>): (r: nat)
    ensures forall i :: 0 <= i < |jobs| ==> jobs[i].arrival <= r
  {
    if jobs == [] then 0
    else
      var last := jobs[|jobs| - 1].arrival;
      var rest := LastArrival(jobs[..|jobs| - 1]);
      assert forall i :: 0 <= i < |jobs| - 1 ==> jobs[i] == jobs[..|jobs| - 1][i];
      if rest < last then last else rest
  }

  ghost function Work(s: State): nat {
    Sum(CpuTimes(s)) + Sum(IoTimes(s))
  }

  function Workloads(w: Workload): nat {
    Sum(Totals(w)) + Sum(TotalIOs(w))
  }

  lemma ProcWork(w: Workload, i: nat, p: Proc, cycle: nat, at: Point)
    requires i < |w.jobs| && ProcOk(w, i, p, cycle, at)
    ensures p.ioTime <= TotalIO(w, i) && p.cpuTime <= w.jobs[i].total
    ensures p.cpuTime == w.jobs[i].total <==> p.status == Terminated
  {
    DueIsTotalIO(w, i);
    if p.status != Terminated {
      DueMonotone(w, i, p.cpuTime, w.jobs[i].total - 1);
    }
  }

  // Unfinished work is left exactly as long as some process has not terminated.
  lemma WorkLeft(w: Workload, s: State)
    requires Inv(w, s, Boundary)
    ensures Work(s) <= Workloads(w)
    ensures (exists i :: 0 <= i < |s.ps| && s.ps[i].status != Terminated) ==> Work(s) < Workloads(w)
  {
    forall i | 0 <= i < |s.ps|
      ensures IoTimes(s)[i] <= TotalIOs(w)[i]
      ensures CpuTimes(s)[i] <= Totals(w)[i]
      ensures s.ps[i].status != Terminated ==> CpuTimes(s)[i] < Totals(w)[i] {
      ProcWork(w, i, s.ps[i], s.cycle, Boundary);
    }
    SumMonotone(CpuTimes(s), Totals(w));
    SumMonotone(IoTimes(s), TotalIOs(w));
  }

  // ----- The finished list

  function Ids(finished: seq<Snapshot>): (r: seq<nat>)
    ensures |r| == |finished|
  {
    seq(|finished|, k requires 0 <= k < |finished| => finished[k].id)
  }

  lemma FinishedDistinct(s: State)
    requires FinishedOk(s)
    ensures Distinct(Ids(s.finished)) && InRange(Ids(s.finished), |s.ps|)
  {
    var ids := Ids(s.finished);
    forall j, k | 0 <= j < k < |ids| ensures ids[j] != ids[k] {
      assert s.finished[j].proc.finishingTime < s.finished[k].proc.finishingTime;
    }
  }

  // The loop condition: all entries are there exactly when every process has terminated.
  lemma DoneMeansTerminated(w: Workload, s: State)
    requires Shape(w, s) && FinishedOk(s)
    ensures Done(w, s) <==> forall i :: 0 <= i < |s.ps| ==> s.ps[i].status == Terminated
  {
    FinishedDistinct(s);
    FinishedMeansTerminated(s);
    AllNumbers(Ids(s.finished), |s.ps|);
  }

  lemma FinishedMeansTerminated(s: State)
    requires FinishedOk(s)
    ensures forall i :: 0 <= i < |s.ps| ==> (s.ps[i].status == Terminated <==> i in Ids(s.finished))
  {
    var ids := Ids(s.finished);
    forall i | 0 <= i < |s.ps| ensures s.ps[i].status == Terminated <==> i in ids {
      if s.ps[i].status == Terminated {
        var k :| 0 <= k < |s.finished| && s.finished[k].id == i;
        assert ids[k] == i;
      }
      if i in ids {
        var k :| 0 <= k < |ids| && ids[k] == i;
        assert s.finished[k].id == i;
      }
    }
  }

  // ----- Termination and makespan

  // Once everybody has arrived, an unfinished cycle begins with somebody running or blocked.
  lemma SomebodyWorks(w: Workload, s: State)
    requires Inv(w, s, Boundary) && Busy(s) && !Done(w, s) && LastArrival(w.jobs) < s.cycle
    ensures s.running.Some? || s.blocked != []
  {
    DoneMeansTerminated(w, s);
    var i :| 0 <= i < |s.ps| && s.ps[i].status != Terminated;
    assert ProcOk(w, i, s.ps[i], s.cycle, Boundary) && Placed(s, i);
    assert w.jobs[i].arrival < s.cycle;
  }

  // Every cycle after the last arrival works off at least one unit.
  ghost predicate OnSchedule(w: Workload, s: State) {
    s.cycle <= LastArrival(w.jobs) + 1 + Work(s)
  }

  lemma StepOnSchedule(pol: Policy, w: Workload, s: State)
    requires Inv(w, s, Boundary) && Busy(s) && !Done(w, s) && OnSchedule(w, s)
    ensures OnSchedule(w, Step(pol, w, s))
  {
    hide Step;
    StepCpuSum(pol, w, s);
    StepIoSum(pol, w, s);
    if LastArrival(w.jobs) < s.cycle {
      SomebodyWorks(w, s);
    }
  }

  lemma {:induction false} RunOnSchedule(pol: Policy, w: Workload, garbage: nat, t: nat)
    requires forall u: nat :: u < t ==> !Done(w, After(pol, w, garbage, u))
    ensures OnSchedule(w, After(pol, w, garbage, t))
  {
    hide Step, Inv, Busy, Done;
    if t > 0 {
      RunOnSchedule(pol, w, garbage, t - 1);
      RunKeeps(pol, w, garbage, t - 1);
      AfterNext(pol, w, garbage, t);
      StepOnSchedule(pol, w, After(pol, w, garbage, t - 1));
    }
  }

  // The number of the last cycle is bounded by this.
  function MakespanBound(w: Workload): nat {
    LastArrival(w.jobs) + Workloads(w)
  }

  // While the loop still runs, the makespan bound has not been passed.
  lemma RunningInBound(pol: Policy, w: Workload, garbage: nat, t: nat)
    requires forall u: nat :: u <= t ==> !Done(w, After(pol, w, garbage, u))
    ensures t <= MakespanBound(w)
  {
    var s := After(pol, w, garbage, t);
    hide Step;
    RunOnSchedule(pol, w, garbage, t);
    RunKeeps(pol, w, garbage, t);
    DoneMeansTerminated(w, s);
    WorkLeft(w, s);
  }

  // The main loop ends, whatever the scheduler.
  lemma {:induction false} Terminates(pol: Policy, w: Workload, garbage: nat) returns (t: nat)
    ensures StopsAfter(pol, w, garbage, t)
    ensures t <= MakespanBound(w) + 1
  {
    hide Step, Done;
    t := 0;
    while !Done(w, After(pol, w, garbage, t))
      invariant forall u: nat :: u < t ==> !Done(w, After(pol, w, garbage, u))
      invariant t <= MakespanBound(w) + 1
      decreases MakespanBound(w) + 1 - t
    {
      RunningInBound(pol, w, garbage, t);
      t := t + 1;
    }
  }

  // ----- Outcome of a run

  // At most one process ends in a cycle, and its finishing time is that cycle.
  lemma StepFinishes(pol: Policy, w: Workload, s: State)
    requires Shape(w, s)
    ensures var r := Step(pol, w, s);
      r.finished == s.finished ||
      (|r.finished| == |s.finished| + 1 && r.finished[..|s.finished|] == s.finished &&
       r.finished[|s.finished|].proc.finishingTime == s.cycle)
  {
    var b := Admit(pol, w, TickBlocked(w, s), |w.jobs|);
    var c := TickRunning(w, b);
    assert c.finished == b.finished || (|c.finished| == |b.finished| + 1 && c.finished[..|b.finished|] == b.finished &&
       c.finished[|b.finished|].proc.finishingTime == b.cycle);
    assert Dispatch(pol, w, c).finished == c.finished;
  }

  // How a process ends: all its CPU time, its fixed I/O time, and every cycle accounted for.
  ghost predicate Completed(w: Workload, i: nat, p: Proc)
    requires i < |w.jobs|
  {
    && p.status == Terminated
    && p.cpuTime == w.jobs[i].total
    && p.ioTime == TotalIO(w, i)
    && p.finishingTime - w.jobs[i].arrival == w.jobs[i].total + TotalIO(w, i) + p.waitTime
  }

  lemma CompletedProc(w: Workload, i: nat, p: Proc, cycle: nat)
    requires i < |w.jobs| && ProcOk(w, i, p, cycle, Boundary) && p.status == Terminated
    ensures Completed(w, i, p) && p.finishingTime < cycle
  {
    DueIsTotalIO(w, i);
  }

  // What is known when the main loop has ended after t cycles.
  lemma Outcome(pol: Policy, w: Workload, garbage: nat, t: nat)
    requires StopsAfter(pol, w, garbage, t)
    ensures var s := After(pol, w, garbage, t);
      && (forall i :: 0 <= i < |s.ps| ==> Completed(w, i, s.ps[i]))
      && FinishedOk(s)
      && (forall i :: 0 <= i < |s.ps| ==> InFinished(s.finished, i))
      && (|w.jobs| > 0 ==> t >= 1 && t - 1 <= MakespanBound(w))
      && (forall i :: 0 <= i < |s.ps| ==> s.ps[i].finishingTime <= t - 1)
      && (|w.jobs| > 0 ==> exists i :: 0 <= i < |s.ps| && s.ps[i].finishingTime == t - 1)
  {
    hide Step;
    var s := After(pol, w, garbage, t);
    RunKeeps(pol, w, garbage, t);
    DoneMeansTerminated(w, s);
    forall i | 0 <= i < |s.ps|
      ensures Completed(w, i, s.ps[i]) && s.ps[i].finishingTime <= t - 1 {
      assert ProcOk(w, i, s.ps[i], s.cycle, Boundary);
      CompletedProc(w, i, s.ps[i], s.cycle);
    }
    if |w.jobs| > 0 {
      LastFinisher(pol, w, garbage, t);
    }
  }

  // The process that ended last ended in the last cycle.
  lemma LastFinisher(pol: Policy, w: Workload, garbage: nat, t: nat)
    requires StopsAfter(pol, w, garbage, t) && |w.jobs| > 0
    ensures t >= 1 && t - 1 <= MakespanBound(w)
    ensures var s := After(pol, w, garbage, t);
      exists i :: 0 <= i < |s.ps| && s.ps[i].finishingTime == t - 1
  {
    hide Step;
    assert t != 0;
    var r := After(pol, w, garbage, t - 1);
    var s := After(pol, w, garbage, t);
    RunningInBound(pol, w, garbage, t - 1);
    AfterNext(pol, w, garbage, t);
    RunKeeps(pol, w, garbage, t);
    StepFinishes(pol, w, r);
    var last := s.finished[|s.finished| - 1];
    assert last.proc.finishingTime == t - 1;
    assert s.ps[last.id].finishingTime == t - 1;
  }

  // ----- TOTAL_STARTED_PROCESSES

  ghost predicate StartedOk(s: State) {
    s.started == Sum(Starts(s))
  }

  lemma SameStartsKeeps(a: State, b: State)
    requires SameStarts(a, b) && StartedOk(a)
    ensures StartedOk(b)
  {
    assert Starts(a) == Starts(b);
  }

  lemma StartNextStarts(w: Workload, s: State)
    requires Shape(w, s) && StartedOk(s)
    ensures StartedOk(StartNext(w, s))
  {
    if s.ready != [] {
      var i := s.ready[0];
      SumUpdate(Starts(s), i, 1);
      assert Starts(StartNext(w, s)) == Starts(s)[i := 1];
    }
  }

  lemma DispatchStarts(pol: Policy, w: Workload, s: State)
    requires Shape(w, s) && StartedOk(s)
    ensures StartedOk(Dispatch(pol, w, s))
  {
    var t := if pol.RR? then Preempt(w, s.(quantumCounter := pol.quantum)) else s;
    SameStartsKeeps(s, t);
    if (pol.RR? && s.quantumCounter == 0) || s.running.None? {
      StartNextStarts(w, t);
    }
  }

  lemma StepStarts(pol: Policy, w: Workload, s: State)
    requires Shape(w, s) && StartedOk(s)
    ensures StartedOk(Step(pol, w, s))
  {
    hide Starts;
    var a := TickBlocked(w, s);
    TickTimes(w, s);
    SameStartsKeeps(s, a);
    var b := Admit(pol, w, a, |w.jobs|);
    AdmitTimes(pol, w, a, |w.jobs|);
    SameStartsKeeps(a, b);
    var c := TickRunning(w, b);
    ServeTimes(w, b);
    SameStartsKeeps(b, c);
    DispatchStarts(pol, w, c);
    SameStartsKeeps(Dispatch(pol, w, c), Step(pol, w, s));
  }

  lemma {:induction false} RunStarts(pol: Policy, w: Workload, garbage: nat, t: nat)
    ensures StartedOk(After(pol, w, garbage, t))
  {
    hide Step;
    if t == 0 {
      SumZero(Starts(Initial(w, garbage)));
    } else {
      RunStarts(pol, w, garbage, t - 1);
      AfterNext(pol, w, garbage, t);
      StepStarts(pol, w, After(pol, w, garbage, t - 1));
    }
  }

  // ----- The summary at the end

  lemma {:induction false} SumOnes(s: seq<nat>)
    requires forall i :: 0 <= i < |s| ==> s[i] == 1
    ensures Sum(s) == |s|
  {
    if s != [] {
      SumOnes(s[..|s| - 1]);
    }
  }

  // The utilisations printed at the end: CPU time and idle cycles make up the finishing time,
  // and the blocked cycles lie between the longest I/O time and all I/O time together.
  lemma Summary(pol: Policy, w: Workload, garbage: nat, t: nat)
    requires StopsAfter(pol, w, garbage, t) && |w.jobs| > 0
    ensures var s := After(pol, w, garbage, t);
      && Sum(Totals(w)) + IdleCycles(pol, w, garbage, t) == t - 1
      && (forall i :: 0 <= i < |w.jobs| ==> TotalIO(w, i) <= s.blockedCycles)
      && s.blockedCycles <= Sum(TotalIOs(w))
      && s.started == |w.jobs|
  {
    hide Step, StopsAfter;
    var s := After(pol, w, garbage, t);
    Outcome(pol, w, garbage, t);
    CpuAccounting(pol, w, garbage, t);
    BlockedCycles(pol, w, garbage, t);
    RunStarts(pol, w, garbage, t);
    RunKeeps(pol, w, garbage, t);
    assert CpuTimes(s) == Totals(w);
    assert IoTimes(s) == TotalIOs(w);
    forall i | 0 <= i < |s.ps| ensures TotalIO(w, i) <= s.blockedCycles && Starts(s)[i] == 1 {
      assert Completed(w, i, s.ps[i]) && ProcOk(w, i, s.ps[i], s.cycle, Boundary);
    }
    SumOnes(Starts(s));
  }

  // ----- No counter wraps

  // The workload is small enough for the 32-bit counters.
  ghost predicate Fits(w: Workload) {
    && MakespanBound(w) + 1 < TWO_TO_THE_32 / 2
    && forall i :: 0 <= i < |w.jobs| && Burst(w, i) <= w.jobs[i].total ==> BurstIO(w, i) < TWO_TO_THE_32
  }

  ghost predicate Fit(p: Proc) {
    && p.cpuTime < TWO_TO_THE_32 && p.ioTime < TWO_TO_THE_32 && p.waitTime < TWO_TO_THE_32
    && p.ioBurst < TWO_TO_THE_32 && p.cpuBurst < TWO_TO_THE_32
    && -1 <= p.finishingTime < TWO_TO_THE_32 / 2
  }

  lemma ModFacts(x: nat, b: nat)
    requires b >= 1
    ensures x % b <= x && x % b < b && (x < b ==> x % b == x)
  {
    MultiplyAtLeast(b, x / b);
    if x < b {
      DivModUnique(b, x, 0, x);
    }
  }

  // An I/O burst is only ever computed for a CPU burst that fits in the total.
  lemma BurstFits(w: Workload, i: nat, p: Proc)
    requires i < |w.jobs| && Bursts(w, i, p)
    ensures p.cpuBurst <= w.jobs[i].total
    ensures p.ioBurst > 0 ==> p.ioBurst <= BurstIO(w, i) && Burst(w, i) <= w.jobs[i].total
  {
    ModFacts(p.cpuTime, Burst(w, i));
    hide Burst, BurstIO;
  }

  lemma TimesFit(w: Workload, i: nat, p: Proc, cycle: nat)
    requires i < |w.jobs| && ProcOk(w, i, p, cycle, Boundary)
    ensures p.cpuTime <= cycle && p.ioTime <= cycle && p.waitTime <= cycle && -1 <= p.finishingTime < cycle
  {
  }

  lemma ProcFits(w: Workload, i: nat, p: Proc, cycle: nat)
    requires i < |w.jobs| && Fits(w) && cycle <= MakespanBound(w) + 1
    requires ProcOk(w, i, p, cycle, Boundary)
    ensures Fit(p)
  {
    hide Bursts, TimeConserved, BurstIO, Burst, Workloads, LastArrival;
    TimesFit(w, i, p, cycle);
    BurstFits(w, i, p);
    TotalFits(w, i);
  }

  lemma TotalFits(w: Workload, i: nat)
    requires i < |w.jobs|
    ensures w.jobs[i].total <= MakespanBound(w)
  {
    SumBoundsEach(Totals(w), i);
  }

  // Every process has at least one unit to run.
  lemma {:induction false} CountBounded(s: seq<nat>)
    requires forall i :: 0 <= i < |s| ==> s[i] >= 1
    ensures |s| <= Sum(s)
  {
    if s != [] {
      CountBounded(s[..|s| - 1]);
    }
  }

  // The numbers of started and of finished processes are at most that of all.
  lemma CountsFit(w: Workload, s: State)
    requires Inv(w, s, Boundary) && StartedOk(s)
    ensures s.started <= |w.jobs| && |s.finished| <= |w.jobs| && |w.jobs| <= MakespanBound(w)
  {
    var ones := seq(|s.ps|, i => 1);
    SumMonotone(Starts(s), ones);
    SumOnes(ones);
    FinishedDistinct(s);
    DistinctBound(Ids(s.finished), |s.ps|);
    CountBounded(Totals(w));
  }

  lemma {:induction false} AdmitSparesQuantum(pol: Policy, w: Workload, s: State, upto: nat)
    requires Shape(w, s) && upto <= |w.jobs|
    ensures Admit(pol, w, s, upto).quantumCounter == s.quantumCounter
  {
  }

  lemma StepQuantumFits(pol: Policy, w: Workload, s: State)
    requires Shape(w, s) && s.quantumCounter < TWO_TO_THE_32 && (pol.RR? ==> pol.quantum < TWO_TO_THE_32)
    ensures Step(pol, w, s).quantumCounter < TWO_TO_THE_32
  {
    var b := Admit(pol, w, TickBlocked(w, s), |w.jobs|);
    AdmitSparesQuantum(pol, w, TickBlocked(w, s), |w.jobs|);
    assert TickRunning(w, b).quantumCounter == b.quantumCounter;
    hide TickRunning, TickBlocked, Admit;
  }

  lemma {:induction false} QuantumFits(pol: Policy, w: Workload, garbage: nat, t: nat)
    requires garbage < TWO_TO_THE_32 && (pol.RR? ==> pol.quantum < TWO_TO_THE_32)
    ensures After(pol, w, garbage, t).quantumCounter < TWO_TO_THE_32
  {
    hide Step;
    if t > 0 {
      QuantumFits(pol, w, garbage, t - 1);
      AfterNext(pol, w, garbage, t);
      StepQuantumFits(pol, w, After(pol, w, garbage, t - 1));
    }
  }

  // As long as the loop runs, and when it has ended, every counter fits in its C type.
  lemma CountersFit(pol: Policy, w: Workload, garbage: nat, t: nat)
    requires Fits(w) && forall u: nat :: u < t ==> !Done(w, After(pol, w, garbage, u))
    ensures var s := After(pol, w, garbage, t);
      && s.cycle < TWO_TO_THE_32 && s.blockedCycles < TWO_TO_THE_32
      && s.started < TWO_TO_THE_32 && |s.finished| < TWO_TO_THE_32
      && (garbage < TWO_TO_THE_32 && (pol.RR? ==> pol.quantum < TWO_TO_THE_32) ==> s.quantumCounter < TWO_TO_THE_32)
      && forall i :: 0 <= i < |s.ps| ==> Fit(s.ps[i])
  {
    hide Step, Fit, Fits;
    var s := After(pol, w, garbage, t);
    if t > 0 {
      RunningInBound(pol, w, garbage, t - 1);
    }
    RunKeeps(pol, w, garbage, t);
    BlockedCycles(pol, w, garbage, t);
    RunStarts(pol, w, garbage, t);
    CountsFit(w, s);
    if garbage < TWO_TO_THE_32 && (pol.RR? ==> pol.quantum < TWO_TO_THE_32) {
      QuantumFits(pol, w, garbage, t);
    }
    WorkLeft(w, s);
    forall i | 0 <= i < |s.ps| ensures Fit(s.ps[i]) {
      ProcFits(w, i, s.ps[i], s.cycle);
    }
    BoundFits(w);
  }

  lemma BoundFits(w: Workload)
    requires Fits(w)
    ensures MakespanBound(w) + 1 < TWO_TO_THE_32
  {
  }

  // The schedulers differ only in how long they let a process wait: its I/O time, and its
  // turnaround less its waiting time, are the same under any two of them.
  lemma SchedulersAgree(pol: Policy, pol': Policy, w: Workload, garbage: nat, garbage': nat, t: nat, t': nat, i: nat)
    requires StopsAfter(pol, w, garbage, t) && StopsAfter(pol', w, garbage', t')
    requires i < |w.jobs|
    ensures var p, p' := After(pol, w, garbage, t).ps[i], After(pol', w, garbage', t').ps[i];
      var b := Burst(w, i);
      && p.ioTime == p'.ioTime == (w.jobs[i].total - 1) / b * (b * w.jobs[i].multiplier)
      && p.finishingTime - w.jobs[i].arrival - p.waitTime == p'.finishingTime - w.jobs[i].arrival - p'.waitTime
  {
    hide Step;
    Outcome(pol, w, garbage, t);
    Outcome(pol', w, garbage', t');
    assert Completed(w, i, After(pol, w, garbage, t).ps[i]);
    assert Completed(w, i, After(pol', w, garbage', t').ps[i]);
  }
}
