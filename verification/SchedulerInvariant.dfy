/**
 What every cycle of every scheduler keeps.

 The invariant is followed through the phases of a cycle. `at` says how far the cycle has
 come: Boundary between cycles, then Ticked (blocked list), Admitted (arrivals) and
 Served (running process, and after it the dispatch).
 */
module SchedulerInvariant {
  import opened Numbers
  import opened Seqs
  import opened Scheduler

  datatype Point = Boundary | Ticked | Admitted | Served

  // ----- I/O owed for CPU time

  // Every `burst` units of CPU time are followed by `io` units of I/O.
  function IODue(burst: nat, io: nat, cpu: nat): nat
    requires burst >= 1
  {
    if cpu == 0 then 0 else IODue(burst, io, cpu - 1) + if cpu % burst == 0 then io else 0
  }

  function Due(w: Workload, i: nat, cpu: nat): nat
    requires i < |w.jobs|
  {
    IODue(Burst(w, i), BurstIO(w, i), cpu)
  }

  lemma ModNext(x: nat, b: nat)
    requires b >= 1
    ensures (x + 1) % b == if x % b + 1 == b then 0 else x % b + 1
    ensures (x + 1) / b == if x % b + 1 == b then x / b + 1 else x / b
  {
    if x % b + 1 == b {
      assert b * (x / b + 1) == b * (x / b) + b;
      DivModUnique(b, x + 1, x / b + 1, 0);
    } else {
      DivModUnique(b, x + 1, x / b, x % b + 1);
    }
  }

  lemma DivModUnique(b: nat, x: nat, q: nat, r: nat)
    requires r < b && x == b * q + r
    ensures x / b == q && x % b == r
  {
    var d := x / b - q;
    assert b * d == b * (x / b) - b * q;
    MultiplyAtLeast(b, d);
  }

  // ----- One process

  // Where a process stands in its current burst, while it holds CPU burst time.
  ghost predicate InBurst(w: Workload, i: nat, p: Proc)
    requires i < |w.jobs|
  {
    var b := Burst(w, i);
    var left := w.jobs[i].total - p.cpuTime;
    && p.cpuTime < w.jobs[i].total
    && p.cpuBurst == Min(b - p.cpuTime % b, left)
    && p.ioBurst == if left >= b - p.cpuTime % b then BurstIO(w, i) else 0
  }

  // The burst counters agree with the CPU and I/O time so far.
  ghost predicate Bursts(w: Workload, i: nat, p: Proc)
    requires i < |w.jobs|
  {
    var total := w.jobs[i].total;
    match p.status
    case Unstarted => p == RESET_PROC
    case Ready =>
      && p.cpuTime < total && p.ioTime == Due(w, i, p.cpuTime)
      && if p.cpuBurst == 0 then p.cpuTime % Burst(w, i) == 0 && p.ioBurst == 0 else InBurst(w, i, p)
    case Running =>
      && p.cpuTime < total && p.ioTime == Due(w, i, p.cpuTime)
      && p.cpuBurst >= 1 && InBurst(w, i, p)
    case Blocked =>
      && p.cpuTime < total && p.cpuTime % Burst(w, i) == 0 && p.cpuBurst == 0
      && 1 <= p.ioBurst <= BurstIO(w, i) && p.ioTime + p.ioBurst == Due(w, i, p.cpuTime)
    case Terminated =>
      && p.cpuTime == total && p.cpuBurst == 0 && p.ioTime == Due(w, i, total - 1)
      && (p.ioBurst == 0 || (p.ioBurst == BurstIO(w, i) && Burst(w, i) <= total))
  }

  // Every cycle since the arrival is accounted for as CPU, I/O or waiting time.
  ghost predicate TimeConserved(w: Workload, i: nat, p: Proc, cycle: nat, at: Point)
    requires i < |w.jobs|
  {
    var spent := p.cpuTime + p.ioTime + p.waitTime;
    var arrival := w.jobs[i].arrival;
    var arrived := if at.Boundary? || at.Ticked? then arrival < cycle else arrival <= cycle;
    && (p.status == Unstarted <==> !arrived)
    && match p.status
    case Unstarted => true
    case Ready => arrival + spent == cycle
    case Running => arrival + spent + (if at.Served? then 0 else 1) == cycle
    case Blocked => arrival + spent + (if at.Boundary? then 1 else 0) == cycle
    case Terminated =>
      && p.finishingTime == arrival + spent
      && if at.Served? then p.finishingTime <= cycle else p.finishingTime < cycle
  }

  ghost predicate ProcOk(w: Workload, i: nat, p: Proc, cycle: nat, at: Point)
    requires i < |w.jobs|
  {
    && Bursts(w, i, p)
    && TimeConserved(w, i, p, cycle, at)
    && (p.status in {Running, Blocked, Terminated} ==> !p.firstTime)
    && (p.status != Terminated ==> p.finishingTime == -1)
  }

  ghost predicate ProcsOk(w: Workload, s: State, at: Point)
    requires Shape(w, s)
  {
    forall i :: 0 <= i < |s.ps| ==> ProcOk(w, i, s.ps[i], s.cycle, at)
  }

  // ----- The lists

  // Every process is in exactly the place its status names.
  ghost predicate Placed(s: State, i: nat)
    requires i < |s.ps|
  {
    && (s.ps[i].status == Ready <==> i in s.ready)
    && (s.ps[i].status == Blocked <==> i in s.blocked)
    && (s.ps[i].status == Running <==> s.running == Some(i))
  }

  ghost predicate Partition(s: State) {
    && Distinct(s.ready) && Distinct(s.blocked)
    && (forall i :: 0 <= i < |s.ps| ==> Placed(s, i))
  }

  // In order of remaining I/O, with some left for everybody.
  ghost predicate SortedBursts(ps: seq<Proc>, blocked: seq<nat>)
    requires InRange(blocked, |ps|)
  {
    forall j, k :: 0 <= j <= k < |blocked| ==> 1 <= ps[blocked[j]].ioBurst <= ps[blocked[k]].ioBurst
  }

  ghost predicate SortedBlocked(s: State)
    requires InRange(s.blocked, |s.ps|)
  {
    SortedBursts(s.ps, s.blocked)
  }

  // The finished list holds every terminated process once, as it still is, in order of time.
  ghost predicate FinishedOk(s: State) {
    && (forall k :: 0 <= k < |s.finished| ==>
          var f := s.finished[k];
          f.id < |s.ps| && f.proc == s.ps[f.id] && f.proc.status == Terminated)
    && (forall j, k :: 0 <= j < k < |s.finished| ==>
          s.finished[j].proc.finishingTime < s.finished[k].proc.finishingTime)
    && (forall i :: 0 <= i < |s.ps| && s.ps[i].status == Terminated ==> InFinished(s.finished, i))
  }

  ghost predicate InFinished(finished: seq<Snapshot>, i: nat) {
    exists k :: 0 <= k < |finished| && finished[k].id == i
  }

  ghost predicate Inv(w: Workload, s: State, at: Point) {
    && Shape(w, s)
    && ProcsOk(w, s, at)
    && Partition(s)
    && SortedBlocked(s)
    && FinishedOk(s)
  }

  // Work conservation: between cycles a waiting process implies a running one.
  ghost predicate Busy(s: State) {
    s.ready != [] ==> s.running.Some?
  }

  // ----- Phase 1

  // On a sorted list the head run of expiring bursts is all of them.
  lemma {:induction false} ExpiredFacts(ps: seq<Proc>, blocked: seq<nat>)
    requires InRange(blocked, |ps|)
    requires SortedBursts(ps, blocked)
    ensures forall j :: 0 <= j < |blocked| ==> (ps[blocked[j]].ioBurst == 1 <==> j < Expired(ps, blocked))
  {
    if blocked != [] {
      if ps[blocked[0]].ioBurst == 1 {
        var rest := blocked[1..];
        ExpiredFacts(ps, rest);
        forall j | 0 <= j < |blocked| ensures ps[blocked[j]].ioBurst == 1 <==> j < Expired(ps, blocked) {
          if j > 0 { assert blocked[j] == rest[j - 1]; }
        }
      }
    }
  }

  lemma TickBlockedProc(w: Workload, i: nat, p: Proc, cycle: nat)
    requires i < |w.jobs| && ProcOk(w, i, p, cycle, Boundary)
    ensures p.status == Blocked ==> ProcOk(w, i, TickIO(p), cycle, Ticked)
    ensures p.status != Blocked ==> ProcOk(w, i, p, cycle, Ticked)
  {
  }

  lemma TickBlockedSorted(w: Workload, s: State)
    requires Shape(w, s) && SortedBlocked(s)
    ensures SortedBlocked(TickBlocked(w, s))
  {
    var r := TickBlocked(w, s);
    var k := Expired(s.ps, s.blocked);
    ExpiredFacts(s.ps, s.blocked);
    forall a | 0 <= a < |r.blocked|
      ensures r.ps[r.blocked[a]].ioBurst == s.ps[s.blocked[k + a]].ioBurst - 1 >= 1 {
      assert r.blocked[a] == s.blocked[k + a];
      assert s.blocked[k + a] in s.blocked;
    }
  }

  lemma TickBlockedPartition(w: Workload, s: State)
    requires Shape(w, s) && Partition(s) && SortedBlocked(s)
    ensures Partition(TickBlocked(w, s))
  {
    var r := TickBlocked(w, s);
    var k := Expired(s.ps, s.blocked);
    ExpiredFacts(s.ps, s.blocked);
    ReadyNotBlocked(s);
    MoveFacts(s.ready, s.blocked, k);
    forall i | 0 <= i < |s.ps| ensures Placed(r, i) {
      assert Placed(s, i);
      assert i in s.blocked[..k] ==> s.ps[i].ioBurst == 1;
      assert i in s.blocked[k..] ==> s.ps[i].ioBurst != 1;
    }
  }

  lemma ReadyNotBlocked(s: State)
    requires Partition(s) && InRange(s.ready, |s.ps|)
    ensures forall i :: i in s.ready ==> i !in s.blocked && s.running != Some(i)
  {
    forall i | i in s.ready ensures i !in s.blocked && s.running != Some(i) {
      assert Placed(s, i);
    }
  }

  lemma TickBlockedKeeps(w: Workload, s: State)
    requires Inv(w, s, Boundary)
    ensures Inv(w, TickBlocked(w, s), Ticked)
  {
    var r := TickBlocked(w, s);
    TickBlockedPartition(w, s);
    TickBlockedSorted(w, s);
    forall i | 0 <= i < |s.ps| ensures ProcOk(w, i, r.ps[i], r.cycle, Ticked) {
      assert Placed(s, i);
      TickBlockedProc(w, i, s.ps[i], s.cycle);
    }
    assert FinishedOk(r) by {
      forall i | 0 <= i < |s.ps| ensures s.ps[i].status == Terminated ==> r.ps[i] == s.ps[i] {
        assert Placed(s, i);
      }
    }
  }

  // ----- Phase 2

  // Halfway through the process list, the arrivals before `upto` have been admitted.
  ghost predicate AdmittedUpTo(w: Workload, s: State, upto: nat) {
    && Shape(w, s)
    && (forall i :: 0 <= i < |s.ps| ==> ProcOk(w, i, s.ps[i], s.cycle, if i < upto then Admitted else Ticked))
    && Partition(s)
    && SortedBlocked(s)
    && FinishedOk(s)
  }

  lemma EnterReadyMembers(pol: Policy, w: Workload, ps: seq<Proc>, ready: seq<nat>, i: nat)
    requires |ps| == |w.jobs| && i < |ps| && InRange(ready, |ps|)
    ensures forall j :: j in EnterReady(pol, w, ps, ready, i) <==> j == i || j in ready
    ensures Distinct(ready) && i !in ready ==> Distinct(EnterReady(pol, w, ps, ready, i))
    ensures EnterReady(pol, w, ps, ready, i) != []
  {
    if pol.SJF? {
      InsertAtFacts(ready, SjfPosition(w, ps, ready, i), i);
    }
  }

  lemma ArrivedBursts(w: Workload, i: nat, p: Proc)
    requires i < |w.jobs| && Bursts(w, i, p) && p.status == Unstarted
    ensures Bursts(w, i, p.(status := Ready))
  {
    hide Burst, BurstIO;
    assert 0 % Burst(w, i) == 0;
  }

  lemma ArrivalProc(w: Workload, i: nat, p: Proc, cycle: nat)
    requires i < |w.jobs| && ProcOk(w, i, p, cycle, Ticked)
    ensures w.jobs[i].arrival == cycle ==>
              p.status == Unstarted && ProcOk(w, i, p.(status := Ready), cycle, Admitted)
    ensures w.jobs[i].arrival != cycle ==> ProcOk(w, i, p, cycle, Admitted)
  {
    if w.jobs[i].arrival == cycle {
      assert Bursts(w, i, p) && p.status == Unstarted;
      ArrivedBursts(w, i, p);
    }
    assert p.status == Unstarted ==> p == RESET_PROC;
    hide Bursts;
  }

  // Making an unlisted process ready and entering it in the queue.
  lemma EnterReadyLists(pol: Policy, w: Workload, s: State, i: nat)
    requires Shape(w, s) && Partition(s) && SortedBlocked(s) && FinishedOk(s)
    requires i < |s.ps| && s.ps[i].status == Unstarted
    ensures var r := s.(ps := s.ps[i := s.ps[i].(status := Ready)], ready := EnterReady(pol, w, s.ps, s.ready, i));
            Partition(r) && SortedBlocked(r) && FinishedOk(r)
  {
    var r := s.(ps := s.ps[i := s.ps[i].(status := Ready)], ready := EnterReady(pol, w, s.ps, s.ready, i));
    EnterReadyMembers(pol, w, s.ps, s.ready, i);
    assert Placed(s, i);
    forall j | 0 <= j < |s.ps| ensures Placed(r, j) {
      assert Placed(s, j);
    }
  }

  lemma {:induction false} AdmitKeeps(pol: Policy, w: Workload, s: State, upto: nat)
    requires Inv(w, s, Ticked) && upto <= |w.jobs|
    ensures AdmittedUpTo(w, Admit(pol, w, s, upto), upto)
  {
    if upto > 0 {
      AdmitKeeps(pol, w, s, upto - 1);
      var i := upto - 1;
      var t := Admit(pol, w, s, i);
      ArrivalProc(w, i, t.ps[i], s.cycle);
      if w.jobs[i].arrival == s.cycle {
        EnterReadyLists(pol, w, t, i);
      }
    }
  }

  // ----- Phase 3

  lemma {:induction false} BlockedPositionFacts(ps: seq<Proc>, blocked: seq<nat>, burst: nat)
    requires InRange(blocked, |ps|)
    requires SortedBursts(ps, blocked)
    ensures forall j :: 0 <= j < |blocked| ==>
      (j < BlockedPosition(ps, blocked, burst) <==> ps[blocked[j]].ioBurst <= burst)
  {
    if blocked != [] && burst >= ps[blocked[0]].ioBurst {
      var rest := blocked[1..];
      BlockedPositionFacts(ps, rest, burst);
      forall j | 0 <= j < |blocked|
        ensures j < BlockedPosition(ps, blocked, burst) <==> ps[blocked[j]].ioBurst <= burst {
        if j > 0 { assert blocked[j] == rest[j - 1]; }
      }
    }
  }

  // What one unit of CPU time makes of a running process.
  lemma TickRunningProc(w: Workload, i: nat, p: Proc, cycle: nat)
    requires i < |w.jobs| && p.status == Running && ProcOk(w, i, p, cycle, Admitted)
    ensures var q := TickCPU(p);
      && q.cpuBurst == p.cpuBurst - 1
      && (q.cpuTime == w.jobs[i].total ==>
            ProcOk(w, i, q.(status := Terminated, finishingTime := cycle), cycle, Served))
      && (q.cpuTime != w.jobs[i].total && q.cpuBurst == 0 ==>
            ProcOk(w, i, q.(status := Blocked), cycle, Served))
      && (q.cpuTime != w.jobs[i].total && q.cpuBurst != 0 ==>
            ProcOk(w, i, q, cycle, Served))
  {
    ModNext(p.cpuTime, Burst(w, i));
  }

  lemma OtherProc(w: Workload, i: nat, p: Proc, cycle: nat)
    requires i < |w.jobs| && p.status != Running && ProcOk(w, i, p, cycle, Admitted)
    ensures ProcOk(w, i, p, cycle, Served)
  {
  }

  lemma InsertSorted(ps: seq<Proc>, blocked: seq<nat>, i: nat)
    requires InRange(blocked, |ps|) && i < |ps|
    requires SortedBursts(ps, blocked) && ps[i].ioBurst >= 1
    ensures var r := InsertAt(blocked, BlockedPosition(ps, blocked, ps[i].ioBurst), i);
            InRange(r, |ps|) && SortedBursts(ps, r)
  {
    var k := BlockedPosition(ps, blocked, ps[i].ioBurst);
    BlockedPositionFacts(ps, blocked, ps[i].ioBurst);
    var r := InsertAt(blocked, k, i);
    forall m | 0 <= m < |r|
      ensures r[m] < |ps| && ps[r[m]].ioBurst >= 1
      ensures m > 0 ==> ps[r[m - 1]].ioBurst <= ps[r[m]].ioBurst {
      if m < k {
        assert r[m] == blocked[m];
      } else if m > k {
        assert r[m] == blocked[m - 1];
      }
      if 0 < m <= k {
        assert r[m - 1] == blocked[m - 1];
      } else if k + 1 < m {
        assert r[m - 1] == blocked[m - 2];
      }
    }
    SortedFromNeighbours(ps, r);
  }

  lemma {:induction false} SortedFromNeighbours(ps: seq<Proc>, blocked: seq<nat>)
    requires InRange(blocked, |ps|)
    requires forall m :: 0 <= m < |blocked| ==> ps[blocked[m]].ioBurst >= 1
    requires forall m :: 0 < m < |blocked| ==> ps[blocked[m - 1]].ioBurst <= ps[blocked[m]].ioBurst
    ensures SortedBursts(ps, blocked)
  {
    if blocked != [] {
      var last := |blocked| - 1;
      SortedFromNeighbours(ps, blocked[..last]);
      forall j, k | 0 <= j <= k < |blocked| ensures ps[blocked[j]].ioBurst <= ps[blocked[k]].ioBurst {
        if j < k == last {
          assert blocked[..last][j] == blocked[j] && blocked[..last][last - 1] == blocked[last - 1];
        } else if k < last {
          assert blocked[..last][j] == blocked[j] && blocked[..last][k] == blocked[k];
        }
      }
    }
  }

  lemma EnterBlockedLists(s: State, i: nat)
    requires InRange(s.ready, |s.ps|) && InRange(s.blocked, |s.ps|) && i < |s.ps|
    requires Partition(s) && SortedBlocked(s)
    requires s.running == Some(i) && s.ps[i].ioBurst >= 1
    ensures var r := EnterBlocked(s.(running := None), i); Partition(r) && SortedBlocked(r)
  {
    var k := BlockedPosition(s.ps, s.blocked, s.ps[i].ioBurst);
    var r := EnterBlocked(s.(running := None), i);
    assert Placed(s, i);
    assert Partition(r) by {
      InsertAtFacts(s.blocked, k, i);
      forall j | 0 <= j < |s.ps| ensures Placed(r, j) {
        assert Placed(s, j);
      }
    }
    InsertSorted(s.ps, s.blocked, i);
    assert forall m :: 0 <= m < |r.ps| ==> r.ps[m].ioBurst == s.ps[m].ioBurst;
  }

  lemma TerminateFinished(s: State, i: nat, q: Proc)
    requires FinishedOk(s) && i < |s.ps| && s.ps[i].status != Terminated && q.status == Terminated
    requires forall j :: 0 <= j < |s.ps| && s.ps[j].status == Terminated ==> s.ps[j].finishingTime < q.finishingTime
    ensures FinishedOk(s.(ps := s.ps[i := q], running := None, finished := s.finished + [Snapshot(i, q)]))
  {
    var r := s.(ps := s.ps[i := q], running := None, finished := s.finished + [Snapshot(i, q)]);
    forall j | 0 <= j < |r.ps| && r.ps[j].status == Terminated ensures InFinished(r.finished, j) {
      if j == i {
        assert r.finished[|s.finished|].id == i;
      } else {
        var k :| 0 <= k < |s.finished| && s.finished[k].id == j;
        assert r.finished[k].id == j;
      }
    }
  }

  lemma TickRunningProcs(w: Workload, s: State)
    requires Inv(w, s, Admitted)
    ensures ProcsOk(w, TickRunning(w, s), Served)
  {
    var r := TickRunning(w, s);
    forall j | 0 <= j < |s.ps| ensures ProcOk(w, j, r.ps[j], r.cycle, Served) {
      assert Placed(s, j);
      if s.running == Some(j) {
        TickRunningProc(w, j, s.ps[j], s.cycle);
      } else {
        OtherProc(w, j, s.ps[j], s.cycle);
      }
    }
  }

  lemma TickRunningKeeps(w: Workload, s: State)
    requires Inv(w, s, Admitted)
    ensures Inv(w, TickRunning(w, s), Served)
  {
    TickRunningProcs(w, s);
    if s.running.Some? {
      var i := s.running.value;
      var p := TickCPU(s.ps[i]);
      var t := s.(ps := s.ps[i := p]);
      assert Placed(s, i);
      TickRunningProc(w, i, s.ps[i], s.cycle);
      if p.cpuTime == w.jobs[i].total {
        TerminateFinished(s, i, p.(status := Terminated, finishingTime := s.cycle));
        TerminateLists(s, i, p.(status := Terminated, finishingTime := s.cycle));
      } else {
        TickCPULists(s, i, p);
        if p.cpuBurst == 0 {
          EnterBlockedLists(t, i);
        }
      }
    }
  }

  // Changing a process that is on neither list disturbs neither.
  lemma TickCPULists(s: State, i: nat, p: Proc)
    requires InRange(s.ready, |s.ps|) && InRange(s.blocked, |s.ps|) && i < |s.ps|
    requires Partition(s) && SortedBlocked(s) && FinishedOk(s)
    requires s.ps[i].status == p.status == Running
    ensures var t := s.(ps := s.ps[i := p]); Partition(t) && SortedBlocked(t) && FinishedOk(t)
  {
    var t := s.(ps := s.ps[i := p]);
    assert Placed(s, i);
    forall j | 0 <= j < |s.ps| ensures Placed(t, j) {
      assert Placed(s, j);
    }
  }

  lemma TerminateLists(s: State, i: nat, q: Proc)
    requires InRange(s.ready, |s.ps|) && InRange(s.blocked, |s.ps|) && i < |s.ps|
    requires Partition(s) && SortedBlocked(s)
    requires s.ps[i].status == Running && q.status == Terminated
    ensures var r := s.(ps := s.ps[i := q], running := None, finished := s.finished + [Snapshot(i, q)]);
            Partition(r) && SortedBlocked(r)
  {
    var r := s.(ps := s.ps[i := q], running := None, finished := s.finished + [Snapshot(i, q)]);
    assert Placed(s, i);
    forall j | 0 <= j < |s.ps| ensures Placed(r, j) {
      assert Placed(s, j);
    }
  }

  // ----- Phase 4

  lemma StartProc(w: Workload, i: nat, p: Proc, cycle: nat)
    requires i < |w.jobs| && p.status == Ready && ProcOk(w, i, p, cycle, Served)
    ensures ProcOk(w, i, StartProcess(w, i, p), cycle, Served)
    ensures StartProcess(w, i, p).status == Running
  {
  }

  lemma StartNextKeeps(w: Workload, s: State)
    requires Inv(w, s, Served) && s.running.None?
    ensures Inv(w, StartNext(w, s), Served)
    ensures Busy(StartNext(w, s))
  {
    if s.ready != [] {
      var i := s.ready[0];
      var r := StartNext(w, s);
      assert Placed(s, i) && i in s.ready;
      StartProc(w, i, s.ps[i], s.cycle);
      assert s.ready == [i] + s.ready[1..];
      forall j | 0 <= j < |s.ps| ensures Placed(r, j) {
        assert Placed(s, j);
      }
      assert SortedBlocked(r);
    }
  }

  lemma PreemptProc(w: Workload, i: nat, p: Proc, cycle: nat)
    requires i < |w.jobs| && p.status == Running && ProcOk(w, i, p, cycle, Served)
    ensures ProcOk(w, i, p.(status := Ready), cycle, Served)
  {
  }

  lemma PreemptKeeps(w: Workload, s: State)
    requires Inv(w, s, Served)
    ensures Inv(w, Preempt(w, s), Served)
  {
    if s.running.Some? {
      var i := s.running.value;
      var r := Preempt(w, s);
      assert Placed(s, i);
      PreemptProc(w, i, s.ps[i], s.cycle);
      forall j | 0 <= j < |s.ps| ensures Placed(r, j) {
        assert Placed(s, j);
      }
      assert SortedBlocked(r);
    }
  }

  lemma QuantumKeeps(w: Workload, s: State, q: nat, at: Point)
    requires Inv(w, s, at)
    ensures Inv(w, s.(quantumCounter := q), at)
  {
    var r := s.(quantumCounter := q);
    forall j | 0 <= j < |s.ps| ensures Placed(r, j) {
      assert Placed(s, j);
    }
    assert forall j :: 0 <= j < |s.ps| ==> ProcOk(w, j, s.ps[j], s.cycle, at);
  }

  lemma DispatchKeeps(pol: Policy, w: Workload, s: State)
    requires Inv(w, s, Served)
    ensures Inv(w, Dispatch(pol, w, s), Served)
    ensures Busy(Dispatch(pol, w, s))
  {
    if pol.RR? && s.quantumCounter == 0 {
      QuantumKeeps(w, s, pol.quantum, Served);
      PreemptKeeps(w, s.(quantumCounter := pol.quantum));
      StartNextKeeps(w, Preempt(w, s.(quantumCounter := pol.quantum)));
    } else if s.running.None? {
      var q := if pol.RR? then pol.quantum else s.quantumCounter;
      QuantumKeeps(w, s, q, Served);
      StartNextKeeps(w, s.(quantumCounter := q));
    }
  }

  // ----- Phase 5

  lemma ChargeProc(w: Workload, i: nat, p: Proc, cycle: nat)
    requires i < |w.jobs| && ProcOk(w, i, p, cycle, Served)
    ensures p.status == Ready ==> ProcOk(w, i, p.(waitTime := p.waitTime + 1), cycle + 1, Boundary)
    ensures p.status != Ready ==> ProcOk(w, i, p, cycle + 1, Boundary)
  {
  }

  lemma ChargeKeeps(pol: Policy, w: Workload, s: State)
    requires Inv(w, s, Served)
    ensures Inv(w, Advance(pol, w, ChargeWaiting(w, s)), Boundary)
  {
    hide Bursts, TimeConserved;
    var r := Advance(pol, w, ChargeWaiting(w, s));
    forall i | 0 <= i < |s.ps| ensures ProcOk(w, i, r.ps[i], r.cycle, Boundary) {
      assert Placed(s, i);
      ChargeProc(w, i, s.ps[i], s.cycle);
    }
    forall i | 0 <= i < |s.ps| ensures Placed(r, i) {
      assert Placed(s, i);
    }
    assert FinishedOk(r) by {
      forall i | 0 <= i < |s.ps| ensures s.ps[i].status == Terminated ==> r.ps[i] == s.ps[i] {
        assert Placed(s, i);
      }
    }
  }

  // ----- Cycles and runs

  lemma BeforeDispatchKeeps(pol: Policy, w: Workload, s: State)
    requires Inv(w, s, Boundary)
    ensures Inv(w, BeforeDispatch(pol, w, s), Served)
  {
    var a := TickBlocked(w, s);
    TickBlockedKeeps(w, s);
    AdmitKeeps(pol, w, a, |w.jobs|);
    var b := Admit(pol, w, a, |w.jobs|);
    assert Inv(w, b, Admitted);
    TickRunningKeeps(w, b);
  }

  lemma StepKeeps(pol: Policy, w: Workload, s: State)
    requires Inv(w, s, Boundary)
    ensures Inv(w, Step(pol, w, s), Boundary)
    ensures Busy(Step(pol, w, s))
  {
    BeforeDispatchKeeps(pol, w, s);
    DispatchKeeps(pol, w, BeforeDispatch(pol, w, s));
    ChargeKeeps(pol, w, Dispatch(pol, w, BeforeDispatch(pol, w, s)));
  }

  lemma InitialOk(w: Workload, garbage: nat)
    ensures Inv(w, Initial(w, garbage), Boundary) && Busy(Initial(w, garbage))
  {
    var s := Initial(w, garbage);
    forall i | 0 <= i < |s.ps| ensures ProcOk(w, i, s.ps[i], s.cycle, Boundary) && Placed(s, i) {
    }
  }

  lemma AfterNext(pol: Policy, w: Workload, garbage: nat, t: nat)
    requires t > 0
    ensures After(pol, w, garbage, t) == Step(pol, w, After(pol, w, garbage, t - 1))
  {
  }

  lemma NextKeeps(pol: Policy, w: Workload, garbage: nat, t: nat)
    requires t > 0 && Inv(w, After(pol, w, garbage, t - 1), Boundary)
    ensures Inv(w, After(pol, w, garbage, t), Boundary) && Busy(After(pol, w, garbage, t))
  {
    AfterNext(pol, w, garbage, t);
    StepKeeps(pol, w, After(pol, w, garbage, t - 1));
  }

  // The invariant of every run, between cycles.
  lemma {:induction false} RunKeeps(pol: Policy, w: Workload, garbage: nat, t: nat)
    ensures Inv(w, After(pol, w, garbage, t), Boundary) && Busy(After(pol, w, garbage, t))
  {
    hide Step, Inv;
    if t == 0 {
      InitialOk(w, garbage);
    } else {
      RunKeeps(pol, w, garbage, t - 1);
      NextKeeps(pol, w, garbage, t);
    }
  }
}
