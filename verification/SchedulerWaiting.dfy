/** How long a process waits in the ready queue, and when Round Robin is FCFS. */
module SchedulerWaiting {
  import opened Numbers
  import opened Seqs
  import opened Scheduler
  import opened SchedulerInvariant

  // ----- Before the dispatch, the queue only grows at its end (FCFS and Round Robin)

  ghost predicate QueueGrew(a: State, b: State) {
    && |a.ps| == |b.ps|
    && a.ready <= b.ready
    && forall i :: 0 <= i < |a.ps| && i in a.ready ==> b.ps[i] == a.ps[i]
  }

  lemma {:induction false} AdmitGrows(pol: Policy, w: Workload, s: State, upto: nat)
    requires Inv(w, s, Ticked) && !pol.SJF? && upto <= |w.jobs|
    ensures QueueGrew(s, Admit(pol, w, s, upto))
  {
    hide Bursts, TimeConserved;
    if upto > 0 {
      AdmitGrows(pol, w, s, upto - 1);
      AdmitKeeps(pol, w, s, upto - 1);
      var t := Admit(pol, w, s, upto - 1);
      ArrivalProc(w, upto - 1, t.ps[upto - 1], s.cycle);
      assert Placed(t, upto - 1);
    }
  }

  lemma TickGrows(w: Workload, s: State)
    requires Inv(w, s, Boundary)
    ensures QueueGrew(s, TickBlocked(w, s))
  {
    hide ProcOk;
    forall i | 0 <= i < |s.ps| && i in s.ready ensures i !in s.blocked {
      assert Placed(s, i);
    }
  }

  lemma ServeGrows(w: Workload, s: State)
    requires Inv(w, s, Admitted)
    ensures QueueGrew(s, TickRunning(w, s))
  {
    hide ProcOk;
    forall i | 0 <= i < |s.ps| && i in s.ready ensures s.running != Some(i) {
      assert Placed(s, i);
    }
  }

  lemma {:induction false} AdmitSparesRunning(pol: Policy, w: Workload, s: State, upto: nat)
    requires Inv(w, s, Ticked) && upto <= |w.jobs| && s.running.Some?
    ensures Admit(pol, w, s, upto).ps[s.running.value] == s.ps[s.running.value]
  {
    hide Bursts, TimeConserved;
    if upto > 0 {
      AdmitSparesRunning(pol, w, s, upto - 1);
      AdmitKeeps(pol, w, s, upto - 1);
      var t := Admit(pol, w, s, upto - 1);
      ArrivalProc(w, upto - 1, t.ps[upto - 1], s.cycle);
      assert Placed(t, upto - 1);
    }
  }

  // The running process loses one unit of its burst, and leaves the CPU just when it has none left.
  ghost predicate Served1(a: State, b: State)
    requires a.running.Some? && a.running.value < |a.ps| == |b.ps|
  {
    var i := a.running.value;
    && a.ps[i].cpuBurst >= 1
    && (b.running == None || b.running == a.running)
    && (b.running == None <==> a.ps[i].cpuBurst == 1)
    && (b.running.Some? ==> b.ps[i].cpuBurst == a.ps[i].cpuBurst - 1)
  }

  lemma ServeRunning(w: Workload, s: State)
    requires Inv(w, s, Admitted) && s.running.Some?
    ensures Served1(s, TickRunning(w, s))
  {
    var i := s.running.value;
    assert Placed(s, i);
    assert ProcOk(w, i, s.ps[i], s.cycle, Admitted);
    TickRunningProc(w, i, s.ps[i], s.cycle);
  }

  lemma AdmittedOk(pol: Policy, w: Workload, s: State)
    requires Inv(w, s, Boundary)
    ensures Inv(w, TickBlocked(w, s), Ticked)
    ensures Inv(w, Admit(pol, w, TickBlocked(w, s), |w.jobs|), Admitted)
  {
    TickBlockedKeeps(w, s);
    AdmitKeeps(pol, w, TickBlocked(w, s), |w.jobs|);
  }

  lemma InvShape(w: Workload, s: State, at: Point)
    requires Inv(w, s, at)
    ensures Shape(w, s)
  {
  }

  lemma QueueGrewTwice(a: State, b: State, c: State)
    requires QueueGrew(a, b) && QueueGrew(b, c)
    ensures QueueGrew(a, c)
  {
    assert forall i :: i in a.ready ==> i in b.ready;
  }

  lemma BeforeDispatchQueue(pol: Policy, w: Workload, s: State)
    requires Inv(w, s, Boundary) && !pol.SJF?
    ensures QueueGrew(s, BeforeDispatch(pol, w, s))
  {
    hide Inv, QueueGrew, TickRunning, TickBlocked, Admit;
    AdmittedOk(pol, w, s);
    InvShape(w, s, Boundary);
    var a := TickBlocked(w, s);
    var b := Admit(pol, w, a, |w.jobs|);
    TickGrows(w, s);
    AdmitGrows(pol, w, a, |w.jobs|);
    QueueGrewTwice(s, a, b);
    ServeGrows(w, b);
    QueueGrewTwice(s, b, TickRunning(w, b));
  }

  lemma BeforeDispatchRunning(pol: Policy, w: Workload, s: State)
    requires Inv(w, s, Boundary)
    ensures var c := BeforeDispatch(pol, w, s);
      && (s.running.None? ==> c.running.None?)
      && (s.running.Some? ==> s.running.value < |s.ps| == |c.ps| && Served1(s, c))
      && c.quantumCounter == s.quantumCounter
  {
    hide Inv, TickRunning, TickBlocked;
    AdmittedOk(pol, w, s);
    InvShape(w, s, Boundary);
    var a := TickBlocked(w, s);
    InvShape(w, a, Ticked);
    var b := Admit(pol, w, a, |w.jobs|);
    TickSparesRunning(w, s);
    ServeSparesQuantum(w, b);
    if s.running.Some? {
      AdmitSparesRunning(pol, w, a, |w.jobs|);
      ServeRunning(w, b);
    }
  }

  lemma TickSparesRunning(w: Workload, s: State)
    requires Inv(w, s, Boundary)
    ensures var r := TickBlocked(w, s);
      && r.running == s.running && r.quantumCounter == s.quantumCounter
      && (s.running.Some? ==> r.ps[s.running.value] == s.ps[s.running.value])
  {
    hide ProcOk;
    if s.running.Some? {
      assert Placed(s, s.running.value);
    }
  }

  lemma ServeSparesQuantum(w: Workload, s: State)
    requires Shape(w, s)
    ensures TickRunning(w, s).quantumCounter == s.quantumCounter
    ensures s.running.None? ==> TickRunning(w, s) == s
  {
  }

  // ----- Round Robin: bounded waiting

  // Ranks the waiting process at place k. It drops in every cycle, whatever joins behind.
  function Rank(quantum: nat, k: nat, counter: nat): nat {
    k * quantum + counter + 1
  }

  // The place of a process in the queue after a cycle, seen from the place before.
  ghost predicate Moved(s: State, k: nat, r: State, k': nat) {
    k < |s.ready| && k' < |r.ready| && r.ready[k'] == s.ready[k]
  }

  lemma RoundRobinDispatch(w: Workload, q: nat, c: State, k: nat)
    requires Inv(w, c, Served) && q >= 1 && k < |c.ready|
    ensures var r := Advance(RR(q), w, ChargeWaiting(w, Dispatch(RR(q), w, c)));
      if c.quantumCounter == 0 || c.running.None? then
        r.quantumCounter == q - 1 && if k == 0 then r.running == Some(c.ready[0]) else Moved(c, k, r, k - 1)
      else
        r.quantumCounter == c.quantumCounter - 1 && Moved(c, k, r, k)
  {
  }

  lemma RoundRobinStep(w: Workload, q: nat, s: State, k: nat) returns (k': nat)
    requires Inv(w, s, Boundary) && q >= 1 && s.quantumCounter < q && k < |s.ready|
    ensures var r := Step(RR(q), w, s);
      && r.quantumCounter < q
      && (r.running == Some(s.ready[k]) ||
          (Moved(s, k, r, k') && Rank(q, k', r.quantumCounter) < Rank(q, k, s.quantumCounter)))
  {
    hide Inv, Dispatch, BeforeDispatch;
    InvShape(w, s, Boundary);
    var c := BeforeDispatch(RR(q), w, s);
    BeforeDispatchQueue(RR(q), w, s);
    BeforeDispatchRunning(RR(q), w, s);
    BeforeDispatchKeeps(RR(q), w, s);
    InvShape(w, c, Served);
    RoundRobinDispatch(w, q, c, k);
    k' := if (c.quantumCounter == 0 || c.running.None?) && k > 0 then k - 1 else k;
    assert k > 0 ==> (k - 1) * q == k * q - q;
  }

  // After a first cycle the quantum counter is always below the quantum.
  lemma RoundRobinCounterStep(w: Workload, q: nat, s: State)
    requires Inv(w, s, Boundary) && q >= 1 && (s.quantumCounter < q || s.running.None?)
    ensures Step(RR(q), w, s).quantumCounter < q
  {
    hide Inv, BeforeDispatch;
    InvShape(w, s, Boundary);
    BeforeDispatchRunning(RR(q), w, s);
  }

  lemma {:induction false} RoundRobinCounter(w: Workload, q: nat, garbage: nat, t: nat)
    requires q >= 1
    ensures var s := After(RR(q), w, garbage, t); s.quantumCounter < q || (t == 0 && s.running.None? && s.ready == [])
  {
    hide Step;
    if t > 0 {
      RoundRobinCounter(w, q, garbage, t - 1);
      RunKeeps(RR(q), w, garbage, t - 1);
      AfterNext(RR(q), w, garbage, t);
      RoundRobinCounterStep(w, q, After(RR(q), w, garbage, t - 1));
    }
  }

  // A waiting process leaves the queue, for the CPU, before its rank is used up.
  lemma {:induction false} RoundRobinWaits(w: Workload, q: nat, garbage: nat, t: nat, k: nat) returns (u: nat)
    requires q >= 1 && k < |After(RR(q), w, garbage, t).ready|
    ensures var s := After(RR(q), w, garbage, t);
      && 1 <= u <= Rank(q, k, s.quantumCounter)
      && (forall v: nat :: t <= v < t + u ==> s.ready[k] in After(RR(q), w, garbage, v).ready)
      && After(RR(q), w, garbage, t + u).running == Some(s.ready[k])
    decreases Rank(q, k, After(RR(q), w, garbage, t).quantumCounter)
  {
    hide Step, Inv, Rank;
    var s := After(RR(q), w, garbage, t);
    RunKeeps(RR(q), w, garbage, t);
    RoundRobinCounter(w, q, garbage, t);
    AfterNext(RR(q), w, garbage, t + 1);
    var k' := RoundRobinStep(w, q, s, k);
    assert s.ready[k] in s.ready;
    RankPositive(q, k, s.quantumCounter);
    if After(RR(q), w, garbage, t + 1).running == Some(s.ready[k]) {
      u := 1;
    } else {
      var u' := RoundRobinWaits(w, q, garbage, t + 1, k');
      u := u' + 1;
    }
  }

  lemma RankPositive(q: nat, k: nat, counter: nat)
    ensures Rank(q, k, counter) >= 1
  {
    MultiplyAtLeast(q, k);
  }

  // With n processes, any stay in the ready queue lasts at most (n-1) quanta.
  lemma RoundRobinBoundedWaiting(w: Workload, q: nat, garbage: nat, t: nat, i: nat) returns (u: nat)
    requires q >= 1 && i in After(RR(q), w, garbage, t).ready
    ensures 1 <= u <= (|w.jobs| - 1) * q
    ensures forall v: nat :: t <= v < t + u ==> i in After(RR(q), w, garbage, v).ready
    ensures After(RR(q), w, garbage, t + u).running == Some(i)
  {
    hide Step;
    var s := After(RR(q), w, garbage, t);
    var k :| 0 <= k < |s.ready| && s.ready[k] == i;
    RunKeeps(RR(q), w, garbage, t);
    RoundRobinCounter(w, q, garbage, t);
    QueueLength(w, s);
    u := RoundRobinWaits(w, q, garbage, t, k);
    RankBound(q, k, s.quantumCounter, |w.jobs|);
  }

  lemma RankBound(q: nat, k: nat, counter: nat, n: nat)
    requires counter < q && k + 2 <= n
    ensures Rank(q, k, counter) <= (n - 1) * q
  {
    assert (n - 1) * q == (k + 1) * q + (n - 2 - k) * q;
    assert (k + 1) * q == k * q + q;
  }

  // The running process is not waiting.
  lemma QueueLength(w: Workload, s: State)
    requires Inv(w, s, Boundary) && Busy(s)
    ensures s.ready != [] ==> |s.ready| <= |w.jobs| - 1
  {
    hide ProcOk;
    if s.ready != [] {
      var all := s.ready + [s.running.value];
      assert Placed(s, s.running.value);
      assert s.running.value !in s.ready;
      assert InRange(all, |w.jobs|) && Distinct(all);
      DistinctBound(all, |w.jobs|);
    }
  }

  // ----- FCFS: exact waiting

  // The burst process i will get when it is next started.
  function NextBurst(w: Workload, i: nat, p: Proc): nat
    requires i < |w.jobs|
  {
    Min(Burst(w, i), Sub32(w.jobs[i].total, p.cpuTime))
  }

  // The bursts of the first k processes of the queue.
  ghost function BurstsAhead(w: Workload, ps: seq<Proc>, ready: seq<nat>, k: nat): nat
    requires |ps| == |w.jobs| && InRange(ready, |ps|) && k <= |ready|
    decreases k
  {
    if k == 0 then 0
    else NextBurst(w, ready[0], ps[ready[0]]) + BurstsAhead(w, ps, ready[1..], k - 1)
  }

  // What is left of the running burst, and the bursts of those ahead of place k.
  ghost function Delay(w: Workload, s: State, k: nat): nat
    requires Shape(w, s) && k <= |s.ready|
  {
    (if s.running.Some? then s.ps[s.running.value].cpuBurst else 0) + BurstsAhead(w, s.ps, s.ready, k)
  }

  // Without preemption nobody keeps part of a burst while waiting.
  ghost predicate NoneSuspended(s: State) {
    forall i :: 0 <= i < |s.ps| && s.ps[i].status == Ready ==> s.ps[i].cpuBurst == 0
  }

  lemma {:induction false} AheadUnchanged(w: Workload, ps: seq<Proc>, ps': seq<Proc>, ready: seq<nat>,
                                          ready': seq<nat>, k: nat)
    requires |ps| == |ps'| == |w.jobs| && InRange(ready, |ps|) && InRange(ready', |ps|)
    requires k <= |ready| && k <= |ready'| && ready[..k] == ready'[..k]
    requires forall j :: 0 <= j < k ==> ps'[ready[j]].cpuTime == ps[ready[j]].cpuTime
    ensures BurstsAhead(w, ps, ready, k) == BurstsAhead(w, ps', ready', k)
    decreases k
  {
    if k > 0 {
      assert ready[0] == ready[..k][0] && ready'[0] == ready'[..k][0];
      assert ready[1..][..k - 1] == ready[..k][1..] && ready'[1..][..k - 1] == ready'[..k][1..];
      forall j | 0 <= j < k - 1 ensures ps'[ready[1..][j]].cpuTime == ps[ready[1..][j]].cpuTime {
        assert ready[1..][j] == ready[j + 1];
      }
      AheadUnchanged(w, ps, ps', ready[1..], ready'[1..], k - 1);
    }
  }

  lemma StartedBurst(w: Workload, i: nat, p: Proc, cycle: nat)
    requires i < |w.jobs| && ProcOk(w, i, p, cycle, Served) && p.status == Ready && p.cpuBurst == 0
    ensures StartProcess(w, i, p).cpuBurst == NextBurst(w, i, p) >= 1
  {
  }

  // The dispatch of FCFS, seen from place k.
  lemma FcfsDispatch(w: Workload, c: State, k: nat)
    requires Inv(w, c, Served) && NoneSuspended(c) && k < |c.ready|
    ensures var r := Advance(FCFS, w, ChargeWaiting(w, Dispatch(FCFS, w, c)));
      var i := c.ready[k];
      if c.running.None? && k == 0 then
        r.running == Some(i) && r.ps[i].waitTime == c.ps[i].waitTime
      else
        var k' := if c.running.None? then k - 1 else k;
        && Moved(c, k, r, k') && r.ps[i].waitTime == c.ps[i].waitTime + 1
        && Delay(w, r, k') == Delay(w, c, k) && r.running.Some?
  {
    var d := Dispatch(FCFS, w, c);
    var r := Advance(FCFS, w, ChargeWaiting(w, d));
    DispatchKeeps(FCFS, w, c);
    hide Inv, ProcOk;
    InvShape(w, c, Served);
    var i := c.ready[k];
    assert i in c.ready;
    if c.running.Some? {
      assert d == c;
      AheadUnchanged(w, c.ps, r.ps, c.ready, r.ready, k);
    } else {
      FcfsStart(w, c, k);
    }
  }

  // The state after the head h of the queue has been started and the others charged.
  lemma FcfsStartShape(w: Workload, c: State)
    requires Shape(w, c) && Distinct(c.ready) && c.ready != [] && c.running.None?
    ensures var r := Advance(FCFS, w, ChargeWaiting(w, Dispatch(FCFS, w, c)));
      var h := c.ready[0];
      && r.ready == c.ready[1..] && r.running == Some(h)
      && r.ps[h] == StartProcess(w, h, c.ps[h])
      && forall j :: 0 < j < |c.ready| ==>
           r.ps[c.ready[j]] == c.ps[c.ready[j]].(waitTime := c.ps[c.ready[j]].waitTime + 1)
  {
    var h := c.ready[0];
    var rest := c.ready[1..];
    assert forall j :: 0 <= j < |rest| ==> rest[j] == c.ready[j + 1];
    assert h !in rest;
    assert forall j :: 0 < j < |c.ready| ==> c.ready[j] in rest by {
      forall j | 0 < j < |c.ready| ensures c.ready[j] in rest {
        assert rest[j - 1] == c.ready[j];
      }
    }
  }

  lemma FcfsStart(w: Workload, c: State, k: nat)
    requires Inv(w, c, Served) && NoneSuspended(c) && k < |c.ready| && c.running.None?
    ensures var r := Advance(FCFS, w, ChargeWaiting(w, Dispatch(FCFS, w, c)));
      var i := c.ready[k];
      if k == 0 then
        r.running == Some(i) && r.ps[i].waitTime == c.ps[i].waitTime
      else
        && Moved(c, k, r, k - 1) && r.ps[i].waitTime == c.ps[i].waitTime + 1
        && Delay(w, r, k - 1) == Delay(w, c, k) && r.running.Some?
  {
    hide Dispatch, ChargeWaiting, Advance, ProcOk, NextBurst;
    var r := Advance(FCFS, w, ChargeWaiting(w, Dispatch(FCFS, w, c)));
    var h := c.ready[0];
    FcfsStartShape(w, c);
    assert h in c.ready && Placed(c, h) && ProcOk(w, h, c.ps[h], c.cycle, Served);
    StartedBurst(w, h, c.ps[h], c.cycle);
    StartProcStart(w, h, c.ps[h]);
    if k > 0 {
      forall j | 0 <= j < k - 1 ensures r.ps[r.ready[j]].cpuTime == c.ps[c.ready[1..][j]].cpuTime {
        assert r.ready[j] == c.ready[j + 1];
      }
      AheadUnchanged(w, c.ps, r.ps, c.ready[1..], r.ready, k - 1);
    }
  }

  lemma StartProcStart(w: Workload, i: nat, p: Proc)
    requires i < |w.jobs|
    ensures var q := StartProcess(w, i, p); q.cpuTime == p.cpuTime && q.waitTime == p.waitTime
  {
  }

  lemma TickNoneSuspended(w: Workload, s: State)
    requires Inv(w, s, Boundary) && NoneSuspended(s)
    ensures NoneSuspended(TickBlocked(w, s))
  {
    hide TimeConserved;
    forall i | 0 <= i < |s.ps| && i in s.blocked ensures s.ps[i].cpuBurst == 0 {
      assert Placed(s, i) && ProcOk(w, i, s.ps[i], s.cycle, Boundary);
    }
  }

  lemma {:induction false} AdmitNoneSuspended(pol: Policy, w: Workload, s: State, upto: nat)
    requires Inv(w, s, Ticked) && upto <= |w.jobs| && NoneSuspended(s)
    ensures NoneSuspended(Admit(pol, w, s, upto))
  {
    if upto > 0 {
      AdmitNoneSuspended(pol, w, s, upto - 1);
      AdmitKeeps(pol, w, s, upto - 1);
      var t := Admit(pol, w, s, upto - 1);
      ArrivalProc(w, upto - 1, t.ps[upto - 1], s.cycle);
    }
  }

  lemma DispatchNoneSuspended(w: Workload, s: State)
    requires Shape(w, s) && NoneSuspended(s)
    ensures NoneSuspended(Advance(FCFS, w, ChargeWaiting(w, Dispatch(FCFS, w, s))))
  {
    assert NoneSuspended(Dispatch(FCFS, w, s));
  }

  lemma ServeNoneSuspended(w: Workload, s: State)
    requires Inv(w, s, Admitted) && NoneSuspended(s)
    ensures NoneSuspended(TickRunning(w, s))
  {
    hide ProcOk;
    if s.running.Some? {
      assert Placed(s, s.running.value);
    }
  }

  lemma BeforeDispatchNoneSuspended(w: Workload, s: State)
    requires Inv(w, s, Boundary) && NoneSuspended(s)
    ensures NoneSuspended(BeforeDispatch(FCFS, w, s))
  {
    hide Inv, TickBlocked, Admit, TickRunning, NoneSuspended;
    InvShape(w, s, Boundary);
    AdmittedOk(FCFS, w, s);
    TickNoneSuspended(w, s);
    AdmitNoneSuspended(FCFS, w, TickBlocked(w, s), |w.jobs|);
    ServeNoneSuspended(w, Admit(FCFS, w, TickBlocked(w, s), |w.jobs|));
  }

  lemma {:induction false} FcfsNoneSuspended(w: Workload, garbage: nat, t: nat)
    ensures NoneSuspended(After(FCFS, w, garbage, t))
  {
    hide Step, Inv;
    if t > 0 {
      var s := After(FCFS, w, garbage, t - 1);
      FcfsNoneSuspended(w, garbage, t - 1);
      RunKeeps(FCFS, w, garbage, t - 1);
      AfterNext(FCFS, w, garbage, t);
      FcfsStepNoneSuspended(w, s);
    }
  }

  lemma FcfsStepNoneSuspended(w: Workload, s: State)
    requires Inv(w, s, Boundary) && NoneSuspended(s)
    ensures NoneSuspended(Step(FCFS, w, s))
  {
    hide Inv, BeforeDispatch, NoneSuspended;
    InvShape(w, s, Boundary);
    BeforeDispatchNoneSuspended(w, s);
    DispatchNoneSuspended(w, BeforeDispatch(FCFS, w, s));
  }

  // The first half of the cycle takes one unit off the delay.
  lemma FcfsServed(w: Workload, s: State, k: nat)
    requires Inv(w, s, Boundary) && Busy(s) && k < |s.ready|
    ensures var c := BeforeDispatch(FCFS, w, s);
      && Shape(w, c) && k < |c.ready| && c.ready[k] == s.ready[k] && c.ps[s.ready[k]] == s.ps[s.ready[k]]
      && Delay(w, c, k) == Delay(w, s, k) - 1
      && (c.running.None? && k == 0 ==> Delay(w, s, k) == 1)
  {
    hide Inv, BeforeDispatch, NextBurst;
    InvShape(w, s, Boundary);
    BeforeDispatchQueue(FCFS, w, s);
    BeforeDispatchRunning(FCFS, w, s);
    var c := BeforeDispatch(FCFS, w, s);
    assert s.ready[k] in s.ready;
    forall j | 0 <= j < k ensures c.ps[s.ready[j]].cpuTime == s.ps[s.ready[j]].cpuTime {
      assert s.ready[j] in s.ready;
    }
    AheadUnchanged(w, s.ps, c.ps, s.ready, c.ready, k);
  }

  lemma FcfsStep(w: Workload, s: State, k: nat) returns (k': nat)
    requires Inv(w, s, Boundary) && Busy(s) && NoneSuspended(s) && k < |s.ready|
    ensures var r := Step(FCFS, w, s);
      var i := s.ready[k];
      var d := Delay(w, s, k);
      if d == 1 then r.running == Some(i) && r.ps[i].waitTime == s.ps[i].waitTime
      else Moved(s, k, r, k') && d == Delay(w, r, k') + 1 && Delay(w, r, k') >= 1
           && r.ps[i].waitTime == s.ps[i].waitTime + 1
  {
    hide Inv, BeforeDispatch, Dispatch, NextBurst, NoneSuspended;
    InvShape(w, s, Boundary);
    var c := BeforeDispatch(FCFS, w, s);
    BeforeDispatchKeeps(FCFS, w, s);
    BeforeDispatchNoneSuspended(w, s);
    FcfsServed(w, s, k);
    FcfsDispatch(w, c, k);
    StepKeeps(FCFS, w, s);
    k' := if c.running.None? && k > 0 then k - 1 else k;
    if !(c.running.None? && k == 0) {
      DelayPositive(w, Step(FCFS, w, s), k');
    }
  }

  lemma DelayPositive(w: Workload, s: State, k: nat)
    requires Inv(w, s, Boundary) && s.running.Some? && k <= |s.ready|
    ensures Delay(w, s, k) >= 1
  {
    var i := s.running.value;
    assert Placed(s, i) && ProcOk(w, i, s.ps[i], s.cycle, Boundary);
  }

  // From the end of a cycle it spends at place k, a process waits exactly its delay: it is
  // charged in every cycle before it starts, and nothing that joins the queue matters.
  lemma {:induction false} FcfsExactWaiting(w: Workload, garbage: nat, t: nat, k: nat)
    requires k < |After(FCFS, w, garbage, t).ready|
    ensures var s := After(FCFS, w, garbage, t);
      var i := s.ready[k];
      var d := Delay(w, s, k);
      && d >= 1
      && (forall v: nat :: t <= v < t + d ==>
            var r := After(FCFS, w, garbage, v);
            i in r.ready && r.ps[i].waitTime == s.ps[i].waitTime + (v - t))
      && After(FCFS, w, garbage, t + d).running == Some(i)
      && After(FCFS, w, garbage, t + d).ps[i].waitTime == s.ps[i].waitTime + d - 1
    decreases Delay(w, After(FCFS, w, garbage, t), k)
  {
    hide Step, Inv, Delay;
    var s := After(FCFS, w, garbage, t);
    var i := s.ready[k];
    RunKeeps(FCFS, w, garbage, t);
    FcfsNoneSuspended(w, garbage, t);
    AfterNext(FCFS, w, garbage, t + 1);
    DelayPositive(w, s, k);
    var k' := FcfsStep(w, s, k);
    assert i in s.ready;
    if Delay(w, s, k) > 1 {
      FcfsExactWaiting(w, garbage, t + 1, k');
    }
  }

  // ----- Round Robin without preemption

  // No burst outlasts the quantum.
  ghost predicate ShortBursts(w: Workload, q: nat) {
    forall i :: 0 <= i < |w.jobs| ==> Min(Burst(w, i), w.jobs[i].total) <= q
  }

  // The running burst ends before the quantum does.
  ghost predicate Paced(s: State) {
    s.running.Some? ==> s.running.value < |s.ps| && s.ps[s.running.value].cpuBurst <= s.quantumCounter + 1
  }

  ghost predicate SameButQuantum(a: State, b: State) {
    a == b.(quantumCounter := a.quantumCounter)
  }

  lemma {:induction false} AdmitSame(w: Workload, q: nat, a: State, b: State, upto: nat)
    requires Shape(w, a) && Shape(w, b) && SameButQuantum(a, b) && upto <= |w.jobs|
    ensures SameButQuantum(Admit(RR(q), w, a, upto), Admit(FCFS, w, b, upto))
  {
    if upto > 0 {
      AdmitSame(w, q, a, b, upto - 1);
    }
  }

  lemma TickSame(w: Workload, a: State, b: State)
    requires Shape(w, a) && Shape(w, b) && SameButQuantum(a, b)
    ensures SameButQuantum(TickBlocked(w, a), TickBlocked(w, b))
  {
    assert TickBlocked(w, a).ps == TickBlocked(w, b).ps;
  }

  lemma ServeSame(w: Workload, a: State, b: State)
    requires Shape(w, a) && Shape(w, b) && SameButQuantum(a, b)
    ensures SameButQuantum(TickRunning(w, a), TickRunning(w, b))
  {
  }

  lemma StartSame(w: Workload, a: State, b: State)
    requires Shape(w, a) && Shape(w, b) && SameButQuantum(a, b)
    ensures SameButQuantum(StartNext(w, a), StartNext(w, b))
  {
  }

  lemma ChargeSame(pol: Policy, pol': Policy, w: Workload, a: State, b: State)
    requires Shape(w, a) && Shape(w, b) && SameButQuantum(a, b)
    ensures SameButQuantum(Advance(pol, w, ChargeWaiting(w, a)), Advance(pol', w, ChargeWaiting(w, b)))
  {
    assert ChargeWaiting(w, a).ps == ChargeWaiting(w, b).ps;
  }

  lemma BeforeDispatchSame(w: Workload, q: nat, a: State, b: State)
    requires Shape(w, a) && Shape(w, b) && SameButQuantum(a, b)
    ensures SameButQuantum(BeforeDispatch(RR(q), w, a), BeforeDispatch(FCFS, w, b))
  {
    TickSame(w, a, b);
    AdmitSame(w, q, TickBlocked(w, a), TickBlocked(w, b), |w.jobs|);
    ServeSame(w, Admit(RR(q), w, TickBlocked(w, a), |w.jobs|), Admit(FCFS, w, TickBlocked(w, b), |w.jobs|));
  }

  // With the quantum not yet over, or nobody running, the two dispatchers agree.
  lemma DispatchSame(w: Workload, q: nat, a: State, b: State)
    requires Shape(w, a) && Shape(w, b) && SameButQuantum(a, b)
    requires a.running.Some? ==> a.quantumCounter > 0
    ensures SameButQuantum(Dispatch(RR(q), w, a), Dispatch(FCFS, w, b))
  {
    if a.running.None? {
      StartSame(w, a.(quantumCounter := q), b);
    }
  }

  lemma StartedShort(w: Workload, q: nat, i: nat, p: Proc, cycle: nat)
    requires i < |w.jobs| && ShortBursts(w, q)
    requires ProcOk(w, i, p, cycle, Served) && p.status == Ready
    ensures StartProcess(w, i, p).cpuBurst <= q
  {
    hide BurstIO, IODue;
    assert Min(Burst(w, i), w.jobs[i].total) <= q;
  }

  lemma PacedStart(w: Workload, q: nat, c: State)
    requires Inv(w, c, Served) && ShortBursts(w, q) && q >= 1
    requires c.running.None?
    ensures Paced(Advance(RR(q), w, ChargeWaiting(w, Dispatch(RR(q), w, c))))
  {
    hide StartProcess, ProcOk, ShortBursts;
    if c.ready != [] {
      var h := c.ready[0];
      assert h in c.ready && Placed(c, h);
      StartedShort(w, q, h, c.ps[h], c.cycle);
      FcfsStartShape(w, c);
      var a, b := c.(quantumCounter := q), c;
      StartSame(w, a, b);
      ChargeSame(RR(q), FCFS, w, StartNext(w, a), StartNext(w, b));
    }
  }

  lemma PacedStep(w: Workload, q: nat, s: State)
    requires Inv(w, s, Boundary) && Paced(s) && ShortBursts(w, q) && q >= 1
    ensures Paced(Step(RR(q), w, s))
    ensures var c := BeforeDispatch(RR(q), w, s); c.running.Some? ==> c.quantumCounter > 0
  {
    hide Inv, BeforeDispatch;
    InvShape(w, s, Boundary);
    BeforeDispatchRunning(RR(q), w, s);
    BeforeDispatchKeeps(RR(q), w, s);
    if BeforeDispatch(RR(q), w, s).running.None? {
      PacedStart(w, q, BeforeDispatch(RR(q), w, s));
    }
  }

  lemma StepSame(w: Workload, q: nat, a: State, b: State)
    requires Inv(w, a, Boundary) && Shape(w, b) && SameButQuantum(a, b)
    requires Paced(a) && ShortBursts(w, q) && q >= 1
    ensures SameButQuantum(Step(RR(q), w, a), Step(FCFS, w, b))
  {
    hide Inv, BeforeDispatch, Dispatch;
    InvShape(w, a, Boundary);
    BeforeDispatchSame(w, q, a, b);
    PacedStep(w, q, a);
    var c, d := BeforeDispatch(RR(q), w, a), BeforeDispatch(FCFS, w, b);
    DispatchSame(w, q, c, d);
    ChargeSame(RR(q), FCFS, w, Dispatch(RR(q), w, c), Dispatch(FCFS, w, d));
  }

  // If no burst outlasts the quantum, Round Robin and FCFS go through the same states,
  // cycle for cycle: lists, running process, every field of every process, all counters.
  lemma {:induction false} RoundRobinIsFcfs(w: Workload, q: nat, garbage: nat, garbage': nat, t: nat)
    requires q >= 1 && ShortBursts(w, q)
    ensures var a, b := After(RR(q), w, garbage, t), After(FCFS, w, garbage', t);
      && SameButQuantum(a, b)
      && Paced(a)
  {
    hide Step, Inv, ShortBursts;
    if t > 0 {
      RoundRobinIsFcfs(w, q, garbage, garbage', t - 1);
      RunKeeps(RR(q), w, garbage, t - 1);
      AfterNext(RR(q), w, garbage, t);
      AfterNext(FCFS, w, garbage', t);
      PacedStep(w, q, After(RR(q), w, garbage, t - 1));
      StepSame(w, q, After(RR(q), w, garbage, t - 1), After(FCFS, w, garbage', t - 1));
    }
  }
}
