/** How long a process keeps the CPU, who comes next, and in what order the queue is joined. */
module SchedulerSlices {
  import opened Seqs
  import opened Scheduler
  import opened SchedulerInvariant
  import opened SchedulerWaiting

  // ----- Joining the queue

  // The blocked processes with one unit of I/O left, in order.
  ghost function Ending(ps: seq<Proc>, blocked: seq<nat>): seq<nat>
    requires InRange(blocked, |ps|)
  {
    if blocked == [] then []
    else (if ps[blocked[0]].ioBurst == 1 then [blocked[0]] else []) + Ending(ps, blocked[1..])
  }

  // The first n processes of the list that arrive in this cycle, in order.
  ghost function Arriving(w: Workload, cycle: nat, n: nat): seq<nat>
    requires n <= |w.jobs|
  {
    if n == 0 then []
    else Arriving(w, cycle, n - 1) + if w.jobs[n - 1].arrival == cycle then [n - 1] else []
  }

  lemma {:induction false} EndingNobody(ps: seq<Proc>, blocked: seq<nat>)
    requires InRange(blocked, |ps|) && forall j :: 0 <= j < |blocked| ==> ps[blocked[j]].ioBurst != 1
    ensures Ending(ps, blocked) == []
  {
    if blocked != [] {
      assert forall j :: 0 <= j < |blocked| - 1 ==> blocked[1..][j] == blocked[j + 1];
      EndingNobody(ps, blocked[1..]);
    }
  }

  lemma {:induction false} EndingFirst(ps: seq<Proc>, blocked: seq<nat>)
    requires InRange(blocked, |ps|) && SortedBursts(ps, blocked)
    ensures Ending(ps, blocked) == blocked[..Expired(ps, blocked)]
  {
    ExpiredFacts(ps, blocked);
    if blocked != [] {
      if ps[blocked[0]].ioBurst == 1 {
        EndingFirst(ps, blocked[1..]);
        assert blocked == [blocked[0]] + blocked[1..];
      } else {
        EndingNobody(ps, blocked);
      }
    }
  }

  // Those whose I/O ends join first, in the order of the blocked list, under every scheduler.
  lemma EndedJoin(w: Workload, s: State)
    requires Inv(w, s, Boundary)
    ensures TickBlocked(w, s).ready == s.ready + Ending(s.ps, s.blocked)
    ensures TickBlocked(w, s).cycle == s.cycle
  {
    EndingFirst(s.ps, s.blocked);
  }

  lemma {:induction false} ArrivalsJoin(pol: Policy, w: Workload, s: State, n: nat)
    requires Shape(w, s) && n <= |w.jobs| && !pol.SJF?
    ensures Admit(pol, w, s, n).ready == s.ready + Arriving(w, s.cycle, n)
  {
    if n > 0 {
      ArrivalsJoin(pol, w, s, n - 1);
    }
  }

  // Under FCFS and Round Robin the queue is joined behind all that wait: first by those whose
  // I/O ends, then by the arrivals in the order of the process list.
  lemma JoinOrder(pol: Policy, w: Workload, s: State)
    requires Inv(w, s, Boundary) && !pol.SJF?
    ensures BeforeDispatch(pol, w, s).ready ==
      s.ready + Ending(s.ps, s.blocked) + Arriving(w, s.cycle, |w.jobs|)
  {
    hide Inv;
    InvShape(w, s, Boundary);
    EndedJoin(w, s);
    ArrivalsJoin(pol, w, TickBlocked(w, s), |w.jobs|);
    var b := Admit(pol, w, TickBlocked(w, s), |w.jobs|);
    assert TickRunning(w, b).ready == b.ready;
  }

  // Under SJF, too, the arrivals find those whose I/O has ended in the queue.
  lemma SjfJoinOrder(w: Workload, s: State)
    requires Inv(w, s, Boundary)
    ensures BeforeDispatch(SJF, w, s).ready == Admit(SJF, w, TickBlocked(w, s), |w.jobs|).ready
  {
    hide Inv;
    InvShape(w, s, Boundary);
    var b := Admit(SJF, w, TickBlocked(w, s), |w.jobs|);
    assert TickRunning(w, b).ready == b.ready;
  }

  // ----- The dispatch

  // Whether the process that runs, or nobody, is to be replaced.
  ghost predicate Over(pol: Policy, c: State) {
    c.running.None? || (pol.RR? && c.quantumCounter == 0)
  }

  // Who is in line for the CPU then: a preempted process behind everybody else.
  ghost function Line(pol: Policy, c: State): seq<nat> {
    c.ready + if pol.RR? && c.quantumCounter == 0 && c.running.Some? then [c.running.value] else []
  }

  // The head of the line runs and the others wait; a new quantum begins.
  ghost predicate Replaced(pol: Policy, line: seq<nat>, r: State) {
    && r.running == Nth(line, 0)
    && r.ready == (if line == [] then [] else line[1..])
    && (pol.RR? ==> r.quantumCounter == pol.quantum - 1)
  }

  // The same process runs on, with one unit less of the quantum.
  ghost predicate RunsOn(pol: Policy, c: State, r: State) {
    && r.running == c.running && r.ready == c.ready
    && (pol.RR? ==> r.quantumCounter == c.quantumCounter - 1)
    && (c.running.Some? && c.running.value < |c.ps| ==>
          c.running.value < |r.ps| && r.ps[c.running.value] == c.ps[c.running.value])
  }

  lemma DispatchExact(pol: Policy, w: Workload, c: State)
    requires Inv(w, c, Served) && (pol.RR? ==> pol.quantum >= 1)
    ensures var r := Advance(pol, w, ChargeWaiting(w, Dispatch(pol, w, c)));
      if Over(pol, c) then Replaced(pol, Line(pol, c), r) else RunsOn(pol, c, r)
  {
    hide ProcOk;
    if c.running.Some? {
      assert Placed(c, c.running.value);
    }
    hide Inv;
  }

  // One cycle of a running process, whatever the ready queue: it loses one unit of its burst;
  // it runs on exactly if it has some left and the quantum is not used up; else the head of the
  // line follows.
  lemma CycleExact(pol: Policy, w: Workload, s: State)
    requires Inv(w, s, Boundary) && (pol.RR? ==> pol.quantum >= 1) && s.running.Some?
    ensures var i, c, r := s.running.value, BeforeDispatch(pol, w, s), Step(pol, w, s);
      && i < |s.ps| == |r.ps| && s.ps[i].cpuBurst >= 1
      && var burstLeft := s.ps[i].cpuBurst - 1;
         if burstLeft > 0 && (pol.RR? ==> s.quantumCounter > 0) then
           && r.running == Some(i) && r.ps[i].cpuBurst == burstLeft
           && r.ready == c.ready && (pol.RR? ==> r.quantumCounter == s.quantumCounter - 1)
         else
           Replaced(pol, c.ready + if burstLeft > 0 then [i] else [], r)
  {
    hide Inv, BeforeDispatch, Dispatch, ChargeWaiting, Advance;
    InvShape(w, s, Boundary);
    BeforeDispatchRunning(pol, w, s);
    BeforeDispatchKeeps(pol, w, s);
    DispatchExact(pol, w, BeforeDispatch(pol, w, s));
  }

  // A cycle that begins with the CPU free starts the head of the queue and a new quantum.
  lemma FreeCycle(pol: Policy, w: Workload, s: State)
    requires Inv(w, s, Boundary) && (pol.RR? ==> pol.quantum >= 1) && s.running.None?
    ensures Replaced(pol, BeforeDispatch(pol, w, s).ready, Step(pol, w, s))
  {
    hide Inv, BeforeDispatch, Dispatch, ChargeWaiting, Advance;
    InvShape(w, s, Boundary);
    BeforeDispatchRunning(pol, w, s);
    BeforeDispatchKeeps(pol, w, s);
    DispatchExact(pol, w, BeforeDispatch(pol, w, s));
    var c := BeforeDispatch(pol, w, s);
    assert Line(pol, c) == c.ready;
  }

  // ----- Whole slices

  // The number of cycles the running process has from now on, before the CPU is given on.
  ghost function Slice(pol: Policy, s: State): nat
    requires s.running.Some? && s.running.value < |s.ps|
  {
    var burst := s.ps[s.running.value].cpuBurst;
    if pol.RR? && s.quantumCounter + 1 < burst then s.quantumCounter + 1 else burst
  }

  // It keeps the CPU for that long, whatever joins the queue or leaves it empty.
  lemma {:induction false} SliceKept(pol: Policy, w: Workload, garbage: nat, t: nat, d: nat)
    requires pol.RR? ==> pol.quantum >= 1
    requires var s := After(pol, w, garbage, t); s.running.Some? && d < Slice(pol, s)
    ensures var s, r := After(pol, w, garbage, t), After(pol, w, garbage, t + d);
      var i := s.running.value;
      && r.running == Some(i) && r.ps[i].cpuBurst == s.ps[i].cpuBurst - d
      && (pol.RR? ==> r.quantumCounter == s.quantumCounter - d)
  {
    hide Step, Inv, BeforeDispatch;
    if d > 0 {
      SliceKept(pol, w, garbage, t, d - 1);
      RunKeeps(pol, w, garbage, t + d - 1);
      AfterNext(pol, w, garbage, t + d);
      CycleExact(pol, w, After(pol, w, garbage, t + d - 1));
    }
  }

  lemma BurstLeft(w: Workload, s: State)
    requires Inv(w, s, Boundary) && s.running.Some?
    ensures s.running.value < |s.ps| && s.ps[s.running.value].cpuBurst >= 1
  {
    assert Placed(s, s.running.value);
    assert ProcOk(w, s.running.value, s.ps[s.running.value], s.cycle, Boundary);
  }

  // Then it gives it on: to the head of the line, in which it is last itself if its burst is not
  // over. So under Round Robin a process that has just been started, with a burst longer than
  // the quantum, is preempted after exactly one quantum, and under FCFS and SJF nobody ever is.
  lemma SliceEnds(pol: Policy, w: Workload, garbage: nat, t: nat)
    requires pol.RR? ==> pol.quantum >= 1
    requires After(pol, w, garbage, t).running.Some?
    ensures var s := After(pol, w, garbage, t);
      var i, n := s.running.value, Slice(pol, s);
      && n >= 1
      && var c := BeforeDispatch(pol, w, After(pol, w, garbage, t + n - 1));
         Replaced(pol, c.ready + (if n < s.ps[i].cpuBurst then [i] else []), After(pol, w, garbage, t + n))
  {
    hide Step, Inv, BeforeDispatch, Replaced, InRange;
    var s := After(pol, w, garbage, t);
    RunKeeps(pol, w, garbage, t);
    BurstLeft(w, s);
    var n := Slice(pol, s);
    SliceKept(pol, w, garbage, t, n - 1);
    RunKeeps(pol, w, garbage, t + n - 1);
    AfterNext(pol, w, garbage, t + n);
    CycleExact(pol, w, After(pol, w, garbage, t + n - 1));
  }

  // A full quantum: from its start with a longer burst, a process runs for exactly q cycles.
  lemma FullQuantum(w: Workload, q: nat, garbage: nat, t: nat, i: nat)
    requires q >= 1
    requires var s := After(RR(q), w, garbage, t);
      s.running == Some(i) && s.quantumCounter == q - 1 && s.ps[i].cpuBurst > q
    ensures forall v: nat :: t <= v < t + q ==> After(RR(q), w, garbage, v).running == Some(i)
    ensures var c := BeforeDispatch(RR(q), w, After(RR(q), w, garbage, t + q - 1));
      Replaced(RR(q), c.ready + [i], After(RR(q), w, garbage, t + q))
  {
    hide Step, Inv, BeforeDispatch, Replaced;
    forall v: nat | t <= v < t + q ensures After(RR(q), w, garbage, v).running == Some(i) {
      SliceKept(RR(q), w, garbage, t, v - t);
    }
    SliceEnds(RR(q), w, garbage, t);
  }
}
