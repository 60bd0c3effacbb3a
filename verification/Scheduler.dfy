/**
 The scheduling simulator of Lab3/scheduler.c as a state machine.

 A process is named by its index in the process list, which is also its `processID`.
 One cycle of a `*_run` loop is `Step`: tick the blocked list, admit the arrivals, tick
 the running process, dispatch, charge the waiting processes and advance the clock.
 Each phase says what it does to every process at once; that the pointer walks of the
 program do exactly this is proved in SchedulerHeap.dfy.
 */
module Scheduler {
  import opened Seqs

  const SEED_VALUE := 200
  const QUANTUM := 2
  const FALLBACK_RANDOM := 1804289383
  const TWO_TO_THE_32 := 0x1_0000_0000

  // One quadruple of the input line.
  datatype Job = Job(arrival: nat, bound: nat, total: nat, multiplier: nat)

  // The jobs and the numbers on the lines of the file `random-numbers`.
  datatype Input = Input(jobs: seq<Job>, randomLines: seq<nat>) {
    predicate Valid() {
      forall j :: 0 <= j < |jobs| ==> jobs[j].bound >= 1 && jobs[j].total >= 1 && jobs[j].multiplier >= 1
    }
  }

  type Workload = w: Input | w.Valid() witness Input([], [])

  datatype Policy = FCFS | RR(quantum: nat) | SJF

  datatype Status = Unstarted | Ready | Running | Blocked | Terminated

  datatype Proc = Proc(
    status: Status,
    finishingTime: int,
    cpuTime: nat,
    ioTime: nat,
    waitTime: nat,
    ioBurst: nat,
    cpuBurst: nat,
    firstTime: bool)

  // An entry of the finished list: the struct as it was when the process ended.
  datatype Snapshot = Snapshot(id: nat, proc: Proc)

  datatype State = State(
    ps: seq<Proc>,
    ready: seq<nat>,
    blocked: seq<nat>,
    running: Option<nat>,
    cycle: nat,
    started: nat,
    finished: seq<Snapshot>,
    blockedCycles: nat,
    quantumCounter: nat)

  // Every index a state mentions is the index of a process.
  ghost predicate Shape(w: Workload, s: State) {
    && |s.ps| == |w.jobs|
    && InRange(s.ready, |w.jobs|)
    && InRange(s.blocked, |w.jobs|)
    && (s.running.Some? ==> s.running.value < |w.jobs|)
  }

  // uint32_t subtraction, for operands that fit in 32 bits.
  function Sub32(a: nat, b: nat): nat {
    if b <= a then a - b else if b <= a + TWO_TO_THE_32 then a + TWO_TO_THE_32 - b else 0
  }

  // ----- Bursts

  function RandomNumber(lines: seq<nat>, line: nat): nat {
    if 1 <= line <= |lines| then lines[line - 1] else FALLBACK_RANDOM
  }

  // The same line is reread for a process every time, so its burst is fixed.
  function Burst(w: Workload, i: nat): (b: nat)
    requires i < |w.jobs|
    ensures 1 <= b <= w.jobs[i].bound
  {
    1 + RandomNumber(w.randomLines, SEED_VALUE + i) % w.jobs[i].bound
  }

  function BurstIO(w: Workload, i: nat): (r: nat)
    requires i < |w.jobs|
    ensures r >= 1
  {
    var b := Burst(w, i);
    var m := w.jobs[i].multiplier;
    assert b * m >= 1 by { MultiplyPositive(b, m); }
    b * m
  }

  lemma MultiplyPositive(a: nat, b: nat)
    requires a >= 1 && b >= 1
    ensures a * b >= 1
  {
  }

  // ----- Phase 1: the blocked list

  function TickIO(p: Proc): Proc {
    p.(ioBurst := Sub32(p.ioBurst, 1),
       ioTime := p.ioTime + 1,
       status := if p.ioBurst == 1 then Ready else p.status)
  }

  // How many processes at the head of the blocked list end their I/O in this cycle.
  ghost function Expired(ps: seq<Proc>, blocked: seq<nat>): (k: nat)
    requires InRange(blocked, |ps|)
    ensures k <= |blocked|
  {
    if blocked != [] && ps[blocked[0]].ioBurst == 1 then 1 + Expired(ps, blocked[1..]) else 0
  }

  ghost function TickBlocked(w: Workload, s: State): (r: State)
    requires Shape(w, s)
    ensures Shape(w, r) && r.cycle == s.cycle
  {
    var k := Expired(s.ps, s.blocked);
    s.(ps := seq(|s.ps|, i requires 0 <= i < |s.ps| => if i in s.blocked then TickIO(s.ps[i]) else s.ps[i]),
       ready := s.ready + s.blocked[..k],
       blocked := s.blocked[k..],
       blockedCycles := if s.blocked == [] then s.blockedCycles else s.blockedCycles + 1)
  }

  // ----- Phase 2: arrivals

  // The slot that sjf_add_to_ready gives process i. From the second element on, the
  // remaining time is computed from the total of one element and the run time of the next.
  ghost function SjfPosition(w: Workload, ps: seq<Proc>, ready: seq<nat>, i: nat): (k: nat)
    requires |ps| == |w.jobs| && i < |ps|
    requires InRange(ready, |ps|)
    ensures k <= |ready|
  {
    if ready == [] then 0
    else if SjfBefore(w, ps, i, ready[0], ready[0]) then 0
    else SjfPositionAfter(w, ps, ready, i, 0)
  }

  predicate SjfBefore(w: Workload, ps: seq<Proc>, i: nat, current: nat, next: nat)
    requires |ps| == |w.jobs| && i < |ps| && current < |ps| && next < |ps|
  {
    var mine := Sub32(w.jobs[i].total, ps[i].cpuTime);
    var other := Sub32(w.jobs[current].total, ps[next].cpuTime);
    mine < other || (mine == other && w.jobs[i].arrival < w.jobs[next].arrival)
  }

  ghost function SjfPositionAfter(w: Workload, ps: seq<Proc>, ready: seq<nat>, i: nat, at: nat): (k: nat)
    requires |ps| == |w.jobs| && i < |ps|
    requires at < |ready| && InRange(ready, |ps|)
    ensures at < k <= |ready|
    decreases |ready| - at
  {
    if at + 1 == |ready| || SjfBefore(w, ps, i, ready[at], ready[at + 1]) then at + 1
    else SjfPositionAfter(w, ps, ready, i, at + 1)
  }

  ghost function EnterReady(pol: Policy, w: Workload, ps: seq<Proc>, ready: seq<nat>, i: nat): (r: seq<nat>)
    requires |ps| == |w.jobs| && i < |ps|
    requires InRange(ready, |ps|)
    ensures InRange(r, |ps|)
  {
    if pol.SJF? then
      var k := SjfPosition(w, ps, ready, i);
      InsertAtFacts(ready, k, i);
      InsertAt(ready, k, i)
    else ready + [i]
  }

  // The arrivals among the first `upto` processes of the list.
  ghost function Admit(pol: Policy, w: Workload, s: State, upto: nat): (r: State)
    requires Shape(w, s) && upto <= |w.jobs|
    ensures Shape(w, r) && r == s.(ps := r.ps, ready := r.ready)
  {
    if upto == 0 then s
    else
      var t := Admit(pol, w, s, upto - 1);
      if w.jobs[upto - 1].arrival != s.cycle then t
      else
        t.(ps := t.ps[upto - 1 := t.ps[upto - 1].(status := Ready)],
           ready := EnterReady(pol, w, t.ps, t.ready, upto - 1))
  }

  // ----- Phase 3: the running process

  // The slot add_to_blocked gives a process with this burst: before the first longer one.
  ghost function BlockedPosition(ps: seq<Proc>, blocked: seq<nat>, burst: nat): (k: nat)
    requires InRange(blocked, |ps|)
    ensures k <= |blocked|
  {
    if blocked == [] || burst < ps[blocked[0]].ioBurst then 0
    else 1 + BlockedPosition(ps, blocked[1..], burst)
  }

  lemma {:induction false} BlockedPositionIs(ps: seq<Proc>, blocked: seq<nat>, burst: nat, k: nat)
    requires InRange(blocked, |ps|) && k <= |blocked|
    requires forall j :: 0 <= j < k ==> ps[blocked[j]].ioBurst <= burst
    requires k < |blocked| ==> burst < ps[blocked[k]].ioBurst
    ensures BlockedPosition(ps, blocked, burst) == k
  {
    if k > 0 {
      assert ps[blocked[0]].ioBurst <= burst;
      assert forall j :: 0 <= j < |blocked| - 1 ==> blocked[1..][j] == blocked[j + 1];
      BlockedPositionIs(ps, blocked[1..], burst, k - 1);
    }
  }

  ghost function EnterBlocked(s: State, i: nat): (r: State)
    requires i < |s.ps| && InRange(s.blocked, |s.ps|)
    ensures |r.ps| == |s.ps| && InRange(r.blocked, |s.ps|)
  {
    var k := BlockedPosition(s.ps, s.blocked, s.ps[i].ioBurst);
    InsertAtFacts(s.blocked, k, i);
    s.(ps := s.ps[i := s.ps[i].(status := Blocked)], blocked := InsertAt(s.blocked, k, i))
  }

  function TickCPU(p: Proc): Proc {
    p.(cpuTime := p.cpuTime + 1, cpuBurst := Sub32(p.cpuBurst, 1))
  }

  ghost function TickRunning(w: Workload, s: State): (r: State)
    requires Shape(w, s)
    ensures Shape(w, r) && r.cycle == s.cycle
  {
    if s.running.None? then s
    else
      var i := s.running.value;
      var p := TickCPU(s.ps[i]);
      if p.cpuTime == w.jobs[i].total then
        var q := p.(status := Terminated, finishingTime := s.cycle);
        s.(ps := s.ps[i := q], running := None, finished := s.finished + [Snapshot(i, q)])
      else if p.cpuBurst == 0 then
        EnterBlocked(s.(ps := s.ps[i := p], running := None), i)
      else s.(ps := s.ps[i := p])
  }

  // ----- Phase 4: dispatch

  // A cold start computes the bursts; a suspended process keeps what is left of its own.
  function LoadBurst(w: Workload, i: nat, p: Proc): Proc
    requires i < |w.jobs|
  {
    var left := Sub32(w.jobs[i].total, p.cpuTime);
    if p.cpuBurst != 0 then p
    else if left < Burst(w, i) then p.(cpuBurst := left)
    else p.(cpuBurst := Burst(w, i), ioBurst := BurstIO(w, i))
  }

  function StartProcess(w: Workload, i: nat, p: Proc): Proc
    requires i < |w.jobs|
  {
    LoadBurst(w, i, p).(status := Running, firstTime := false)
  }

  ghost function StartNext(w: Workload, s: State): (r: State)
    requires Shape(w, s)
    ensures Shape(w, r) && r.cycle == s.cycle
  {
    if s.ready == [] then s
    else
      var i := s.ready[0];
      s.(ps := s.ps[i := StartProcess(w, i, s.ps[i])],
         ready := s.ready[1..],
         running := Some(i),
         started := if s.ps[i].firstTime then s.started + 1 else s.started)
  }

  // Round Robin: the running process goes to the end of the ready queue.
  ghost function Preempt(w: Workload, s: State): (r: State)
    requires Shape(w, s)
    ensures Shape(w, r) && r.cycle == s.cycle
  {
    if s.running.None? then s
    else
      var i := s.running.value;
      s.(ps := s.ps[i := s.ps[i].(status := Ready)], ready := s.ready + [i], running := None)
  }

  ghost function Dispatch(pol: Policy, w: Workload, s: State): (r: State)
    requires Shape(w, s)
    ensures Shape(w, r) && r.cycle == s.cycle
  {
    if pol.RR? then
      if s.quantumCounter == 0 || s.running.None?
      then StartNext(w, Preempt(w, s.(quantumCounter := pol.quantum)))
      else s
    else if s.running.None? then StartNext(w, s)
    else s
  }

  // ----- Phase 5: waiting time, and the clock

  ghost function ChargeWaiting(w: Workload, s: State): (r: State)
    requires Shape(w, s)
    ensures Shape(w, r) && r.cycle == s.cycle
  {
    s.(ps := seq(|s.ps|, i requires 0 <= i < |s.ps| =>
                   if i in s.ready then s.ps[i].(waitTime := s.ps[i].waitTime + 1) else s.ps[i]))
  }

  ghost function Advance(pol: Policy, w: Workload, s: State): (r: State)
    requires Shape(w, s)
    ensures Shape(w, r) && r.cycle == s.cycle + 1
  {
    s.(cycle := s.cycle + 1,
       quantumCounter := if pol.RR? then Sub32(s.quantumCounter, 1) else s.quantumCounter)
  }

  // ----- Runs

  ghost function BeforeDispatch(pol: Policy, w: Workload, s: State): (r: State)
    requires Shape(w, s)
    ensures Shape(w, r) && r.cycle == s.cycle
  {
    TickRunning(w, Admit(pol, w, TickBlocked(w, s), |w.jobs|))
  }

  ghost function Step(pol: Policy, w: Workload, s: State): (r: State)
    requires Shape(w, s)
    ensures Shape(w, r) && r.cycle == s.cycle + 1
  {
    Advance(pol, w, ChargeWaiting(w, Dispatch(pol, w, BeforeDispatch(pol, w, s))))
  }

  const RESET_PROC := Proc(Unstarted, -1, 0, 0, 0, 0, 0, true)

  // What reset_counters and reset_process_list leave. The quantum counter of rr_run is
  // never initialised, so it starts with any value.
  function Initial(w: Workload, garbage: nat): (s: State)
  {
    State(seq(|w.jobs|, i => RESET_PROC), [], [], None, 0, 0, [], 0, garbage)
  }

  // The state after t cycles.
  ghost function After(pol: Policy, w: Workload, garbage: nat, t: nat): (s: State)
    ensures Shape(w, s) && s.cycle == t
  {
    if t == 0 then Initial(w, garbage) else Step(pol, w, After(pol, w, garbage, t - 1))
  }

  // The loop runs while the number of finished processes differs from the number created.
  ghost predicate Done(w: Workload, s: State) {
    |s.finished| == |w.jobs|
  }

  // t is the number of cycles the main loop executes.
  ghost predicate StopsAfter(pol: Policy, w: Workload, garbage: nat, t: nat) {
    && Done(w, After(pol, w, garbage, t))
    && forall u: nat :: u < t ==> !Done(w, After(pol, w, garbage, u))
  }
}
