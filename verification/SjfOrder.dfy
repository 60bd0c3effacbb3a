/**
 When the ready queue of SJF is in order.

 sjf_add_to_ready means to keep the queue sorted by remaining CPU time, and by arrival among
 equals. From the second element on it compares with the total of one process less the run
 time of the next. This module says exactly when the queue stays sorted all the same.
 */
module SjfOrder {
  import opened Seqs
  import opened Scheduler

  // ----- The order that is meant

  ghost predicate Procs(w: Workload, ps: seq<Proc>, queue: seq<nat>) {
    |ps| == |w.jobs| && InRange(queue, |ps|)
  }

  function Remaining(w: Workload, ps: seq<Proc>, i: nat): nat
    requires |ps| == |w.jobs| && i < |ps|
  {
    Sub32(w.jobs[i].total, ps[i].cpuTime)
  }

  // Process i is to run before process j.
  predicate Before(w: Workload, ps: seq<Proc>, i: nat, j: nat)
    requires |ps| == |w.jobs| && i < |ps| && j < |ps|
  {
    || Remaining(w, ps, i) < Remaining(w, ps, j)
    || (Remaining(w, ps, i) == Remaining(w, ps, j) && w.jobs[i].arrival < w.jobs[j].arrival)
  }

  ghost predicate Sorted(w: Workload, ps: seq<Proc>, queue: seq<nat>)
    requires Procs(w, ps, queue)
  {
    forall a, b :: 0 <= a < b < |queue| ==> !Before(w, ps, queue[b], queue[a])
  }

  // ----- An insertion anywhere

  ghost predicate Fitting(w: Workload, ps: seq<Proc>, queue: seq<nat>, i: nat, k: nat)
    requires Procs(w, ps, queue) && i < |ps| && k <= |queue|
  {
    && (k > 0 ==> !Before(w, ps, i, queue[k - 1]))
    && (k < |queue| ==> !Before(w, ps, queue[k], i))
  }

  // In a sorted queue it is the neighbours that decide.
  lemma InsertFits(w: Workload, ps: seq<Proc>, queue: seq<nat>, i: nat, k: nat)
    requires Procs(w, ps, queue) && i < |ps| && k <= |queue| && Sorted(w, ps, queue)
    ensures InRange(InsertAt(queue, k, i), |ps|)
    ensures Sorted(w, ps, InsertAt(queue, k, i)) <==> Fitting(w, ps, queue, i, k)
  {
    var r := InsertAt(queue, k, i);
    assert forall m :: 0 <= m < |r| ==> r[m] == if m < k then queue[m] else if m == k then i else queue[m - 1];
    if Fitting(w, ps, queue, i, k) {
      forall a, b | 0 <= a < b < |r| ensures !Before(w, ps, r[b], r[a]) {
        if b == k && a < k - 1 {
          assert !Before(w, ps, queue[k - 1], queue[a]);
        } else if a == k && k + 1 < b {
          assert !Before(w, ps, queue[b - 1], queue[k]);
        }
      }
    }
    if Sorted(w, ps, r) {
      assert k > 0 ==> !Before(w, ps, r[k], r[k - 1]);
      assert k < |queue| ==> !Before(w, ps, r[k + 1], r[k]);
    }
  }

  // A process that ends its I/O goes to the end, whatever it has left to run.
  lemma AppendSorted(w: Workload, ps: seq<Proc>, queue: seq<nat>, i: nat)
    requires Procs(w, ps, queue) && i < |ps| && Sorted(w, ps, queue)
    ensures InRange(queue + [i], |ps|)
    ensures Sorted(w, ps, queue + [i]) <==> queue == [] || !Before(w, ps, i, queue[|queue| - 1])
  {
    InsertFits(w, ps, queue, i, |queue|);
    assert InsertAt(queue, |queue|, i) == queue + [i];
  }

  // ----- The place sjf_add_to_ready chooses

  // The guard of its loop, at the place between elements j and j + 1 of the queue.
  predicate StopsAt(w: Workload, ps: seq<Proc>, queue: seq<nat>, i: nat, j: nat)
    requires |ps| == |w.jobs| && i < |ps| && j + 1 < |queue| && queue[j] < |ps| && queue[j + 1] < |ps|
  {
    SjfBefore(w, ps, i, queue[j], queue[j + 1])
  }

  lemma {:induction false} FirstStop(w: Workload, ps: seq<Proc>, queue: seq<nat>, i: nat, at: nat)
    requires Procs(w, ps, queue) && i < |ps| && at < |queue|
    ensures var k := SjfPositionAfter(w, ps, queue, i, at);
      && (forall j :: at <= j < k - 1 ==> !StopsAt(w, ps, queue, i, j))
      && (k < |queue| ==> StopsAt(w, ps, queue, i, k - 1))
    decreases |queue| - at
  {
    if at + 1 < |queue| && !StopsAt(w, ps, queue, i, at) {
      FirstStop(w, ps, queue, i, at + 1);
    }
  }

  // The guard never holds where the next process is to run before i ...
  ghost predicate NotTooEarly(w: Workload, ps: seq<Proc>, queue: seq<nat>, i: nat)
    requires Procs(w, ps, queue) && i < |ps|
  {
    forall j :: 0 <= j < |queue| - 1 && Before(w, ps, queue[j + 1], i) ==> !StopsAt(w, ps, queue, i, j)
  }

  // ... and has held at some place before any process that i is to run before.
  ghost predicate NotTooLate(w: Workload, ps: seq<Proc>, queue: seq<nat>, i: nat)
    requires Procs(w, ps, queue) && i < |ps|
  {
    forall j :: 0 < j < |queue| && Before(w, ps, i, queue[j]) ==> exists m :: 0 <= m < j && StopsAt(w, ps, queue, i, m)
  }

  // In a queue of any processes: the guards decide, at the front and between neighbours.
  ghost predicate KeepsOrder(w: Workload, ps: seq<Proc>, queue: seq<nat>, i: nat)
    requires Procs(w, ps, queue) && i < |ps|
  {
    || queue == [] || Before(w, ps, i, queue[0])
    || (NotTooEarly(w, ps, queue, i) && NotTooLate(w, ps, queue, i))
  }

  // A sorted queue stays sorted exactly under this condition.
  lemma SjfKeepsOrder(w: Workload, ps: seq<Proc>, queue: seq<nat>, i: nat)
    requires Procs(w, ps, queue) && i < |ps| && Sorted(w, ps, queue)
    ensures Sorted(w, ps, EnterReady(SJF, w, ps, queue, i)) <==> KeepsOrder(w, ps, queue, i)
  {
    var k := SjfPosition(w, ps, queue, i);
    InsertFits(w, ps, queue, i, k);
    if queue != [] && !Before(w, ps, i, queue[0]) {
      FirstStop(w, ps, queue, i, 0);
      FittingStop(w, ps, queue, i, k);
    }
  }

  // The first place where the guard holds fits exactly if the guard holds neither too early
  // nor too late.
  lemma FittingStop(w: Workload, ps: seq<Proc>, queue: seq<nat>, i: nat, k: nat)
    requires Procs(w, ps, queue) && i < |ps| && Sorted(w, ps, queue)
    requires 0 < k <= |queue| && !Before(w, ps, i, queue[0])
    requires forall j :: 0 <= j < k - 1 ==> !StopsAt(w, ps, queue, i, j)
    requires k < |queue| ==> StopsAt(w, ps, queue, i, k - 1)
    ensures Fitting(w, ps, queue, i, k) <==> NotTooEarly(w, ps, queue, i) && NotTooLate(w, ps, queue, i)
  {
    InOrder(w, ps, queue, i);
    if Fitting(w, ps, queue, i, k) {
      forall j | 0 < j < |queue| && Before(w, ps, i, queue[j])
        ensures exists m :: 0 <= m < j && StopsAt(w, ps, queue, i, m) {
        assert k <= j && StopsAt(w, ps, queue, i, k - 1);
      }
    }
  }

  // Those that i is to run before are at the end of a sorted queue, those before i at the front.
  lemma InOrder(w: Workload, ps: seq<Proc>, queue: seq<nat>, i: nat)
    requires Procs(w, ps, queue) && i < |ps| && Sorted(w, ps, queue)
    ensures forall a, b :: 0 <= a < b < |queue| && Before(w, ps, i, queue[a]) ==> Before(w, ps, i, queue[b])
    ensures forall a, b :: 0 <= a < b < |queue| && Before(w, ps, queue[b], i) ==> Before(w, ps, queue[a], i)
  {
  }

  // ----- Arrivals

  // Nobody in the queue has run yet or arrived later.
  ghost predicate Unrun(w: Workload, ps: seq<Proc>, queue: seq<nat>, i: nat)
    requires Procs(w, ps, queue) && i < |ps|
  {
    forall j :: 0 <= j < |queue| ==> ps[queue[j]].cpuTime == 0 && w.jobs[queue[j]].arrival <= w.jobs[i].arrival
  }

  // Then the order is lost exactly if the new process is not shorter than the head, but
  // shorter than somebody behind it.
  lemma SjfKeepsOrderUnrun(w: Workload, ps: seq<Proc>, queue: seq<nat>, i: nat)
    requires Procs(w, ps, queue) && i < |ps| && Sorted(w, ps, queue) && Unrun(w, ps, queue, i)
    ensures Sorted(w, ps, EnterReady(SJF, w, ps, queue, i)) <==>
      || queue == [] || Remaining(w, ps, i) < w.jobs[queue[0]].total
      || forall j :: 0 <= j < |queue| ==> w.jobs[queue[j]].total <= Remaining(w, ps, i)
  {
    hide SjfBefore;
    SjfKeepsOrder(w, ps, queue, i);
    UnrunGuard(w, ps, queue, i);
    hide StopsAt;
    if queue != [] && !Before(w, ps, i, queue[0]) && KeepsOrder(w, ps, queue, i) {
      forall j | 0 <= j < |queue| ensures !Before(w, ps, i, queue[j]) {
        NobodyLonger(w, ps, queue, i, j);
      }
    }
  }

  // The totals of two processes are mixed without harm, but one place too late.
  lemma UnrunGuard(w: Workload, ps: seq<Proc>, queue: seq<nat>, i: nat)
    requires Procs(w, ps, queue) && i < |ps| && Unrun(w, ps, queue, i)
    ensures forall j :: 0 <= j < |queue| - 1 ==> (StopsAt(w, ps, queue, i, j) <==> Before(w, ps, i, queue[j]))
    ensures forall j :: 0 <= j < |queue| ==>
      (Before(w, ps, i, queue[j]) <==> Remaining(w, ps, i) < w.jobs[queue[j]].total)
  {
  }

  lemma {:induction false} NobodyLonger(w: Workload, ps: seq<Proc>, queue: seq<nat>, i: nat, j: nat)
    requires Procs(w, ps, queue) && i < |ps| && j < |queue|
    requires forall m :: 0 <= m < |queue| - 1 ==> (StopsAt(w, ps, queue, i, m) <==> Before(w, ps, i, queue[m]))
    requires NotTooLate(w, ps, queue, i) && !Before(w, ps, i, queue[0])
    ensures !Before(w, ps, i, queue[j])
  {
    if Before(w, ps, i, queue[j]) {
      var m :| 0 <= m < j && StopsAt(w, ps, queue, i, m);
      NobodyLonger(w, ps, queue, i, m);
    }
  }

  // ----- The arrivals of a cycle

  lemma SortedSame(w: Workload, ps: seq<Proc>, ps': seq<Proc>, queue: seq<nat>)
    requires Procs(w, ps, queue) && |ps'| == |ps|
    requires forall j :: 0 <= j < |ps| ==> ps'[j].cpuTime == ps[j].cpuTime
    ensures Sorted(w, ps, queue) <==> Sorted(w, ps', queue)
  {
  }

  // The queue is sorted when the first u processes of the list have been looked at.
  ghost predicate SortedAt(w: Workload, s: State, u: nat)
    requires Shape(w, s) && u <= |w.jobs|
  {
    var t := Admit(SJF, w, s, u);
    Sorted(w, t.ps, t.ready)
  }

  // Process number u, if it arrives now, meets the condition.
  ghost predicate ArrivalFits(w: Workload, s: State, u: nat)
    requires Shape(w, s) && u < |w.jobs|
  {
    var t := Admit(SJF, w, s, u);
    w.jobs[u].arrival == s.cycle ==> KeepsOrder(w, t.ps, t.ready, u)
  }

  lemma AdmitKeepsOrder(w: Workload, s: State, u: nat)
    requires Shape(w, s) && u < |w.jobs| && SortedAt(w, s, u)
    ensures SortedAt(w, s, u + 1) <==> ArrivalFits(w, s, u)
  {
    hide KeepsOrder, EnterReady, Sorted;
    if w.jobs[u].arrival == s.cycle {
      var t, r := Admit(SJF, w, s, u), Admit(SJF, w, s, u + 1);
      SjfKeepsOrder(w, t.ps, t.ready, u);
      SortedSame(w, t.ps, r.ps, r.ready);
    }
  }

  // While the arrivals are admitted one by one, the queue is sorted at every point exactly if it
  // was before, and every arrival meets the condition.
  lemma {:induction false} ArrivalsKeepOrder(w: Workload, s: State, upto: nat)
    requires Shape(w, s) && upto <= |w.jobs|
    ensures (forall u :: 0 <= u <= upto ==> SortedAt(w, s, u)) <==>
      Sorted(w, s.ps, s.ready) && forall u :: 0 <= u < upto ==> ArrivalFits(w, s, u)
  {
    hide ArrivalFits, Sorted;
    if upto == 0 {
      assert SortedAt(w, s, 0) <==> Sorted(w, s.ps, s.ready);
    } else {
      hide SortedAt;
      var u := upto - 1;
      ArrivalsKeepOrder(w, s, u);
      if SortedAt(w, s, u) {
        AdmitKeepsOrder(w, s, u);
        assert SortedAt(w, s, upto) <==> ArrivalFits(w, s, u);
      }
    }
  }

  // ----- Where it goes wrong

  // Three arrivals in the same cycle, none of which has run.
  const OUT_OF_ORDER: Workload := Input([Job(0, 1, 5, 1), Job(0, 1, 10, 1), Job(0, 1, 7, 1)], [])

  // The second is queued behind the first, as it should be, and the third at the end.
  lemma SjfQueueUnsorted(garbage: nat)
    ensures var s := Initial(OUT_OF_ORDER, garbage);
      && Admit(SJF, OUT_OF_ORDER, s, 2).ready == [0, 1] && SortedAt(OUT_OF_ORDER, s, 2)
      && Admit(SJF, OUT_OF_ORDER, s, 3).ready == [0, 1, 2] && !SortedAt(OUT_OF_ORDER, s, 3)
  {
    var w, s := OUT_OF_ORDER, Initial(OUT_OF_ORDER, garbage);
    hide Admit;
    TwoInOrder(garbage);
    ThirdLast(garbage);
    var r := Admit(SJF, w, s, 3);
    assert Before(w, r.ps, r.ready[2], r.ready[1]);
  }

  lemma TwoInOrder(garbage: nat)
    ensures var t := Admit(SJF, OUT_OF_ORDER, Initial(OUT_OF_ORDER, garbage), 2);
      && t.ready == [0, 1] && forall j :: 0 <= j < 3 ==> t.ps[j].cpuTime == 0
  {
    var w, s := OUT_OF_ORDER, Initial(OUT_OF_ORDER, garbage);
    assert Admit(SJF, w, s, 0) == s;
    var one := Admit(SJF, w, s, 1);
    assert one.ready == [0];
    assert SjfPosition(w, one.ps, [0], 1) == 1;
  }

  lemma ThirdLast(garbage: nat)
    ensures var t := Admit(SJF, OUT_OF_ORDER, Initial(OUT_OF_ORDER, garbage), 3);
      && t.ready == [0, 1, 2] && forall j :: 0 <= j < 3 ==> t.ps[j].cpuTime == 0
  {
    var w, s := OUT_OF_ORDER, Initial(OUT_OF_ORDER, garbage);
    TwoInOrder(garbage);
    var t := Admit(SJF, w, s, 2);
    FirstStop(w, t.ps, [0, 1], 2, 0);
    assert SjfPosition(w, t.ps, [0, 1], 2) == 2;
  }
}
