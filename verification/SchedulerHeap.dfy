/**
 The simulators as the program runs them: a table of `Process` objects, two lists threaded
 through them by `nextInReadyQueue` and `nextInBlockedList`, and counters that the cycle loop
 updates. The ghost field `g` is the state of Scheduler.dfy that the objects stand for, and
 `links` are their pointers as process numbers; `Mirror` ties both to the objects, and `Rep`
 says that the pointers thread exactly the ready and the blocked list of `g`.
 */
module SchedulerHeap {
  import opened Seqs
  import opened Scheduler
  import opened SchedulerInvariant
  import Totals = SchedulerTotals

  class Process {
    const A: nat
    const B: nat
    const C: nat
    const M: nat
    const processID: nat

    var status: Status
    var finishingTime: int
    var currentCPUTimeRun: nat
    var currentIOBlockedTime: nat
    var currentWaitingTime: nat
    var IOBurst: nat
    var CPUBurst: nat
    var isFirstTimeRunning: bool
    var nextInBlockedList: Process?
    var nextInReadyQueue: Process?

    constructor (job: Job, id: nat)
      ensures A == job.arrival && B == job.bound && C == job.total && M == job.multiplier && processID == id
    {
      A, B, C, M := job.arrival, job.bound, job.total, job.multiplier;
      processID := id;
      status := Unstarted;
      nextInBlockedList, nextInReadyQueue := null, null;
    }

    function View(): Proc
      reads this
    {
      Proc(status, finishingTime, currentCPUTimeRun, currentIOBlockedTime, currentWaitingTime,
           IOBurst, CPUBurst, isFirstTimeRunning)
    }

    ghost predicate Holds(p: Proc, readyNext: Process?, blockedNext: Process?)
      reads this
    {
      View() == p && nextInReadyQueue == readyNext && nextInBlockedList == blockedNext
    }
  }

  datatype Links = Links(
    readyHead: Option<nat>,
    readyNext: seq<Option<nat>>,
    blockedHead: Option<nat>,
    blockedNext: seq<Option<nat>>)

  class Simulator {
    const processes: seq<Process>
    const randomLines: seq<nat>
    ghost const w: Workload

    var cycle: nat
    var started: nat
    var finished: seq<Snapshot>
    var blockedCycles: nat
    var running: Process?
    var ready: Process?
    var blocked: Process?
    var quantumCounter: nat

    ghost var g: State
    ghost var links: Links

    ghost function Ref(i: Option<nat>): Process? {
      if i.Some? && i.value < |processes| then processes[i.value] else null
    }

    // The process table describes the jobs of the workload.
    ghost predicate Table() {
      && |processes| == |w.jobs| && randomLines == w.randomLines
      && forall i :: 0 <= i < |processes| ==>
           var p := processes[i];
           p.processID == i && Job(p.A, p.B, p.C, p.M) == w.jobs[i]
    }

    ghost predicate MirrorProcs()
      reads this, processes
    {
      && |processes| == |g.ps| == |links.readyNext| == |links.blockedNext|
      && forall i {:trigger g.ps[i]} :: 0 <= i < |processes| ==>
           processes[i].Holds(g.ps[i], Ref(links.readyNext[i]), Ref(links.blockedNext[i]))
    }

    ghost predicate MirrorGlobals()
      reads this
    {
      && cycle == g.cycle && started == g.started && finished == g.finished
      && blockedCycles == g.blockedCycles && quantumCounter == g.quantumCounter
      && running == Ref(g.running) && ready == Ref(links.readyHead) && blocked == Ref(links.blockedHead)
    }

    ghost predicate Mirror()
      reads this, processes
    {
      Table() && MirrorProcs() && MirrorGlobals()
    }

    // The pointers thread the two lists. Ready processes may carry stale links into the
    // blocked list; the running process carries none.
    ghost predicate Threaded()
      reads this
    {
      && Shape(w, g)
      && Chain(links.readyHead, links.readyNext, g.ready)
      && Chain(links.blockedHead, links.blockedNext, g.blocked)
      && (forall i :: 0 <= i < |links.readyNext| && i !in g.ready ==> links.readyNext[i] == None)
      && (g.running.Some? && g.running.value < |links.blockedNext| && g.running.value !in g.blocked ==>
            links.blockedNext[g.running.value] == None)
    }

    ghost predicate Rep()
      reads this, processes
    {
      Mirror() && Threaded()
    }

    ghost predicate Owns(p: Process) {
      p.processID < |processes| && processes[p.processID] == p
    }

    // ----- One pointer assignment

    method SetBlockedNext(p: Process, q: Process?, ghost j: Option<nat>)
      requires Mirror() && Owns(p) && q == Ref(j)
      modifies p, `links
      ensures Mirror() && links == old(links).(blockedNext := old(links.blockedNext)[p.processID := j])
    {
      p.nextInBlockedList := q;
      links := links.(blockedNext := links.blockedNext[p.processID := j]);
    }

    method SetReadyNext(p: Process, q: Process?, ghost j: Option<nat>)
      requires Mirror() && Owns(p) && q == Ref(j)
      modifies p, `links
      ensures Mirror() && links == old(links).(readyNext := old(links.readyNext)[p.processID := j])
    {
      p.nextInReadyQueue := q;
      links := links.(readyNext := links.readyNext[p.processID := j]);
    }

    method SetStatus(p: Process, status: Status)
      requires Mirror() && Owns(p)
      modifies p, `g
      ensures Mirror()
      ensures g == old(g).(ps := old(g.ps)[p.processID := old(g.ps)[p.processID].(status := status)])
    {
      p.status := status;
      g := g.(ps := g.ps[p.processID := g.ps[p.processID].(status := status)]);
    }

    // ----- Lists

    // Puts p in front of the blocked list.
    method BlockedFront(p: Process)
      requires Rep() && Owns(p) && p.processID !in g.blocked && links.blockedNext[p.processID] == None
      modifies this, processes
      ensures Rep() && g == old(g).(blocked := InsertAt(old(g.blocked), 0, p.processID))
    {
      ghost var i := p.processID;
      ChainFront(links.blockedHead, links.blockedNext, g.blocked, i);
      InsertAtFacts(g.blocked, 0, i);
      if blocked != null {
        SetBlockedNext(p, blocked, links.blockedHead);
      }
      blocked := p;
      links := links.(blockedHead := Some(i), blockedNext := links.blockedNext[i := links.blockedHead]);
      g := g.(blocked := InsertAt(g.blocked, 0, i));
    }

    // Puts p behind pred. At the end of the list the link of p is not written: it must be nil.
    method BlockedBehind(pred: Process, p: Process, ghost k: nat)
      requires Rep() && Owns(p) && p.processID !in g.blocked && links.blockedNext[p.processID] == None
      requires 0 < k <= |g.blocked| && Distinct(g.blocked) && pred == Ref(Nth(g.blocked, k - 1))
      modifies this, processes
      ensures Rep() && g == old(g).(blocked := InsertAt(old(g.blocked), k, p.processID))
    {
      ghost var i, m := p.processID, g.blocked[k - 1];
      assert pred.View() == g.ps[m] && m in g.blocked;
      ChainBehind(links.blockedHead, links.blockedNext, g.blocked, k, i);
      InsertAtFacts(g.blocked, k, i);
      ghost var next := links.blockedNext[i := links.blockedNext[m]];
      if pred.nextInBlockedList != null {
        SetBlockedNext(p, pred.nextInBlockedList, links.blockedNext[m]);
      }
      assert links.blockedNext == next;
      SetBlockedNext(pred, p, Some(i));
      g := g.(blocked := InsertAt(g.blocked, k, i));
    }

    // The process at place k of a list, and where its link leads.
    lemma AtBlocked(k: nat)
      requires Rep() && k < |g.blocked|
      ensures var p := Ref(Nth(g.blocked, k));
        && p != null && p in processes && Owns(p) && p.processID == g.blocked[k] < |g.ps|
        && p.View() == g.ps[g.blocked[k]]
        && p.nextInBlockedList == Ref(Nth(g.blocked, k + 1))
      ensures blocked == Ref(Nth(g.blocked, 0)) && Ref(Nth(g.blocked, |g.blocked|)) == null
    {
      assert processes[g.blocked[k]].View() == g.ps[g.blocked[k]];
      assert links.blockedNext[g.blocked[k]] == Nth(g.blocked, k + 1);
    }

    lemma AtReady(k: nat)
      requires Rep() && k < |g.ready|
      ensures var p := Ref(Nth(g.ready, k));
        && p != null && p in processes && Owns(p) && p.processID == g.ready[k] < |g.ps|
        && p.View() == g.ps[g.ready[k]]
        && p.nextInReadyQueue == Ref(Nth(g.ready, k + 1))
      ensures ready == Ref(Nth(g.ready, 0)) && Ref(Nth(g.ready, |g.ready|)) == null
    {
      assert processes[g.ready[k]].View() == g.ps[g.ready[k]];
      assert links.readyNext[g.ready[k]] == Nth(g.ready, k + 1);
    }

    lemma OwnView(p: Process)
      requires Rep() && Owns(p)
      ensures Shape(w, g) && p.processID < |g.ps| && p.View() == g.ps[p.processID]
      ensures Job(p.A, p.B, p.C, p.M) == w.jobs[p.processID]
    {
      assert p.View() == g.ps[p.processID];
    }

    // The place of p in the blocked list: the process to put it behind.
    method FindBlockedPlace(p: Process) returns (curprocess: Process, ghost k: nat)
      requires Rep() && Owns(p) && g.blocked != [] && p.IOBurst >= g.ps[g.blocked[0]].ioBurst
      ensures 0 < k <= |g.blocked| && curprocess == Ref(Nth(g.blocked, k - 1))
      ensures k == BlockedPosition(g.ps, g.blocked, p.IOBurst)
    {
      hide Rep, Ref;
      OwnView(p);
      AtBlocked(0);
      k := 1;
      curprocess := blocked;
      while curprocess.nextInBlockedList != null
        invariant 0 < k <= |g.blocked| && curprocess == Ref(Nth(g.blocked, k - 1))
        invariant curprocess.nextInBlockedList == Ref(Nth(g.blocked, k))
        invariant forall j :: 0 <= j < k ==> g.ps[g.blocked[j]].ioBurst <= p.IOBurst
        decreases |g.blocked| - k
      {
        AtBlocked(k);
        if p.IOBurst < curprocess.nextInBlockedList.IOBurst {
          break;
        }
        curprocess := curprocess.nextInBlockedList;
        k := k + 1;
      }
      if k < |g.blocked| {
        AtBlocked(k);
      }
      BlockedPositionIs(g.ps, g.blocked, p.IOBurst, k);
    }

    method AddToBlocked(p: Process)
      requires Rep() && Owns(p) && Distinct(g.blocked)
      requires p.processID !in g.blocked && links.blockedNext[p.processID] == None
      modifies this, processes
      ensures Rep() && g == EnterBlocked(old(g), p.processID)
    {
      ghost var i := p.processID;
      ghost var s := g;
      assert p.View() == g.ps[i];
      SetStatus(p, Blocked);
      BlockedPositionSame(s.ps, g.ps, g.blocked, p.IOBurst);
      assert blocked != null ==> blocked.View() == g.ps[g.blocked[0]];
      if blocked == null || p.IOBurst < blocked.IOBurst {
        BlockedFront(p);
      } else {
        ghost var k;
        var curprocess;
        curprocess, k := FindBlockedPlace(p);
        BlockedBehind(curprocess, p, k);
      }
    }

    // Puts p in front of the ready queue.
    method ReadyFront(p: Process)
      requires Rep() && Owns(p) && p.processID !in g.ready
      modifies this, processes
      ensures Rep() && g == old(g).(ready := InsertAt(old(g.ready), 0, p.processID))
    {
      ghost var i := p.processID;
      ChainFront(links.readyHead, links.readyNext, g.ready, i);
      InsertAtFacts(g.ready, 0, i);
      if ready != null {
        SetReadyNext(p, ready, links.readyHead);
      }
      ready := p;
      links := links.(readyHead := Some(i), readyNext := links.readyNext[i := links.readyHead]);
      g := g.(ready := InsertAt(g.ready, 0, i));
    }

    method ReadyBehind(pred: Process, p: Process, ghost k: nat)
      requires Rep() && Owns(p) && p.processID !in g.ready
      requires 0 < k <= |g.ready| && Distinct(g.ready) && pred == Ref(Nth(g.ready, k - 1))
      modifies this, processes
      ensures Rep() && g == old(g).(ready := InsertAt(old(g.ready), k, p.processID))
    {
      ghost var i, m := p.processID, g.ready[k - 1];
      assert pred.View() == g.ps[m] && m in g.ready;
      ChainBehind(links.readyHead, links.readyNext, g.ready, k, i);
      InsertAtFacts(g.ready, k, i);
      ghost var next := links.readyNext[i := links.readyNext[m]];
      if pred.nextInReadyQueue != null {
        SetReadyNext(p, pred.nextInReadyQueue, links.readyNext[m]);
      }
      assert links.readyNext == next;
      SetReadyNext(pred, p, Some(i));
      g := g.(ready := InsertAt(g.ready, k, i));
    }

    method LastReady() returns (curprocess: Process)
      requires Rep() && g.ready != []
      ensures curprocess == Ref(Nth(g.ready, |g.ready| - 1))
    {
      hide Rep, Ref;
      AtReady(0);
      curprocess := ready;
      ghost var k := 1;
      while curprocess.nextInReadyQueue != null
        invariant 0 < k <= |g.ready| && curprocess == Ref(Nth(g.ready, k - 1))
        invariant curprocess.nextInReadyQueue == Ref(Nth(g.ready, k))
        decreases |g.ready| - k
      {
        AtReady(k);
        curprocess := curprocess.nextInReadyQueue;
        k := k + 1;
      }
      if k < |g.ready| {
        AtReady(k);
      }
    }

    method FcfsAddToReady(p: Process)
      requires Rep() && Owns(p) && Distinct(g.ready) && p.processID !in g.ready
      modifies this, processes
      ensures Rep()
      ensures var i := p.processID;
        g == old(g).(ps := old(g.ps)[i := old(g.ps)[i].(status := Ready)], ready := old(g.ready) + [i])
    {
      SetStatus(p, Ready);
      assert InsertAt(g.ready, |g.ready|, p.processID) == g.ready + [p.processID];
      if ready == null {
        ReadyFront(p);
      } else {
        var curprocess := LastReady();
        ReadyBehind(curprocess, p, |g.ready|);
      }
    }

    // A value of type uint32_t.
    static predicate Word(x: nat) {
      x < TWO_TO_THE_32
    }

    // The sorting criterion of sjf_add_to_ready, between `current` and the process after it.
    method ComesBefore(p: Process, current: Process, next: Process) returns (before: bool)
      requires Rep() && Owns(p) && Owns(current) && Owns(next)
      ensures before == SjfBefore(w, g.ps, p.processID, current.processID, next.processID)
      ensures Word(p.C) && Word(p.currentCPUTimeRun) && Word(current.C) && Word(next.currentCPUTimeRun) ==>
        var remaining := (p.C - p.currentCPUTimeRun) % TWO_TO_THE_32;
        var mixed := (current.C - next.currentCPUTimeRun) % TWO_TO_THE_32;
        before <==> remaining < mixed || (remaining == mixed && p.A < next.A)
    {
      assert p.View() == g.ps[p.processID] && next.View() == g.ps[next.processID];
      var timeRemainingNew := Sub32(p.C, p.currentCPUTimeRun);
      var timeRemainingCurrent := Sub32(current.C, next.currentCPUTimeRun);
      before := timeRemainingNew < timeRemainingCurrent
             || (timeRemainingNew == timeRemainingCurrent && p.A < next.A);
    }

    method FindReadyPlace(p: Process) returns (curprocess: Process, ghost k: nat)
      requires Rep() && Owns(p) && g.ready != []
      ensures 0 < k <= |g.ready| && curprocess == Ref(Nth(g.ready, k - 1))
      ensures k == SjfPositionAfter(w, g.ps, g.ready, p.processID, 0)
    {
      hide Rep, Ref, SjfBefore;
      OwnView(p);
      AtReady(0);
      curprocess := ready;
      k := 1;
      while curprocess.nextInReadyQueue != null
        invariant 0 < k <= |g.ready| && curprocess == Ref(Nth(g.ready, k - 1))
        invariant curprocess.nextInReadyQueue == Ref(Nth(g.ready, k))
        invariant SjfPositionAfter(w, g.ps, g.ready, p.processID, 0) ==
                  SjfPositionAfter(w, g.ps, g.ready, p.processID, k - 1)
        decreases |g.ready| - k
      {
        AtReady(k - 1);
        AtReady(k);
        var before := ComesBefore(p, curprocess, curprocess.nextInReadyQueue);
        if before {
          break;
        }
        curprocess := curprocess.nextInReadyQueue;
        k := k + 1;
      }
      AtReady(k - 1);
      if k < |g.ready| {
        AtReady(k);
      }
    }

    method SjfAddToReady(p: Process)
      requires Rep() && Owns(p) && Distinct(g.ready) && p.processID !in g.ready
      modifies this, processes
      ensures Rep()
      ensures var i := p.processID;
        g == old(g).(ps := old(g.ps)[i := old(g.ps)[i].(status := Ready)],
                     ready := EnterReady(SJF, w, old(g.ps), old(g.ready), i))
    {
      ghost var i := p.processID;
      ghost var s := g;
      SetStatus(p, Ready);
      SjfPositionSame(w, s.ps, g.ps, g.ready, i);
      var front := true;
      if ready != null {
        assert ready.View() == g.ps[g.ready[0]];
        front := ComesBefore(p, ready, ready);
      }
      if front {
        ReadyFront(p);
      } else {
        ghost var k;
        var curprocess;
        curprocess, k := FindReadyPlace(p);
        ReadyBehind(curprocess, p, k);
      }
    }

    // ----- The phases of a cycle

    // Decrements the I/O burst of a blocked process.
    method DecrementIO(p: Process)
      requires Mirror() && Owns(p)
      modifies p, `g
      ensures Mirror() && p.nextInBlockedList == old(p.nextInBlockedList)
      ensures var i := p.processID; var v := old(g.ps)[i];
        && p.IOBurst == Sub32(v.ioBurst, 1)
        && g == old(g).(ps := old(g.ps)[i := v.(ioBurst := Sub32(v.ioBurst, 1), ioTime := v.ioTime + 1)])
    {
      ghost var i, v := p.processID, g.ps[p.processID];
      p.IOBurst := Sub32(p.IOBurst, 1);
      p.currentIOBlockedTime := p.currentIOBlockedTime + 1;
      g := g.(ps := g.ps[i := v.(ioBurst := Sub32(v.ioBurst, 1), ioTime := v.ioTime + 1)]);
    }

    // Advances the head of the blocked list.
    method PopBlocked()
      requires Rep() && g.blocked != [] && (g.running.Some? ==> g.running.value !in g.blocked)
      modifies this
      ensures Rep() && g == old(g).(blocked := old(g.blocked)[1..])
    {
      assert blocked.View() == g.ps[g.blocked[0]];
      ChainTail(links.blockedHead, links.blockedNext, g.blocked);
      links := links.(blockedHead := links.blockedNext[g.blocked[0]]);
      blocked := blocked.nextInBlockedList;
      g := g.(blocked := g.blocked[1..]);
    }

    // One step of the walk over the blocked list, at place j, after e processes have left it.
    method TickOne(curprocess: Process, ghost s: State, ghost j: nat, ghost e: nat)
      returns (next: Process?, ghost e': nat)
      requires Rep() && Inv(w, s, Boundary) && Walking(s, j, e) && j < |s.blocked|
      requires g == Halfway(s, j, e) && curprocess == Ref(Some(s.blocked[j]))
      modifies this, processes
      ensures Rep() && Walking(s, j + 1, e') && g == Halfway(s, j + 1, e')
      ensures next == Ref(Nth(s.blocked, j + 1))
    {
      hide Halfway, Expired, Inv;
      ghost var i := s.blocked[j];
      InvLists(w, s);
      HalfwayPlaces(w, s, j, e);
      HalfwayNext(w, s, j, e);
      HalfwayBlocked(s, j, e);
      assert curprocess.View() == g.ps[i];
      assert g.blocked[j - e] == i;
      assert links.blockedNext[g.blocked[j - e]] == Nth(g.blocked, j - e + 1);
      e' := e;
      DecrementIO(curprocess);
      if curprocess.IOBurst != 0 {
        next := curprocess.nextInBlockedList;
      } else {
        FcfsAddToReady(curprocess);
        PopBlocked();
        next := blocked;
        e' := e + 1;
      }
    }

    // The walk over the blocked list only ever removes its head, and yet ticks every blocked
    // process once and moves out exactly those whose I/O has ended.
    method TickBlockedList()
      requires Rep() && Inv(w, g, Boundary)
      modifies this, processes
      ensures Rep() && g == TickBlocked(w, old(g))
    {
      hide Inv, Expired, TickBlocked, Halfway;
      ghost var s := g;
      if blocked != null {
        blockedCycles := blockedCycles + 1;
        g := g.(blockedCycles := g.blockedCycles + 1);
        HalfwayStart(s);
        var curprocess := blocked;
        ghost var j, e := 0, 0;
        while curprocess != null
          invariant Rep() && Walking(s, j, e) && g == Halfway(s, j, e)
          invariant curprocess == Ref(Nth(s.blocked, j))
          decreases |s.blocked| - j
        {
          curprocess, e := TickOne(curprocess, s, j, e);
          j := j + 1;
        }
        HalfwayEnd(w, s, e);
      } else {
        TickNobody(w, s);
      }
    }

    // The arrivals of this cycle enter the ready queue in the order of the process list.
    method AddArrivals(ghost pol: Policy, sjf: bool)
      requires Rep() && Inv(w, g, Ticked) && sjf == pol.SJF?
      modifies this, processes
      ensures Rep() && g == Admit(pol, w, old(g), |w.jobs|)
    {
      hide Inv, Admit, EnterReady;
      ghost var s := g;
      AdmitNothing(pol, w, s);
      for i := 0 to |processes|
        invariant Rep() && g == Admit(pol, w, s, i)
      {
        AdmitNext(pol, w, s, i);
        if processes[i].A == cycle {
          if sjf {
            SjfAddToReady(processes[i]);
          } else {
            FcfsAddToReady(processes[i]);
          }
        }
      }
    }

    method GetRandNumFromFile(line: nat) returns (r: nat)
      requires line >= 1
      ensures r == RandomNumber(randomLines, line)
      ensures line <= |randomLines| ==> r == randomLines[line - 1]
      ensures line > |randomLines| ==> r == 1804289383
    {
      var end, loop, str := false, 0, 0;
      while loop < line
        invariant loop <= line && loop <= |randomLines|
        invariant loop > 0 ==> str == randomLines[loop - 1]
        invariant !end
      {
        if loop == |randomLines| {
          end := true;
          break;
        }
        str := randomLines[loop];
        loop := loop + 1;
      }
      r := if !end then str else FALLBACK_RANDOM;
    }

    method RandomOS(upperBound: nat, processIndex: nat) returns (r: nat)
      requires upperBound >= 1
      ensures r == 1 + RandomNumber(randomLines, SEED_VALUE + processIndex) % upperBound
      ensures var line := 200 + processIndex;
        r == 1 + (if line <= |randomLines| then randomLines[line - 1] else 1804289383) % upperBound
    {
      var unsignedRandInt := GetRandNumFromFile(SEED_VALUE + processIndex);
      r := 1 + unsignedRandInt % upperBound;
    }

    method LoadBurst(p: Process)
      requires Mirror() && Owns(p)
      modifies p, `g
      ensures Mirror()
      ensures var i := p.processID; var v := old(g.ps)[i];
        g == old(g).(ps := old(g.ps)[i := Scheduler.LoadBurst(w, i, v)])
    {
      ghost var i, v := p.processID, g.ps[p.processID];
      assert p.View() == v;
      if p.CPUBurst == 0 {
        var timeLeft := Sub32(p.C, p.currentCPUTimeRun);
        var burst := RandomOS(p.B, p.processID);
        assert burst == Burst(w, i);
        if timeLeft < burst {
          p.CPUBurst := timeLeft;
        } else {
          p.CPUBurst := burst;
          p.IOBurst := burst * p.M;
        }
      }
      g := g.(ps := g.ps[i := Scheduler.LoadBurst(w, i, v)]);
    }

    method StartProcess(p: Process)
      requires Mirror() && Owns(p)
      modifies p, `g, `links, `started
      ensures Mirror()
      ensures var i := p.processID; var v := old(g.ps)[i];
        && g == old(g).(ps := old(g.ps)[i := Scheduler.StartProcess(w, i, v)],
                        started := if v.firstTime then old(g).started + 1 else old(g).started)
        && links == old(links).(readyNext := old(links).readyNext[i := None],
                                blockedNext := old(links).blockedNext[i := None])
    {
      ghost var i, v := p.processID, g.ps[p.processID];
      LoadBurst(p);
      SetBlockedNext(p, null, None);
      SetReadyNext(p, null, None);
      SetStatus(p, Running);
      CountStart(p);
      assert g.ps == old(g.ps)[i := Scheduler.StartProcess(w, i, v)];
    }

    method CountStart(p: Process)
      requires Mirror() && Owns(p)
      modifies p, `g, `started
      ensures Mirror()
      ensures var i := p.processID; var v := old(g.ps)[i];
        g == old(g).(ps := old(g.ps)[i := v.(firstTime := false)],
                     started := if v.firstTime then old(g).started + 1 else old(g).started)
    {
      ghost var i, v := p.processID, g.ps[p.processID];
      assert p.View() == v;
      if p.isFirstTimeRunning {
        started := started + 1;
        p.isFirstTimeRunning := false;
      }
      g := g.(ps := g.ps[i := v.(firstTime := false)], started := if v.firstTime then g.started + 1 else g.started);
    }

    // Runs the head of the ready queue, if there is one.
    method StartNext()
      requires Rep() && Distinct(g.ready) && (forall i :: i in g.ready ==> i !in g.blocked)
      requires g.running.None?
      modifies this, processes
      ensures Rep() && g == Scheduler.StartNext(w, old(g))
    {
      if ready != null {
        ghost var list, i := g.ready, g.ready[0];
        assert ready.View() == g.ps[i] && i in list;
        ChainTail(links.readyHead, links.readyNext, list);
        ChainOther(links.readyNext[i], links.readyNext, list[1..], i, None);
        ChainOther(links.blockedHead, links.blockedNext, g.blocked, i, None);
        running := ready;
        ready := ready.nextInReadyQueue;
        links := links.(readyHead := links.readyNext[i]);
        g := g.(running := Some(i), ready := list[1..]);
        StartProcess(running);
        assert forall j :: j in list ==> j == i || j in list[1..];
      }
    }

    method RunOneUnit(p: Process)
      requires Mirror() && Owns(p)
      modifies p, `g
      ensures Mirror() && g == old(g).(ps := old(g.ps)[p.processID := TickCPU(old(g.ps)[p.processID])])
    {
      ghost var i, v := p.processID, g.ps[p.processID];
      assert p.View() == v;
      p.currentCPUTimeRun := p.currentCPUTimeRun + 1;
      p.CPUBurst := Sub32(p.CPUBurst, 1);
      g := g.(ps := g.ps[i := TickCPU(v)]);
    }

    method Terminate(p: Process)
      requires Mirror() && Owns(p)
      modifies p, `g, `finished
      ensures Mirror()
      ensures var i := p.processID;
        var q := old(g.ps)[i].(status := Terminated, finishingTime := old(g.cycle));
        g == old(g).(ps := old(g.ps)[i := q], finished := old(g.finished) + [Snapshot(i, q)])
    {
      ghost var i, v := p.processID, g.ps[p.processID];
      assert p.View() == v;
      p.status := Terminated;
      p.finishingTime := cycle;
      finished := finished + [Snapshot(p.processID, p.View())];
      ghost var q := v.(status := Terminated, finishingTime := g.cycle);
      g := g.(ps := g.ps[i := q], finished := g.finished + [Snapshot(i, q)]);
    }

    method TerminateRunning()
      requires Rep() && g.running.Some? && g.running.value !in g.ready && g.running.value !in g.blocked
      modifies this, processes
      ensures Rep()
      ensures var i := old(g.running.value);
        var q := old(g.ps)[i].(status := Terminated, finishingTime := old(g.cycle));
        g == old(g).(ps := old(g.ps)[i := q], running := None, finished := old(g.finished) + [Snapshot(i, q)])
    {
      Terminate(running);
      running := null;
      g := g.(running := None);
    }

    method BlockRunning()
      requires Rep() && g.running.Some? && g.running.value !in g.blocked && Distinct(g.blocked)
      modifies this, processes
      ensures Rep() && g == EnterBlocked(old(g).(running := None), old(g.running.value))
    {
      AddToBlocked(running);
      ClearRunning();
    }

    method TickRunningProcess()
      requires Rep() && Inv(w, g, Admitted)
      modifies this, processes
      ensures Rep() && g == TickRunning(w, old(g))
    {
      if running != null {
        ghost var s, i := g, g.running.value;
        RunningAlone(w, s);
        hide Inv, EnterBlocked;
        RunOneUnit(running);
        assert running.View() == g.ps[i];
        if running.currentCPUTimeRun == running.C {
          TerminateRunning();
          assert g.ps == TickRunning(w, s).ps;
        } else if running.CPUBurst == 0 {
          BlockRunning();
        }
      }
    }

    // End of the quantum: the running process goes to the end of the ready queue.
    method PreemptRunning()
      requires Rep() && Inv(w, g, Served)
      modifies this, processes
      ensures Rep() && g == Preempt(w, old(g))
    {
      if running != null {
        RunningApart(w, g);
        hide Inv;
        FcfsAddToReady(running);
        ClearRunning();
      }
    }

    method ClearRunning()
      requires Rep()
      modifies this
      ensures Rep() && g == old(g).(running := None)
    {
      running := null;
      g := g.(running := None);
    }

    method AddWaiting(p: Process)
      requires Mirror() && Owns(p)
      modifies p, `g
      ensures Mirror() && p.nextInReadyQueue == old(p.nextInReadyQueue)
      ensures var i := p.processID; var v := old(g.ps)[i];
        g == old(g).(ps := old(g.ps)[i := v.(waitTime := v.waitTime + 1)])
    {
      ghost var i, v := p.processID, g.ps[p.processID];
      assert p.View() == v;
      p.currentWaitingTime := p.currentWaitingTime + 1;
      g := g.(ps := g.ps[i := v.(waitTime := v.waitTime + 1)]);
    }

    method ChargeReadyQueue()
      requires Rep() && Distinct(g.ready)
      modifies this, processes
      ensures Rep() && g == ChargeWaiting(w, old(g))
    {
      hide ChargeWaiting, Charged;
      ghost var s, k := g, 0;
      ChargedEnds(w, s);
      var curprocess := ready;
      while curprocess != null
        invariant Rep() && k <= |s.ready| && g == Charged(s, k) && g.ready == s.ready
        invariant curprocess == Ref(Nth(s.ready, k))
        decreases |s.ready| - k
      {
        ghost var i := s.ready[k];
        ChargedNext(s, k);
        assert curprocess.View() == g.ps[i];
        AddWaiting(curprocess);
        curprocess := curprocess.nextInReadyQueue;
        k := k + 1;
      }
    }

    // ----- Cycles

    // The part of a cycle that all schedulers share; they differ in how arrivals are queued.
    method ServeCycle(ghost pol: Policy, sjf: bool)
      requires Rep() && Inv(w, g, Boundary) && sjf == pol.SJF?
      modifies this, processes
      ensures Rep() && Inv(w, g, Served) && g == BeforeDispatch(pol, w, old(g))
    {
      ghost var s := g;
      hide Inv, Rep, TickBlocked, TickRunning, Admit;
      CycleKeeps(pol, w, s);
      RepShape();
      TickBlockedList();
      AddArrivals(pol, sjf);
      TickRunningProcess();
    }

    lemma RepShape()
      requires Rep()
      ensures Shape(w, g) && (running == null <==> g.running.None?) && quantumCounter == g.quantumCounter
    {
    }

    method EndCycle()
      requires Rep() && Distinct(g.ready)
      modifies this, processes
      ensures Rep() && g == ChargeWaiting(w, old(g)).(cycle := old(g.cycle) + 1)
    {
      hide ChargeWaiting;
      ChargeReadyQueue();
      cycle := cycle + 1;
      g := g.(cycle := g.cycle + 1);
    }

    // One pass through the loop of fcfs_run, or of sjf_run.
    method PlainCycle(ghost pol: Policy, sjf: bool)
      requires Rep() && Inv(w, g, Boundary) && sjf == pol.SJF? && !pol.RR?
      modifies this, processes
      ensures Rep() && g == Step(pol, w, old(g))
    {
      hide Rep, Inv, BeforeDispatch, Scheduler.StartNext, ChargeWaiting;
      RepShape();
      ServeCycle(pol, sjf);
      DispatchLists(pol, w, g);
      RepShape();
      if running == null {
        StartNext();
      }
      EndCycle();
    }

    // One pass through the loop of rr_run.
    method RoundRobinCycle(quantum: nat)
      requires Rep() && Inv(w, g, Boundary)
      modifies this, processes
      ensures Rep() && g == Step(RR(quantum), w, old(g))
    {
      hide Rep, Inv, BeforeDispatch, Scheduler.StartNext, Preempt, ChargeWaiting;
      RepShape();
      ServeCycle(RR(quantum), false);
      DispatchLists(RR(quantum), w, g);
      RepShape();
      if quantumCounter == 0 || running == null {
        SetQuantum(quantum);
        PreemptRunning();
        StartNext();
      }
      EndCycle();
      RepShape();
      SetCounter(Sub32(quantumCounter, 1));
    }

    method SetCounter(counter: nat)
      requires Rep()
      modifies this
      ensures Rep() && g == old(g).(quantumCounter := counter)
    {
      quantumCounter := counter;
      g := g.(quantumCounter := counter);
    }

    method SetQuantum(quantum: nat)
      requires Rep() && Inv(w, g, Served)
      modifies this
      ensures Rep() && Inv(w, g, Served) && g == old(g).(quantumCounter := quantum)
    {
      QuantumKeeps(w, g, quantum, Served);
      hide Inv;
      SetCounter(quantum);
    }

    // ----- Runs

    ghost predicate Started()
      reads this, processes
    {
      Rep() && g == Initial(w, g.quantumCounter)
    }

    // A whole run has been made: the loop has stopped, after `cycle` cycles.
    ghost predicate Finished(pol: Policy, garbage: nat)
      reads this, processes
    {
      Rep() && g == After(pol, w, garbage, cycle) && StopsAfter(pol, w, garbage, cycle)
    }

    ghost predicate Midway(pol: Policy, garbage: nat)
      reads this, processes
    {
      && Rep() && g == After(pol, w, garbage, cycle)
      && forall u: nat :: u < cycle ==> !Done(w, After(pol, w, garbage, u))
    }

    lemma MidwayFacts(pol: Policy, garbage: nat)
      requires Midway(pol, garbage)
      ensures Rep() && Inv(w, g, Boundary)
      ensures Done(w, g) <==> |finished| == |processes|
      ensures !Done(w, g) ==> cycle <= Totals.MakespanBound(w)
    {
      hide Step, Inv;
      RunKeeps(pol, w, garbage, cycle);
      if !Done(w, g) {
        Totals.RunningInBound(pol, w, garbage, cycle);
      }
    }

    lemma MidwayNext(pol: Policy, garbage: nat, s: State, t: nat)
      requires s == After(pol, w, garbage, t) && !Done(w, s)
      requires forall u: nat :: u < t ==> !Done(w, After(pol, w, garbage, u))
      requires Rep() && g == Step(pol, w, s)
      ensures Midway(pol, garbage) && cycle == t + 1
    {
      hide Step, Done;
      AfterNext(pol, w, garbage, t + 1);
    }

    method NextPlainCycle(ghost pol: Policy, sjf: bool, ghost garbage: nat)
      requires Midway(pol, garbage) && !Done(w, g) && sjf == pol.SJF? && !pol.RR?
      modifies this, processes
      ensures Midway(pol, garbage) && cycle == old(cycle) + 1
    {
      hide Inv, Step, Done;
      ghost var s, t := g, cycle;
      MidwayFacts(pol, garbage);
      PlainCycle(pol, sjf);
      MidwayNext(pol, garbage, s, t);
    }

    method NextRoundRobinCycle(quantum: nat, ghost garbage: nat)
      requires Midway(RR(quantum), garbage) && !Done(w, g)
      modifies this, processes
      ensures Midway(RR(quantum), garbage) && cycle == old(cycle) + 1
    {
      hide Inv, Step, Done;
      ghost var s, t := g, cycle;
      MidwayFacts(RR(quantum), garbage);
      RoundRobinCycle(quantum);
      MidwayNext(RR(quantum), garbage, s, t);
    }

    method FcfsRun()
      requires Started()
      modifies this, processes
      ensures Finished(FCFS, old(g.quantumCounter))
    {
      ghost var garbage := g.quantumCounter;
      hide Rep, Inv, Step, Done;
      MidwayStart(FCFS);
      MidwayFacts(FCFS, garbage);
      while |finished| != |processes|
        invariant Midway(FCFS, garbage) && (Done(w, g) <==> |finished| == |processes|)
        decreases Totals.MakespanBound(w) + 1 - cycle
      {
        MidwayFacts(FCFS, garbage);
        NextPlainCycle(FCFS, false, garbage);
        MidwayFacts(FCFS, garbage);
      }
    }

    method RrRun(quantum: nat)
      requires Started()
      modifies this, processes
      ensures Finished(RR(quantum), old(g.quantumCounter))
    {
      ghost var garbage := g.quantumCounter;
      hide Rep, Inv, Step, Done;
      MidwayStart(RR(quantum));
      MidwayFacts(RR(quantum), garbage);
      while |finished| != |processes|
        invariant Midway(RR(quantum), garbage) && (Done(w, g) <==> |finished| == |processes|)
        decreases Totals.MakespanBound(w) + 1 - cycle
      {
        MidwayFacts(RR(quantum), garbage);
        NextRoundRobinCycle(quantum, garbage);
        MidwayFacts(RR(quantum), garbage);
      }
    }

    method SjfRun()
      requires Started()
      modifies this, processes
      ensures Finished(SJF, old(g.quantumCounter))
    {
      ghost var garbage := g.quantumCounter;
      hide Rep, Inv, Step, Done;
      MidwayStart(SJF);
      MidwayFacts(SJF, garbage);
      while |finished| != |processes|
        invariant Midway(SJF, garbage) && (Done(w, g) <==> |finished| == |processes|)
        decreases Totals.MakespanBound(w) + 1 - cycle
      {
        MidwayFacts(SJF, garbage);
        NextPlainCycle(SJF, true, garbage);
        MidwayFacts(SJF, garbage);
      }
    }

    lemma MidwayStart(pol: Policy)
      requires Started()
      ensures Midway(pol, g.quantumCounter)
    {
    }

    // ----- Reset

    method ResetProcessList()
      requires Table()
      modifies processes
      ensures forall i :: 0 <= i < |processes| ==> processes[i].Holds(RESET_PROC, null, null)
    {
      for i := 0 to |processes|
        invariant forall k :: 0 <= k < i ==> processes[k].Holds(RESET_PROC, null, null)
      {
        ResetProcess(processes[i]);
      }
    }

    method ResetProcess(p: Process)
      modifies p
      ensures p.Holds(RESET_PROC, null, null)
    {
      p.currentCPUTimeRun := 0;
      p.currentIOBlockedTime := 0;
      p.currentWaitingTime := 0;
      p.finishingTime := -1;
      p.CPUBurst := 0;
      p.IOBurst := 0;
      p.status := Unstarted;
      p.isFirstTimeRunning := true;
      p.nextInBlockedList := null;
      p.nextInReadyQueue := null;
    }

    // reset_counters, reset_process_list, and the empty lists every run starts with.
    method Reset()
      requires Table()
      modifies this, processes
      ensures Started()
    {
      cycle, started, blockedCycles := 0, 0, 0;
      finished := [];
      ResetProcessList();
      running, ready, blocked := null, null, null;
      g := Initial(w, quantumCounter);
      links := Links(None, seq(|processes|, i => None), None, seq(|processes|, i => None));
    }

    // ----- The whole program

    constructor (ghost workload: Workload, jobs: seq<Job>, lines: seq<nat>, uninitialised: nat)
      requires workload == Input(jobs, lines)
      ensures Table() && w == workload && fresh(processes)
    {
      var list: seq<Process> := [];
      for i := 0 to |jobs|
        invariant |list| == i && fresh(list)
        invariant forall k :: 0 <= k < i ==>
          var p := list[k]; p.processID == k && Job(p.A, p.B, p.C, p.M) == jobs[k]
      {
        var p := new Process(jobs[i], i);
        list := list + [p];
      }
      processes := list;
      randomLines := lines;
      w := workload;
      quantumCounter := uninitialised;
    }

    // The three runs that main makes over one process list.
    method RunSchedulers() returns (fcfs: seq<Proc>, rr: seq<Proc>, sjf: seq<Proc>)
      requires Table()
      modifies this, processes
      ensures |fcfs| == |rr| == |sjf| == |w.jobs|
      ensures forall i :: 0 <= i < |w.jobs| ==>
        && Totals.Completed(w, i, fcfs[i]) && Totals.Completed(w, i, rr[i]) && Totals.Completed(w, i, sjf[i])
        && fcfs[i].ioTime == rr[i].ioTime == sjf[i].ioTime
        && fcfs[i].finishingTime - fcfs[i].waitTime == rr[i].finishingTime - rr[i].waitTime
             == sjf[i].finishingTime - sjf[i].waitTime
      ensures Final(FCFS, w, fcfs) && Final(RR(2), w, rr) && Final(SJF, w, sjf)
    {
      hide Rep, Started, Finished, Table;
      Reset();
      ghost var garbage := g.quantumCounter;
      FcfsRun();
      FinishedViews(FCFS, garbage);
      fcfs := FinalViews(FCFS, garbage);
      Reset();
      garbage := g.quantumCounter;
      RrRun(QUANTUM);
      FinishedViews(RR(QUANTUM), garbage);
      rr := FinalViews(RR(QUANTUM), garbage);
      Reset();
      garbage := g.quantumCounter;
      SjfRun();
      FinishedViews(SJF, garbage);
      sjf := FinalViews(SJF, garbage);
    }

    method FinalViews(ghost pol: Policy, ghost garbage: nat) returns (r: seq<Proc>)
      requires Finished(pol, garbage)
      ensures r == Views() && Final(pol, w, r)
    {
      hide Step, StopsAfter;
      r := Views();
      assert r == After(pol, w, garbage, cycle).ps;
    }

    lemma FinishedViews(pol: Policy, garbage: nat)
      requires Finished(pol, garbage)
      ensures Table() && |Views()| == |w.jobs|
      ensures forall i :: 0 <= i < |w.jobs| ==> Totals.Completed(w, i, Views()[i])
    {
      hide Step, Totals.Completed;
      Totals.Outcome(pol, w, garbage, cycle);
      forall i | 0 <= i < |w.jobs| ensures Totals.Completed(w, i, Views()[i]) {
        assert Views()[i] == g.ps[i];
      }
    }

    function Views(): (r: seq<Proc>)
      reads processes
      ensures |r| == |processes|
    {
      seq(|processes|, i requires 0 <= i < |processes| reads processes => processes[i].View())
    }
  }

  // The processes as some run of this scheduler leaves them, when its loop has ended.
  ghost predicate Final(pol: Policy, w: Workload, ps: seq<Proc>) {
    exists garbage: nat, t: nat :: StopsAfter(pol, w, garbage, t) && ps == After(pol, w, garbage, t).ps
  }

  // The lists before and after a dispatch are without duplicates.
  lemma DispatchLists(pol: Policy, w: Workload, c: State)
    requires Inv(w, c, Served)
    ensures Shape(w, c) && Distinct(c.ready) && (forall i :: i in c.ready ==> i !in c.blocked)
    ensures Distinct(Dispatch(pol, w, c).ready)
    ensures pol.RR? ==> var p := Preempt(w, c.(quantumCounter := pol.quantum));
      p.running.None? && Distinct(p.ready) && forall i :: i in p.ready ==> i !in p.blocked
  {
    ReadyNotBlocked(c);
    DispatchKeeps(pol, w, c);
    if pol.RR? {
      QuantumKeeps(w, c, pol.quantum, Served);
      PreemptKeeps(w, c.(quantumCounter := pol.quantum));
      ReadyNotBlocked(Preempt(w, c.(quantumCounter := pol.quantum)));
    }
  }

  lemma CycleKeeps(pol: Policy, w: Workload, s: State)
    requires Inv(w, s, Boundary)
    ensures Shape(w, s)
    ensures Inv(w, TickBlocked(w, s), Ticked)
    ensures Inv(w, Admit(pol, w, TickBlocked(w, s), |w.jobs|), Admitted)
    ensures Inv(w, BeforeDispatch(pol, w, s), Served)
  {
    TickBlockedKeeps(w, s);
    AdmitKeeps(pol, w, TickBlocked(w, s), |w.jobs|);
    BeforeDispatchKeeps(pol, w, s);
  }

  lemma RunningAlone(w: Workload, s: State)
    requires Inv(w, s, Admitted) && s.running.Some?
    ensures var i := s.running.value;
      i < |s.ps| && i !in s.ready && i !in s.blocked && Distinct(s.blocked) && s.ps[i].status == Running
  {
    assert Placed(s, s.running.value);
  }

  lemma RunningApart(w: Workload, s: State)
    requires Inv(w, s, Served) && s.running.Some?
    ensures s.running.value !in s.ready && Distinct(s.ready)
  {
    assert Placed(s, s.running.value);
  }

  // The first k processes of the ready queue have been charged.
  ghost function Charged(s: State, k: nat): State
    requires k <= |s.ready|
  {
    s.(ps := seq(|s.ps|, i requires 0 <= i < |s.ps| =>
                   if i in s.ready[..k] then s.ps[i].(waitTime := s.ps[i].waitTime + 1) else s.ps[i]))
  }

  lemma ChargedEnds(w: Workload, s: State)
    requires Shape(w, s)
    ensures Charged(s, 0) == s && Charged(s, |s.ready|) == ChargeWaiting(w, s)
  {
    assert s.ready[..|s.ready|] == s.ready;
    assert Charged(s, 0).ps == s.ps;
    assert Charged(s, |s.ready|).ps == ChargeWaiting(w, s).ps;
  }

  lemma ChargedNext(s: State, k: nat)
    requires k < |s.ready| && InRange(s.ready, |s.ps|) && Distinct(s.ready)
    ensures var h, i := Charged(s, k), s.ready[k];
      |h.ps| == |s.ps| && h.ready == s.ready &&
      Charged(s, k + 1) == h.(ps := h.ps[i := h.ps[i].(waitTime := h.ps[i].waitTime + 1)])
  {
    var h, i := Charged(s, k), s.ready[k];
    assert s.ready[..k + 1] == s.ready[..k] + [i];
    assert i !in s.ready[..k];
    assert Charged(s, k + 1).ps == h.ps[i := h.ps[i].(waitTime := h.ps[i].waitTime + 1)];
  }

  lemma AdmitNothing(pol: Policy, w: Workload, s: State)
    requires Shape(w, s)
    ensures Admit(pol, w, s, 0) == s
  {
  }

  // The next process of the list, if it arrives now, is on no list yet.
  lemma AdmitNext(pol: Policy, w: Workload, s: State, i: nat)
    requires Inv(w, s, Ticked) && i < |w.jobs|
    ensures var t := Admit(pol, w, s, i);
      Admit(pol, w, s, i + 1) ==
      if w.jobs[i].arrival != s.cycle then t
      else t.(ps := t.ps[i := t.ps[i].(status := Ready)], ready := EnterReady(pol, w, t.ps, t.ready, i))
    ensures var t := Admit(pol, w, s, i);
      && Distinct(t.ready)
      && (w.jobs[i].arrival == s.cycle ==> i !in t.ready)
      && (!pol.SJF? ==> EnterReady(pol, w, t.ps, t.ready, i) == t.ready + [i])
      && (pol.SJF? ==> EnterReady(pol, w, t.ps, t.ready, i) == EnterReady(SJF, w, t.ps, t.ready, i))
  {
    AdmitKeeps(pol, w, s, i);
    var t := Admit(pol, w, s, i);
    ArrivalProc(w, i, t.ps[i], s.cycle);
    assert Placed(t, i);
  }

  lemma InvLists(w: Workload, s: State)
    requires Inv(w, s, Boundary)
    ensures Shape(w, s) && Distinct(s.ready) && Distinct(s.blocked)
  {
  }

  lemma TickNobody(w: Workload, s: State)
    requires Shape(w, s) && s.blocked == []
    ensures TickBlocked(w, s) == s
  {
    assert TickBlocked(w, s).ps == s.ps;
  }

  // How far the walk is: as long as no process had I/O left, all have been moved out.
  ghost predicate Walking(s: State, j: nat, e: nat) {
    && e <= j <= |s.blocked| && InRange(s.blocked, |s.ps|)
    && if e < j then e == Expired(s.ps, s.blocked) else e <= Expired(s.ps, s.blocked)
  }

  lemma HalfwayBlocked(s: State, j: nat, e: nat)
    requires e <= j < |s.blocked|
    ensures var list := Halfway(s, j, e).blocked;
      j - e < |list| && list[j - e] == s.blocked[j] && Nth(list, j - e + 1) == Nth(s.blocked, j + 1)
    ensures e == j ==> Nth(Halfway(s, j, e).blocked[1..], 0) == Nth(s.blocked, j + 1)
  {
  }

  // The walk has ticked the first j blocked processes, and moved the first e of them out.
  ghost function Halfway(s: State, j: nat, e: nat): State
    requires e <= j <= |s.blocked|
  {
    s.(ps := seq(|s.ps|, i requires 0 <= i < |s.ps| => if i in s.blocked[..j] then TickIO(s.ps[i]) else s.ps[i]),
       ready := s.ready + s.blocked[..e],
       blocked := s.blocked[e..],
       blockedCycles := s.blockedCycles + 1)
  }

  lemma HalfwayStart(s: State)
    ensures Halfway(s, 0, 0) == s.(blockedCycles := s.blockedCycles + 1)
  {
    assert Halfway(s, 0, 0).ps == s.ps;
  }

  // The process the walk has come to is still as it was, and not in the ready queue. If it
  // ends its I/O now, everything before it has been moved out, so that it is the head.
  lemma HalfwayPlaces(w: Workload, s: State, j: nat, e: nat)
    requires Inv(w, s, Boundary) && Walking(s, j, e) && j < |s.blocked|
    ensures var h, i := Halfway(s, j, e), s.blocked[j];
      && i < |s.ps| && h.ps[i] == s.ps[i]
      && i !in h.ready && Distinct(h.ready)
      && (h.running.Some? ==> h.running.value !in h.blocked)
      && s.ps[i].ioBurst >= 1
      && (s.ps[i].ioBurst == 1 ==> e == j && e < Expired(s.ps, s.blocked))
      && (s.ps[i].ioBurst != 1 && e == j ==> e == Expired(s.ps, s.blocked))
  {
    hide ProcOk;
    ExpiredFacts(s.ps, s.blocked);
    ReadyNotBlocked(s);
    MoveFacts(s.ready, s.blocked, e);
    var i := s.blocked[j];
    assert i in s.blocked[e..] by { assert s.blocked[e..][j - e] == i; }
    assert i in s.blocked;
    assert i !in s.blocked[..j];
    if s.running.Some? {
      assert Placed(s, s.running.value);
    }
  }

  lemma HalfwayNext(w: Workload, s: State, j: nat, e: nat)
    requires Shape(w, s) && Distinct(s.blocked) && e <= j < |s.blocked|
    ensures var h, i := Halfway(s, j, e), s.blocked[j];
      && Halfway(s, j + 1, e) == h.(ps := h.ps[i := TickIO(s.ps[i])])
      && (e == j ==>
            Halfway(s, j + 1, e + 1) ==
            h.(ps := h.ps[i := TickIO(s.ps[i])], ready := h.ready + [i], blocked := h.blocked[1..]))
  {
    var h, i := Halfway(s, j, e), s.blocked[j];
    assert s.blocked[..j + 1] == s.blocked[..j] + [i];
    assert i !in s.blocked[..j];
    assert Halfway(s, j + 1, e).ps == h.ps[i := TickIO(s.ps[i])];
    if e == j {
      assert s.ready + s.blocked[..e + 1] == s.ready + s.blocked[..e] + [i];
      assert s.blocked[e..][1..] == s.blocked[e + 1..];
    }
  }

  lemma HalfwayEnd(w: Workload, s: State, e: nat)
    requires Shape(w, s) && s.blocked != [] && Walking(s, |s.blocked|, e)
    ensures Halfway(s, |s.blocked|, e) == TickBlocked(w, s)
  {
    assert s.blocked[..|s.blocked|] == s.blocked;
    assert Halfway(s, |s.blocked|, e).ps == TickBlocked(w, s).ps;
  }

  lemma {:induction false} SjfPositionAfterSame(w: Workload, ps: seq<Proc>, ps': seq<Proc>, ready: seq<nat>, i: nat,
                                                at: nat)
    requires |ps| == |ps'| == |w.jobs| && i < |ps| && at < |ready| && InRange(ready, |ps|)
    requires forall j :: 0 <= j < |ps| ==> ps[j].cpuTime == ps'[j].cpuTime
    ensures SjfPositionAfter(w, ps, ready, i, at) == SjfPositionAfter(w, ps', ready, i, at)
    decreases |ready| - at
  {
    if at + 1 < |ready| {
      SjfPositionAfterSame(w, ps, ps', ready, i, at + 1);
    }
  }

  lemma SjfPositionSame(w: Workload, ps: seq<Proc>, ps': seq<Proc>, ready: seq<nat>, i: nat)
    requires |ps| == |ps'| == |w.jobs| && i < |ps| && InRange(ready, |ps|)
    requires forall j :: 0 <= j < |ps| ==> ps[j].cpuTime == ps'[j].cpuTime
    ensures SjfPosition(w, ps, ready, i) == SjfPosition(w, ps', ready, i)
  {
    if ready != [] {
      SjfPositionAfterSame(w, ps, ps', ready, i, 0);
    }
  }

  lemma {:induction false} BlockedPositionSame(ps: seq<Proc>, ps': seq<Proc>, blocked: seq<nat>, burst: nat)
    requires |ps| == |ps'| && InRange(blocked, |ps|)
    requires forall j :: 0 <= j < |ps| ==> ps[j].ioBurst == ps'[j].ioBurst
    ensures BlockedPosition(ps, blocked, burst) == BlockedPosition(ps', blocked, burst)
  {
    if blocked != [] {
      BlockedPositionSame(ps, ps', blocked[1..], burst);
    }
  }
}
