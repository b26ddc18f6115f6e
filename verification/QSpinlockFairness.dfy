/** Waiting for the queued spinlock: who can acquire before a waiter, that somebody can always move, and that a
    waiter is served after a bounded number of steps. */
module QSpinlockFairness {
  import opened Options
  import opened QSpinlock
  import opened QSpinlockInv
  import opened QSpinlockSteps
  import opened QSpinlockRuns

  // ---------- bounded overtaking ----------

  /** The part of a line before t. */
  function Before(line: seq<nat>, t: nat): seq<nat> {
    if line == [] || line[0] == t then [] else [line[0]] + Before(line[1..], t)
  }

  lemma {:induction false} BeforeAppend(line: seq<nat>, t: nat, u: nat)
    requires t in line
    ensures Before(line + [u], t) == Before(line, t)
  {
    if line[0] != t {
      assert (line + [u])[1..] == line[1..] + [u];
      BeforeAppend(line[1..], t, u);
    }
  }

  /** The threads that acquire during a schedule, in order. */
  ghost function Acquisitions(s: State, sched: seq<Event>): seq<nat>
    requires Inv(s) && Schedule(sched, |s.pcs|)
    decreases |sched|
  {
    if sched == [] then []
    else (if Acquires(s, sched[0].tid) then [sched[0].tid] else []) + Acquisitions(Next(s, sched[0]), sched[1..])
  }

  /** t stands in line: it owns the pending byte and will take the lock, or it is queued and has not acquired. */
  ghost predicate Waits(s: State, t: nat) {
    t in Abs(s).line
  }

  lemma StepWaits(s: State, t: nat, e: Event)
    requires Inv(s) && e.tid < |s.pcs| && Waits(s, t)
    requires !(e.tid == t && Acquires(s, t))
    ensures Waits(Next(s, e), t)
    ensures var rest := Before(Abs(Next(s, e)).line, t);
            Before(Abs(s).line, t) == (if Acquires(s, e.tid) then [e.tid] + rest else rest)
  {
    StepRefinesFifo(s, e.tid, e.call);
    BeforeAppend(Abs(s).line, t, e.tid);
  }

  lemma AcquisitionsHead(s: State, sched: seq<Event>)
    requires Inv(s) && Schedule(sched, |s.pcs|) && sched != []
    ensures Schedule(sched[1..], |s.pcs|) && sched[0].tid < |s.pcs|
    ensures Acquisitions(s, sched)
            == (if Acquires(s, sched[0].tid) then [sched[0].tid] else []) + Acquisitions(Next(s, sched[0]), sched[1..])
    ensures Acquires(s, sched[0].tid) ==> sched[0].tid in Acquisitions(s, sched)
    ensures forall u :: u in Acquisitions(Next(s, sched[0]), sched[1..]) ==> u in Acquisitions(s, sched)
  {
    hide Next, Inv, Acquires;
    assert Acquires(s, sched[0].tid) ==> Acquisitions(s, sched)[0] == sched[0].tid;
  }

  lemma NoAcquisitions(s: State)
    requires Inv(s)
    ensures Acquisitions(s, []) == []
  {
  }

  /** First in, first out. As long as t waits, the acquisitions made so far, followed by those who now stand
      before t, are exactly those who stood before t, in their order: nobody passes. */
  lemma {:induction false} Fair(s: State, sched: seq<Event>, t: nat)
    requires Inv(s) && Schedule(sched, |s.pcs|) && Waits(s, t)
    requires t !in Acquisitions(s, sched)
    ensures Waits(Run(s, sched), t)
    ensures Acquisitions(s, sched) + Before(Abs(Run(s, sched)).line, t) == Before(Abs(s).line, t)
    decreases |sched|
  {
    hide Next, Inv, Acquires, Abs, Waits, Before, Acquisitions;
    if sched == [] {
      NoAcquisitions(s);
    } else {
      var e := sched[0];
      AcquisitionsHead(s, sched);
      StepWaits(s, t, e);
      Fair(Next(s, e), sched[1..], t);
    }
  }

  lemma FirstInLine(s: State, t: nat)
    requires Inv(s) && t < |s.pcs| && Waits(s, t) && Acquires(s, t)
    ensures Before(Abs(s).line, t) == []
  {
    StepRefinesFifo(s, t, Nothing);
  }

  /** When t's turn comes, exactly those who stood before it have acquired since it waits. They are the threads
      queued before it in queue order, after at most one that owned the pending byte and had seen no queue. */
  lemma BoundedOvertaking(s: State, sched: seq<Event>, t: nat)
    requires Inv(s) && Schedule(sched, |s.pcs|) && Waits(s, t)
    requires t !in Acquisitions(s, sched) && t < |s.pcs| && Acquires(Run(s, sched), t)
    ensures Acquisitions(s, sched) == Before(Abs(s).line, t)
    ensures Before(Abs(s).line, t) == if t in Taker(s) then [] else Taker(s) + Before(Queue(s), t)
    ensures |Taker(s)| <= 1
  {
    hide Next, Inv, Acquires, Waits;
    Fair(s, sched, t);
    FirstInLine(Run(s, sched), t);
    assert Taker(s) == [] ==> Abs(s).line == Queue(s);
    assert Taker(s) != [] ==> Abs(s).line[0] == Taker(s)[0] && Abs(s).line[1..] == Queue(s);
  }

  // ---------- deadlock freedom ----------

  /** The step of t is neither a turn of a wait loop nor an idle thread's doing nothing. */
  predicate Moves(s: State, t: nat, call: Call)
    requires s.Wf() && t < |s.pcs|
  {
    !Spins(s, t) && !(s.pcs[t].Idle? && call.Nothing?)
  }

  /** A queue head that has set the locked byte is not left alone: its successor has linked itself, is about
      to, or is on its way to the queue with no wait loop before it. */
  lemma HeadGetsSuccessor(s: State, t: nat)
    requires Inv(s) && t < |s.pcs| && s.pcs[t].WaitNext?
    ensures s.queue != [] && s.queue[0] == t
    ensures s.nodes[t].next.Some? || (|s.queue| > 1 && s.pcs[s.queue[1]] == Link(t)) || Promised(s)
    ensures s.nodes[t].next.Some? ==> |s.queue| > 1 && s.nodes[t].next.value == s.queue[1]
  {
    var i := Place(s, t);
    if |s.queue| > 1 {
      assert Behind(s, 1);
    }
  }

  /** Only a thread that stands in line turns in a wait loop, apart from an owner that waits for its successor. */
  lemma OnlyWaitersSpin(s: State, t: nat)
    requires Inv(s) && t < |s.pcs| && Spins(s, t)
    ensures Waits(s, t) || (s.owner == Some(t) && s.pcs[t].WaitNext?)
  {
    hide Mutex, PendingByte, QueueMembers, QueueShape, Nodes;
    Facts(s, t);
    if Queued(s.pcs[t]) && !Holds(s.pcs[t]) {
      assert t in s.queue;
      if s.queue != Queue(s) {
        assert Queue(s) == s.queue[1..] && s.queue[0] != t;
        var i :| 0 <= i < |s.queue| && s.queue[i] == t;
        assert Queue(s)[i - 1] == t;
      }
      assert t in Queue(s);
    } else if Taking(s.pcs[t]) {
      assert Taker(s) == [t];
    }
  }

  /** In a state with a thread that is not idle, some thread that is not idle can move. */
  lemma DeadlockFree(s: State, t: nat) returns (u: nat)
    requires Inv(s) && t < |s.pcs| && !s.pcs[t].Idle?
    ensures u < |s.pcs| && !s.pcs[u].Idle? && !Spins(s, u)
  {
    if s.owner.Some? {
      u := OwnerMoves(s);
    } else if s.pender.Some? {
      u := s.pender.value;
      FreeLock(s, u);
    } else if s.queue != [] {
      u := s.queue[0];
      FreeHead(s);
    } else {
      u := t;
      FreeLock(s, u);
    }
  }

  /** The owner can move, or its successor in the queue, or a thread on its way to become that. */
  lemma OwnerMoves(s: State) returns (u: nat)
    requires Inv(s) && s.owner.Some?
    ensures u < |s.pcs| && !s.pcs[u].Idle? && !Spins(s, u)
  {
    hide Mutex, PendingByte, QueueMembers, QueueShape, Nodes;
    OwnerHolds(s);
    u := s.owner.value;
    if Spins(s, u) {
      HeadGetsSuccessor(s, u);
      if |s.queue| > 1 && s.pcs[s.queue[1]] == Link(u) {
        u := s.queue[1];
      } else {
        u :| 0 <= u < |s.pcs| && OnItsWay(s.pcs[u]);
      }
    }
  }

  lemma OwnerHolds(s: State)
    requires Inv(s) && s.owner.Some?
    ensures s.owner.value < |s.pcs| && Holds(s.pcs[s.owner.value])
    ensures |s.queue| > 1 ==> s.queue[1] < |s.pcs|
  {
  }

  /** With nobody owning the lock, a waiter for the lock alone does not spin: not the pending holder, and with nobody
      pending and nobody queued, no thread. */
  lemma FreeLock(s: State, t: nat)
    requires Inv(s) && s.owner.None? && (s.pender == Some(t) || (s.pender.None? && s.queue == [] && t < |s.pcs|))
    ensures t < |s.pcs| && !Spins(s, t) && (s.pender == Some(t) ==> !s.pcs[t].Idle?)
  {
    hide QueueShape, Nodes;
  }

  lemma FreeHead(s: State)
    requires Inv(s) && s.owner.None? && s.pender.None? && s.queue != []
    ensures s.queue[0] < |s.pcs| && !s.pcs[s.queue[0]].Idle? && !Spins(s, s.queue[0])
  {
    hide Nodes;
  }

  // ---------- starvation freedom ----------

  const CALL_STEPS: nat := 21 + PENDING_LOOPS

  /** How many steps that are not turns of a wait loop a thread has left until it is idle. An idle thread counts
      the steps of one more queued_spin_lock; a queued_spin_trylock that fails comes before that. */
  function Rank(pc: Pc): nat {
    match pc
    case Crit => 1
    case Release => 2
    case PendTake => 2
    case Handoff(_) => 3
    case PendWait => 3
    case WaitNext => 4
    case SetLocked(_) => 5
    case ClaimCas(_) => 6
    case WaitHead(_) => 7
    case ReadNext => 8
    case WaitNode => 9
    case Link(_) => 10
    case QXchg => 11
    case QTryCas => 12
    case QTryRead => 13
    case QInitNext => 14
    case QInitLocked => 15
    case QCount => 16
    case PendUndo => 17
    case FetchOr => 18
    case PendSpin(cnt) => 19 + cnt
    case LockCas => 20 + PENDING_LOOPS
    case Idle => CALL_STEPS
    case TryCas => CALL_STEPS + 1
    case TryRead => CALL_STEPS + 2
    case Aborted => 0
  }

  /** Thread u holds the lock or stands before t: only such a thread can finish a call before t has its turn. */
  ghost predicate Ahead(s: State, t: nat, u: nat) {
    s.owner == Some(u) || u in Before(Abs(s).line, t)
  }

  /** The steps u may still take while t waits: those ahead of t may come back for one more call. */
  ghost function Weight(s: State, t: nat, u: nat): nat
    requires u < |s.pcs|
  {
    Rank(s.pcs[u]) + (if Ahead(s, t, u) then CALL_STEPS else 0)
  }

  ghost function Potential(s: State, t: nat, n: nat): nat
    requires n <= |s.pcs|
  {
    if n == 0 then 0 else Potential(s, t, n - 1) + Weight(s, t, n - 1)
  }

  lemma {:induction false} PotentialBound(s: State, t: nat, n: nat)
    requires Inv(s) && n <= |s.pcs|
    ensures Potential(s, t, n) <= n * (2 * CALL_STEPS + 2)
  {
    hide Mutex, PendingByte, QueueMembers, QueueShape, Nodes, Ahead, Rank;
    if n > 0 {
      RankBound(s, n - 1);
      PotentialBound(s, t, n - 1);
    }
  }

  lemma RankBound(s: State, t: nat)
    requires Inv(s) && t < |s.pcs|
    ensures Rank(s.pcs[t]) <= CALL_STEPS + 2
  {
    hide Mutex, PendingByte, QueueMembers, QueueShape, Nodes;
    Facts(s, t);
  }

  /** A calls-trylock step may raise the potential; it pays for the two steps of a failing trylock. */
  function Price(s: State, t: nat, call: Call): nat
    requires t < |s.pcs|
  {
    if s.pcs[t].Idle? && call.TryLock? then 3 else 0
  }

  /** The bound a step of t brings its rank under. */
  function Ceiling(s: State, t: nat, call: Call): nat
    requires t < |s.pcs|
  {
    if s.pcs[t].Crit? then 1 + CALL_STEPS else Rank(s.pcs[t]) + Price(s, t, call)
  }

  lemma LocalRankDrops(s: State, t: nat, call: Call)
    requires s.Wf() && t < |s.pcs| && NodeOk(s, t) && Moves(s, t, call) && IsLocal(s, t)
    ensures Rank(NextPc(s.word, s.nodes[t], s.pcs[t], t, call)) < Ceiling(s, t, call)
  {
  }

  lemma AcquireRankDrops(s: State, t: nat, call: Call)
    requires s.Wf() && t < |s.pcs| && Acquires(s, t)
    ensures |Step(s, t, call).pcs| == |s.pcs| && Rank(Step(s, t, call).pcs[t]) < Ceiling(s, t, call)
  {
  }

  lemma SharedRankDrops(s: State, t: nat, call: Call)
    requires s.Wf() && t < |s.pcs| && !Acquires(s, t) && !IsLocal(s, t)
    ensures |Step(s, t, call).pcs| == |s.pcs| && Rank(Step(s, t, call).pcs[t]) < Ceiling(s, t, call)
  {
  }

  lemma RankDrops(s: State, t: nat, call: Call)
    requires s.Wf() && t < |s.pcs| && NodeOk(s, t) && Moves(s, t, call)
    ensures |Step(s, t, call).pcs| == |s.pcs| && Rank(Step(s, t, call).pcs[t]) < Ceiling(s, t, call)
  {
    hide Step, Acquires, IsLocal, Ceiling;
    if IsLocal(s, t) {
      StepLocal(s, t, call);
      LocalRankDrops(s, t, call);
    } else if Acquires(s, t) {
      AcquireRankDrops(s, t, call);
    } else {
      SharedRankDrops(s, t, call);
    }
  }

  lemma AcquireKeepsOthers(s: State, t: nat, call: Call)
    requires s.Wf() && t < |s.pcs| && Acquires(s, t)
    ensures |Step(s, t, call).pcs| == |s.pcs| && Step(s, t, call).pcs == s.pcs[t := Step(s, t, call).pcs[t]]
  {
  }

  lemma SharedKeepsOthers(s: State, t: nat, call: Call)
    requires s.Wf() && t < |s.pcs| && !Acquires(s, t) && !IsLocal(s, t)
    ensures |Step(s, t, call).pcs| == |s.pcs| && Step(s, t, call).pcs == s.pcs[t := Step(s, t, call).pcs[t]]
  {
  }

  lemma OthersKeepPc(s: State, t: nat, call: Call)
    requires s.Wf() && t < |s.pcs|
    ensures var s' := Step(s, t, call);
            |s'.pcs| == |s.pcs| && forall u :: 0 <= u < |s.pcs| && u != t ==> s'.pcs[u] == s.pcs[u]
  {
    hide Step, Acquires, IsLocal;
    if Acquires(s, t) {
      AcquireKeepsOthers(s, t, call);
    } else if IsLocal(s, t) {
      StepLocal(s, t, call);
    } else {
      SharedKeepsOthers(s, t, call);
    }
  }

  lemma OwnerNotInLine(s: State, t: nat)
    requires Inv(s) && s.owner == Some(t)
    ensures t !in Abs(s).line
  {
    assert Holds(s.pcs[t]);
    if t in Queue(s) {
      assert t in s.queue;
      var i := Place(s, t);
    }
  }

  lemma {:induction false} BeforeSubset(line: seq<nat>, t: nat)
    ensures forall u :: u in Before(line, t) ==> u in line
  {
    if line != [] && line[0] != t {
      BeforeSubset(line[1..], t);
    }
  }

  /** A step changes who is ahead of a waiter only for its own thread: by unlocking it ceases to be. */
  lemma AheadStep(s: State, t: nat, e: Event, u: nat)
    requires Inv(s) && e.tid < |s.pcs| && Waits(s, t) && !(e.tid == t && Acquires(s, t))
    ensures Ahead(Next(s, e), t, u) ==> Ahead(s, t, u)
    ensures s.pcs[e.tid].Crit? ==> Ahead(s, t, e.tid) && !Ahead(Next(s, e), t, e.tid)
  {
    StepRefinesFifo(s, e.tid, e.call);
    StepWaits(s, t, e);
    if s.pcs[e.tid].Crit? {
      OwnerNotInLine(s, e.tid);
      BeforeSubset(Abs(s).line, t);
    }
  }

  lemma WeightStep(s: State, t: nat, e: Event, u: nat)
    requires Inv(s) && e.tid < |s.pcs| && u < |s.pcs| && Waits(s, t) && !(e.tid == t && Acquires(s, t))
    requires Moves(s, e.tid, e.call)
    ensures u != e.tid ==> Weight(Next(s, e), t, u) <= Weight(s, t, u)
    ensures u == e.tid ==> Weight(Next(s, e), t, u) < Weight(s, t, u) + Price(s, e.tid, e.call)
  {
    hide Mutex, PendingByte, QueueMembers, QueueShape, Nodes, Step, Ahead, Waits, Abs;
    AheadStep(s, t, e, u);
    OthersKeepPc(s, e.tid, e.call);
    Facts(s, e.tid);
    RankDrops(s, e.tid, e.call);
  }

  lemma {:induction false} PotentialStep(s: State, t: nat, e: Event, n: nat)
    requires Inv(s) && e.tid < |s.pcs| && n <= |s.pcs| && Waits(s, t) && !(e.tid == t && Acquires(s, t))
    requires Moves(s, e.tid, e.call)
    ensures Potential(Next(s, e), t, n) + (if e.tid < n then 1 else 0)
            <= Potential(s, t, n) + (if e.tid < n then Price(s, e.tid, e.call) else 0)
  {
    hide Next, Inv, Acquires, Waits, Moves, Weight;
    if n > 0 {
      WeightStep(s, t, e, n - 1);
      PotentialStep(s, t, e, n - 1);
    }
  }

  /** The steps of a schedule that are not turns of a wait loop, nor an idle thread's doing nothing. */
  ghost function MoveCount(s: State, sched: seq<Event>): nat
    requires Inv(s) && Schedule(sched, |s.pcs|)
    decreases |sched|
  {
    if sched == [] then 0
    else (if Moves(s, sched[0].tid, sched[0].call) then 1 else 0) + MoveCount(Next(s, sched[0]), sched[1..])
  }

  /** The calls of queued_spin_trylock in a schedule. */
  ghost function TryCount(s: State, sched: seq<Event>): nat
    requires Inv(s) && Schedule(sched, |s.pcs|)
    decreases |sched|
  {
    if sched == [] then 0
    else (if Price(s, sched[0].tid, sched[0].call) > 0 then 1 else 0) + TryCount(Next(s, sched[0]), sched[1..])
  }

  lemma InvWf(s: State)
    requires Inv(s)
    ensures s.Wf()
  {
  }

  lemma WaiterIsActive(s: State, t: nat)
    requires Inv(s) && Waits(s, t)
    ensures t < |s.pcs| && !s.pcs[t].Idle?
  {
    if t in Queue(s) {
      assert t in s.queue;
    }
  }

  lemma StandStill(s: State, e: Event)
    requires Inv(s) && e.tid < |s.pcs| && !Moves(s, e.tid, e.call)
    ensures Next(s, e) == s && Price(s, e.tid, e.call) == 0 && !Acquires(s, e.tid)
  {
    if Spins(s, e.tid) {
      SpinStep(s, e.tid, e.call);
    } else {
      assert s.nodes[e.tid := s.nodes[e.tid]] == s.nodes && s.pcs[e.tid := s.pcs[e.tid]] == s.pcs;
    }
  }

  /** While t waits, the steps taken fit under the potential: only trylock calls add to it. */
  lemma {:induction false} PotentialRun(s: State, sched: seq<Event>, t: nat)
    requires Inv(s) && Schedule(sched, |s.pcs|) && Waits(s, t) && t !in Acquisitions(s, sched)
    ensures MoveCount(s, sched) <= Potential(s, t, |s.pcs|) + 3 * TryCount(s, sched)
    decreases |sched|
  {
    hide Next, Inv, Acquires, Abs, Waits, Moves, Potential;
    if sched != [] {
      var e := sched[0];
      InvWf(s);
      AcquisitionsHead(s, sched);
      StepWaits(s, t, e);
      PotentialRun(Next(s, e), sched[1..], t);
      if Moves(s, e.tid, e.call) {
        PotentialStep(s, t, e, |s.pcs|);
      } else {
        StandStill(s, e);
      }
    }
  }

  /** Starvation freedom. However the threads are scheduled, a thread that stands in line is served after a
      bounded number of steps that are not turns of a wait loop, failing trylocks aside; and until it is served
      some thread has such a step to take. */
  lemma StarvationFree(s: State, sched: seq<Event>, t: nat) returns (u: nat)
    requires Inv(s) && Schedule(sched, |s.pcs|) && t < |s.pcs| && Waits(s, t) && t !in Acquisitions(s, sched)
    ensures MoveCount(s, sched) <= |s.pcs| * (2 * CALL_STEPS + 2) + 3 * TryCount(s, sched)
    ensures u < |s.pcs| && !Run(s, sched).pcs[u].Idle? && !Spins(Run(s, sched), u)
  {
    hide Next, Acquisitions, Moves, Potential, Inv, Spins, Waits, Run;
    PotentialRun(s, sched, t);
    PotentialBound(s, t, |s.pcs|);
    Fair(s, sched, t);
    WaiterIsActive(Run(s, sched), t);
    InvWf(Run(s, sched));
    u := DeadlockFree(Run(s, sched), t);
  }

  // ---------- from the call to the line ----------

  /** Inside queued_spin_lock, or holding the lock. */
  predicate InCall(pc: Pc) {
    !pc.Idle? && !pc.TryRead? && !pc.TryCas? && !pc.Aborted?
  }

  /** t stands in line, or has the lock. */
  ghost predicate Joined(s: State, t: nat) {
    Waits(s, t) || s.owner == Some(t)
  }

  lemma LocalStaysInCall(s: State, t: nat, call: Call)
    requires s.Wf() && t < |s.pcs| && NodeOk(s, t) && IsLocal(s, t) && InCall(s.pcs[t]) && !s.pcs[t].Crit?
    ensures InCall(NextPc(s.word, s.nodes[t], s.pcs[t], t, call))
  {
  }

  lemma SharedStaysInCall(s: State, t: nat, call: Call)
    requires s.Wf() && t < |s.pcs| && !IsLocal(s, t) && InCall(s.pcs[t]) && !s.pcs[t].Crit?
    ensures |Step(s, t, call).pcs| == |s.pcs| && InCall(Step(s, t, call).pcs[t])
  {
  }

  /** A thread in a call that has not joined the line yet gets nearer to it with each of its steps. */
  lemma StepNearer(s: State, t: nat, call: Call)
    requires Inv(s) && t < |s.pcs| && InCall(s.pcs[t]) && !Joined(s, t)
    ensures |Step(s, t, call).pcs| == |s.pcs| && InCall(Step(s, t, call).pcs[t])
    ensures Rank(Step(s, t, call).pcs[t]) < Rank(s.pcs[t])
  {
    hide Mutex, PendingByte, QueueMembers, QueueShape, Nodes, Waits, Step, IsLocal, Acquires, Spins;
    Facts(s, t);
    if Spins(s, t) {
      OnlyWaitersSpin(s, t);
    }
    RankDrops(s, t, call);
    if IsLocal(s, t) {
      StepLocal(s, t, call);
      LocalStaysInCall(s, t, call);
    } else {
      SharedStaysInCall(s, t, call);
    }
  }

  /** The steps of one thread in a schedule. */
  function OwnSteps(sched: seq<Event>, t: nat): nat {
    if sched == [] then 0 else (if sched[0].tid == t then 1 else 0) + OwnSteps(sched[1..], t)
  }

  lemma RankInCall(s: State, t: nat)
    requires Inv(s) && t < |s.pcs| && InCall(s.pcs[t])
    ensures 0 < Rank(s.pcs[t]) < CALL_STEPS
  {
    hide Mutex, PendingByte, QueueMembers, QueueShape;
    assert NodeOk(s, t);
  }

  /** A call of queued_spin_lock joins the line, or acquires, before it has made CALL_STEPS steps, whatever the other
      threads do: the wait before that is bounded by its own steps alone. */
  lemma {:induction false} CallJoins(s: State, sched: seq<Event>, t: nat) returns (k: nat)
    requires Inv(s) && Schedule(sched, |s.pcs|) && t < |s.pcs| && InCall(s.pcs[t])
    requires OwnSteps(sched, t) >= Rank(s.pcs[t]) || OwnSteps(sched, t) >= CALL_STEPS - 1
    ensures k <= |sched| && Schedule(sched[..k], |s.pcs|) && Joined(Run(s, sched[..k]), t)
    decreases |sched|
  {
    hide Inv, Next, Joined, Step, InCall, Rank;
    RankInCall(s, t);
    if Joined(s, t) {
      k := 0;
      assert Run(s, []) == s;
    } else {
      var e := sched[0];
      var s' := Next(s, e);
      NextIs(s, e);
      if e.tid == t {
        StepNearer(s, t, e.call);
      } else {
        InvWf(s);
        OthersKeepPc(s, e.tid, e.call);
      }
      var j := CallJoins(s', sched[1..], t);
      k := j + 1;
      assert sched[..k][0] == e && sched[..k][1..] == sched[1..][..j];
    }
  }

  lemma NextIs(s: State, e: Event)
    requires Inv(s) && e.tid < |s.pcs|
    ensures s.Wf() && Next(s, e) == Step(s, e.tid, e.call)
  {
  }
}
