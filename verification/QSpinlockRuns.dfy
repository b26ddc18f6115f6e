/** Whole runs of the queued spinlock: safety in every reachable state, first-in first-out order with bounded
    overtaking, deadlock freedom and starvation freedom. */
module QSpinlockRuns {
  import opened Options
  import opened QSpinlock
  import opened QSpinlockInv
  import opened QSpinlockSteps

  /** One scheduled step: whose, and what it calls if it is idle. */
  datatype Event = Event(tid: nat, call: Call)

  predicate Schedule(sched: seq<Event>, n: nat) {
    forall i :: 0 <= i < |sched| ==> sched[i].tid < n
  }

  ghost function Next(s: State, e: Event): (r: State)
    requires Inv(s) && e.tid < |s.pcs|
    ensures Inv(r) && |r.pcs| == |s.pcs|
  {
    StepInv(s, e.tid, e.call);
    StepSize(s, e.tid, e.call);
    Step(s, e.tid, e.call)
  }

  /** The state after a schedule. */
  ghost function Run(s: State, sched: seq<Event>): (r: State)
    requires Inv(s) && Schedule(sched, |s.pcs|)
    ensures Inv(r) && |r.pcs| == |s.pcs|
    decreases |sched|
  {
    if sched == [] then s else Run(Next(s, sched[0]), sched[1..])
  }

  /** The state n threads reach from the start by a schedule. */
  ghost function Reached(n: nat, sched: seq<Event>): (s: State)
    requires Schedule(sched, n)
    ensures Inv(s) && |s.pcs| == n
  {
    InitInv(n);
    Run(Init(n), sched)
  }

  // ---------- safety ----------

  /** In every reachable state the locked byte is set exactly when some thread is between an acquiring step and
      its unlock, no two threads are, and no thread has reached the abort. */
  lemma MutualExclusion(n: nat, sched: seq<Event>)
    requires Schedule(sched, n)
    ensures var s := Reached(n, sched);
            && (s.word.locked <==> exists t :: 0 <= t < n && Holds(s.pcs[t]))
            && (forall t, u :: 0 <= t < n && 0 <= u < n && Holds(s.pcs[t]) && Holds(s.pcs[u]) ==> t == u)
            && (forall t :: 0 <= t < n ==> !s.pcs[t].Aborted? && 0 <= s.nodes[t].count <= 1)
  {
    var s := Reached(n, sched);
    if s.word.locked {
      assert Holds(s.pcs[s.owner.value]);
    }
    forall t | 0 <= t < n ensures !s.pcs[t].Aborted? && 0 <= s.nodes[t].count <= 1 {
      assert NodeOk(s, t);
    }
  }

  /** Whoever acquires finds no holder, and before its step no other thread could be inside. */
  lemma AcquireIsExclusive(s: State, t: nat, call: Call)
    requires Inv(s) && t < |s.pcs| && Acquires(s, t)
    ensures forall u :: 0 <= u < |s.pcs| ==> !Holds(s.pcs[u])
    ensures var s' := Step(s, t, call); s'.owner == Some(t) && s'.word.locked
    ensures Mutex(Step(s, t, call)) && |Step(s, t, call).pcs| == |s.pcs|
  {
    Facts(s, t);
    StepInv(s, t, call);
    StepSize(s, t, call);
    if s.pcs[t].SetLocked? {
      HeadAt(s, t);
    }
  }

  /** A node is not reused while another thread may still write it: the thread whose `next` u is about to set is
      queued, and the one u is about to wake waits for just that. */
  lemma NodeNotReused(s: State, t: nat, u: nat)
    requires Inv(s) && t < |s.pcs| && u < |s.pcs|
    requires s.pcs[u] == Link(t) || s.pcs[u] == Handoff(t)
    ensures UsesNode(s.pcs[t]) && Queued(s.pcs[t]) && s.nodes[t].count == 1
    ensures s.pcs[u] == Link(t) ==> s.nodes[t].next.None?
    ensures s.pcs[u] == Handoff(t) ==> s.pcs[t] == WaitNode && !s.nodes[t].locked
  {
    var i := Place(s, u);
    assert NodeOk(s, t);
    if s.pcs[u] == Link(t) {
      assert Behind(s, i);
    } else {
      HandoffKeeps(s, u);
      assert Behind(s, 1);
    }
  }

  // ---------- first in, first out ----------

  /** A FIFO lock: its owner, and the threads that stand in line for it. */
  datatype Fifo = Fifo(owner: Option<nat>, line: seq<nat>)

  predicate Stays(a: Fifo, a': Fifo) {
    a' == a
  }

  predicate Joins(a: Fifo, a': Fifo, t: nat) {
    t !in a.line && a' == a.(line := a.line + [t])
  }

  /** The first in line takes a free lock; with nobody in line, any thread may. */
  predicate Takes(a: Fifo, a': Fifo, t: nat) {
    && a.owner.None?
    && (a.line == [] || a.line[0] == t)
    && a' == Fifo(Some(t), if a.line == [] then [] else a.line[1..])
  }

  predicate Frees(a: Fifo, a': Fifo, t: nat) {
    a.owner == Some(t) && a' == a.(owner := None)
  }

  /** The thread that owns the pending byte and will take the lock, if there is one. */
  function Taker(s: State): (r: seq<nat>)
    ensures |r| <= 1
  {
    if s.pender.Some? && s.pender.value < |s.pcs| && Taking(s.pcs[s.pender.value]) then [s.pender.value] else []
  }

  /** The queue in the order of xchg_tail, without a head that has acquired already. */
  function Queue(s: State): seq<nat> {
    if s.queue != [] && s.queue[0] < |s.pcs| && Holds(s.pcs[s.queue[0]]) then s.queue[1..] else s.queue
  }

  /** What the lock is as a FIFO lock: at most one taker stands before the queue. */
  function Abs(s: State): Fifo {
    Fifo(s.owner, Taker(s) + Queue(s))
  }

  /** A thread outside the queue is not its head. */
  lemma HeadElsewhere(s: State, t: nat)
    requires Inv(s) && t < |s.pcs| && !Queued(s.pcs[t])
    ensures s.queue != [] ==> s.queue[0] != t
    ensures t !in s.queue
  {
  }

  lemma LocalRefines(s: State, t: nat, call: Call)
    requires Inv(s) && t < |s.pcs| && IsLocal(s, t)
    ensures Abs(LocalStep(s, t, call)) == Abs(s)
  {
    hide Mutex, PendingByte, QueueMembers, QueueShape, Nodes;
    Facts(s, t);
    if Spins(s, t) {
      SpinStep(s, t, call);
    } else if Queued(s.pcs[t]) {
      HeadRoles(s, t, call);
    } else {
      LocalRoles(s, t, call);
      HeadElsewhere(s, t);
    }
  }

  lemma FastRefines(s: State, t: nat, pc: Pc)
    requires Inv(s) && t < |s.pcs| && s.word == UNLOCKED && !Queued(s.pcs[t]) && !Taking(pc)
    ensures Takes(Abs(s), Abs(FastAcquire(s, t, pc)), t)
  {
    hide Mutex, PendingByte, QueueMembers, QueueShape, Nodes;
    Facts(s, t);
  }

  lemma FastAllRefine(s: State, t: nat, call: Call)
    requires Inv(s) && t < |s.pcs| && Acquires(s, t) && (s.pcs[t].TryCas? || s.pcs[t].LockCas? || s.pcs[t].QTryCas?)
    ensures Takes(Abs(s), Abs(Step(s, t, call)), t)
  {
    hide Mutex, PendingByte, QueueMembers, QueueShape, Nodes;
    FastRefines(s, t, if s.pcs[t].QTryCas? then Release else Crit);
  }

  lemma TakeRefines(s: State, t: nat)
    requires Inv(s) && t < |s.pcs| && s.pcs[t].PendTake?
    ensures Takes(Abs(s), Abs(TakeStep(s, t)), t)
  {
    hide Mutex, PendingByte, QueueMembers, QueueShape, Nodes;
    Facts(s, t);
    TakeKeeps(s, t);
    HeadElsewhere(s, t);
    assert Abs(s).line == [t] + Queue(s);
    assert Queue(TakeStep(s, t)) == Queue(s);
  }

  lemma ClaimRefines(s: State, t: nat)
    requires Inv(s) && t < |s.pcs| && s.pcs[t].ClaimCas? && Acquires(s, t)
    ensures Takes(Abs(s), Abs(ClaimStep(s, t)), t)
  {
    hide Mutex, PendingByte, QueueMembers, QueueShape, Nodes;
    ClaimKeeps(s, t);
    ClaimingLine(s, t);
  }

  /** A head past its wait: the lock is free and the queue is the line. */
  lemma ClaimingLine(s: State, t: nat)
    requires Inv(s) && t < |s.pcs| && Claiming(s.pcs[t])
    ensures s.queue != [] && s.queue[0] == t
    ensures s.owner.None? && Taker(s) == [] && Queue(s) == s.queue
  {
    hide Mutex, PendingByte, QueueMembers, QueueShape, Nodes;
    HeadAt(s, t);
    Facts(s, t);
  }

  lemma SetLockedRefines(s: State, t: nat)
    requires Inv(s) && t < |s.pcs| && s.pcs[t].SetLocked?
    ensures Takes(Abs(s), Abs(SetLockedStep(s, t, s.pcs[t].next)), t)
  {
    hide Mutex, PendingByte, QueueMembers, QueueShape, Nodes;
    ClaimingLine(s, t);
    SetLockedLine(s, t, s.pcs[t].next);
  }

  lemma SetLockedLine(s: State, t: nat, next: Option<nat>)
    requires s.Wf() && t < |s.pcs| && s.queue != [] && s.queue[0] == t && !Holds(s.pcs[t]) && !Taking(s.pcs[t])
    requires Taker(s) == [] && s.owner.None?
    ensures Takes(Abs(s), Abs(SetLockedStep(s, t, next)), t)
  {
    var s' := SetLockedStep(s, t, next);
    assert Abs(s) == Fifo(None, s.queue);
    assert Abs(s') == Fifo(Some(t), s.queue[1..]);
  }

  lemma AcquireRefines(s: State, t: nat, call: Call)
    requires Inv(s) && t < |s.pcs| && Acquires(s, t)
    ensures Takes(Abs(s), Abs(Step(s, t, call)), t)
  {
    hide Mutex, PendingByte, QueueMembers, QueueShape, Nodes;
    if s.pcs[t].PendTake? {
      TakeRefines(s, t);
    } else if s.pcs[t].ClaimCas? {
      ClaimRefines(s, t);
    } else if s.pcs[t].SetLocked? {
      SetLockedRefines(s, t);
    } else {
      FastAllRefine(s, t, call);
    }
  }

  lemma PendRefines(s: State, t: nat)
    requires Inv(s) && t < |s.pcs| && s.pcs[t].FetchOr? && !s.word.pending
    ensures Stays(Abs(s), Abs(PendStep(s, t))) || Joins(Abs(s), Abs(PendStep(s, t)), t)
  {
    hide Mutex, PendingByte, QueueMembers, QueueShape, Nodes;
    Facts(s, t);
    HeadElsewhere(s, t);
  }

  lemma XchgRefines(s: State, t: nat)
    requires Inv(s) && t < |s.pcs| && s.pcs[t].QXchg?
    ensures Joins(Abs(s), Abs(XchgStep(s, t)), t)
  {
    hide Mutex, PendingByte, QueueMembers, QueueShape, Nodes;
    var s' := XchgStep(s, t);
    Facts(s, t);
    HeadElsewhere(s, t);
    assert s.queue != [] ==> s'.queue[1..] == s.queue[1..] + [t];
    assert Taker(s') == Taker(s) && t !in Taker(s);
    assert Queue(s') == Queue(s) + [t] && t !in Queue(s);
    assert Taker(s) + (Queue(s) + [t]) == (Taker(s) + Queue(s)) + [t];
  }

  lemma LinkRefines(s: State, t: nat, prev: nat)
    requires Inv(s) && t < |s.pcs| && s.pcs[t] == Link(prev) && prev < |s.nodes|
    ensures Stays(Abs(s), Abs(LinkStep(s, t, prev)))
  {
    var i := Place(s, t);
    assert s.queue[0] != t;
    hide Mutex, PendingByte, QueueMembers, QueueShape, Nodes;
  }

  lemma SecondNotHolding(s: State)
    requires Inv(s) && |s.queue| > 1
    ensures s.queue[1] < |s.pcs| && !Holds(s.pcs[s.queue[1]]) && s.queue[1] != s.queue[0]
  {
    assert Behind(s, 1);
  }

  lemma HandoffRefines(s: State, t: nat, succ: nat)
    requires Inv(s) && t < |s.pcs| && s.pcs[t] == Handoff(succ) && succ < |s.nodes|
    ensures Stays(Abs(s), Abs(HandoffStep(s, t, succ)))
  {
    hide Mutex, PendingByte, QueueMembers, QueueShape, Nodes;
    HandoffKeeps(s, t);
    HeadAt(s, t);
    SecondNotHolding(s);
    assert Queue(s) == s.queue[1..] == Queue(HandoffStep(s, t, succ));
  }

  lemma UndoRefines(s: State, t: nat)
    requires Inv(s) && t < |s.pcs| && s.pcs[t].PendUndo?
    ensures Stays(Abs(s), Abs(UndoStep(s, t)))
  {
    hide Mutex, PendingByte, QueueMembers, QueueShape, Nodes;
    UndoKeeps(s, t);
    HeadElsewhere(s, t);
  }

  lemma SharedRefines(s: State, t: nat, call: Call)
    requires Inv(s) && t < |s.pcs| && !Acquires(s, t) && !IsLocal(s, t) && !s.pcs[t].Crit?
    ensures Stays(Abs(s), Abs(Step(s, t, call))) || Joins(Abs(s), Abs(Step(s, t, call)), t)
  {
    hide Mutex, PendingByte, QueueMembers, QueueShape, Nodes;
    if s.pcs[t].FetchOr? {
      PendRefines(s, t);
    } else if s.pcs[t].PendUndo? {
      UndoRefines(s, t);
    } else if s.pcs[t].QXchg? {
      XchgRefines(s, t);
    } else if s.pcs[t].Link? {
      LinkRefines(s, t, s.pcs[t].prev);
    } else {
      HandoffRefines(s, t, s.pcs[t].succ);
    }
  }

  lemma UnlockRefines(s: State, t: nat)
    requires Inv(s) && t < |s.pcs| && s.pcs[t].Crit?
    ensures Frees(Abs(s), Abs(UnlockStep(s, t)), t)
  {
    hide Mutex, PendingByte, QueueMembers, QueueShape, Nodes;
    Facts(s, t);
    HeadElsewhere(s, t);
  }

  /** The queued spinlock refines the FIFO lock: each step joins the line at its end, takes the lock at its
      front, frees it, or leaves line and owner alone. */
  lemma StepRefinesFifo(s: State, t: nat, call: Call)
    requires Inv(s) && t < |s.pcs|
    ensures var a, a' := Abs(s), Abs(Step(s, t, call));
            if Acquires(s, t) then Takes(a, a', t)
            else if s.pcs[t].Crit? then Frees(a, a', t)
            else Stays(a, a') || Joins(a, a', t)
  {
    hide Mutex, PendingByte, QueueMembers, QueueShape, Nodes;
    if Acquires(s, t) {
      AcquireRefines(s, t, call);
    } else if IsLocal(s, t) {
      StepLocal(s, t, call);
      LocalRefines(s, t, call);
    } else if s.pcs[t].Crit? {
      UnlockRefines(s, t);
    } else {
      SharedRefines(s, t, call);
    }
  }
}
