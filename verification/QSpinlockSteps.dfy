/** Every step keeps the invariant. */
module QSpinlockSteps {
  import opened Options
  import opened QSpinlock
  import opened QSpinlockInv

  /** The thread's place in the queue. */
  lemma Place(s: State, t: nat) returns (i: nat)
    requires Inv(s) && t < |s.pcs| && Queued(s.pcs[t])
    ensures i < |s.queue| && s.queue[i] == t
    ensures !s.pcs[t].Link? && (s.pcs[t].WaitNode? ==> s.nodes[t].locked) ==> i == 0
    ensures s.pcs[t].Link? ==> i > 0 && s.pcs[t].prev == s.queue[i - 1]
  {
    i :| 0 <= i < |s.queue| && s.queue[i] == t;
    if i > 0 {
      assert Behind(s, i);
    }
  }

  /** Past its wait, the queue head finds the lock free and nobody about to take it. */
  ghost predicate HeadClear(s: State) {
    s.queue != [] && s.queue[0] < |s.pcs| && Claiming(s.pcs[s.queue[0]]) ==>
      !s.word.locked && (s.pender.Some? && s.pender.value < |s.pcs| ==> !Taking(s.pcs[s.pender.value]))
  }

  /** What the invariant says of one thread. */
  lemma Facts(s: State, t: nat)
    requires Inv(s) && t < |s.pcs|
    ensures (s.word.locked <==> s.owner.Some?) && (Holds(s.pcs[t]) <==> s.owner == Some(t))
    ensures (s.word.pending <==> s.pender.Some?) && (Pending(s.pcs[t]) <==> s.pender == Some(t))
    ensures s.pender.Some? ==> s.pender.value < |s.pcs| && Pending(s.pcs[s.pender.value])
    ensures s.pender.Some? && s.pcs[s.pender.value].PendTake? ==> !s.word.locked
    ensures Queued(s.pcs[t]) <==> t in s.queue
    ensures s.word.tail.None? <==> s.queue == []
    ensures s.queue != [] ==> s.queue[0] < |s.pcs| && s.word.tail == Some(s.queue[|s.queue| - 1])
    ensures NodeOk(s, t) && HeadClear(s)
  {
  }

  lemma HeadAt(s: State, t: nat)
    requires Inv(s) && t < |s.pcs| && Queued(s.pcs[t]) && !s.pcs[t].Link? && (s.pcs[t].WaitNode? ==> s.nodes[t].locked)
    ensures s.queue != [] && s.queue[0] == t
  {
    var i := Place(s, t);
  }

  lemma QueueDistinct(s: State)
    requires Inv(s)
    ensures Distinct(s.queue)
  {
  }

  // ---------- steps that touch one thread's program counter and its own node ----------

  /** Only thread t's place in the program and its own node may differ, apart from word and history. */
  ghost predicate OthersSame(s: State, s': State, t: nat) {
    && s.Wf() && t < |s.pcs| == |s'.pcs| == |s'.nodes|
    && (forall u :: 0 <= u < |s.pcs| && u != t ==> s'.pcs[u] == s.pcs[u])
    && (forall u :: 0 <= u < |s.pcs| && u != t ==> s'.nodes[u] == s.nodes[u])
    && PcWf(s'.pcs[t], |s.pcs|) && (s'.nodes[t].next.Some? ==> s'.nodes[t].next.value < |s.pcs|)
    && (s'.word.tail.Some? ==> s'.word.tail.value < |s.pcs|)
  }

  /** A role passes, if at all, from nobody to t or from t to nobody. */
  ghost predicate OnlyBy(was: Option<nat>, now: Option<nat>, t: nat) {
    was == now || ((was.None? || was == Some(t)) && (now.None? || now == Some(t)))
  }

  ghost predicate Moved(s: State, s': State, t: nat) {
    OthersSame(s, s', t) && s' == s.(pcs := s'.pcs, nodes := s'.nodes)
  }

  ghost predicate SameRoles(pc: Pc, pc': Pc) {
    && (Holds(pc) <==> Holds(pc'))
    && (Pending(pc) <==> Pending(pc'))
    && (Taking(pc) <==> Taking(pc'))
    && (Queued(pc) <==> Queued(pc'))
    && (OnItsWay(pc) ==> OnItsWay(pc'))
  }

  lemma KeepsWf(s: State, s': State, t: nat)
    requires OthersSame(s, s', t)
    ensures s'.Wf()
  {
    forall i | 0 <= i < |s'.pcs| ensures PcWf(s'.pcs[i], |s.pcs|) {
      assert i != t ==> s'.pcs[i] == s.pcs[i];
    }
    forall i | 0 <= i < |s'.pcs| && s'.nodes[i].next.Some? ensures s'.nodes[i].next.value < |s.pcs| {
      assert i != t ==> s'.nodes[i] == s.nodes[i];
    }
  }

  lemma KeepsNodes(s: State, s': State, t: nat)
    requires OthersSame(s, s', t) && s'.Wf()
    requires Nodes(s) && NodeOk(s', t)
    ensures Nodes(s')
  {
    forall u | 0 <= u < |s'.pcs| ensures NodeOk(s', u) {
      assert NodeOk(s, u);
    }
  }

  lemma KeepsPromise(s: State, s': State, t: nat)
    requires OthersSame(s, s', t) && (OnItsWay(s.pcs[t]) ==> OnItsWay(s'.pcs[t]))
    ensures Promised(s) ==> Promised(s')
  {
    if Promised(s) {
      var u :| 0 <= u < |s.pcs| && OnItsWay(s.pcs[u]);
      assert OnItsWay(s'.pcs[u]);
    }
  }

  lemma KeepsMutex(s: State, s': State, t: nat)
    requires OthersSame(s, s', t) && Mutex(s)
    requires s'.word.locked <==> s'.owner.Some?
    requires Holds(s'.pcs[t]) <==> s'.owner == Some(t)
    requires OnlyBy(s.owner, s'.owner, t)
    ensures Mutex(s')
  {
    forall u | 0 <= u < |s'.pcs| ensures Holds(s'.pcs[u]) <==> s'.owner == Some(u) {
      assert u != t ==> s'.pcs[u] == s.pcs[u];
    }
  }

  lemma KeepsPending(s: State, s': State, t: nat)
    requires OthersSame(s, s', t) && PendingByte(s)
    requires s'.word.pending <==> s'.pender.Some?
    requires Pending(s'.pcs[t]) <==> s'.pender == Some(t)
    requires OnlyBy(s.pender, s'.pender, t)
    requires !s'.word.locked ||
             (!s'.pcs[t].PendTake? &&
                (s.word.locked || s.pender.None? || s.pender == Some(t) || s.pcs[s.pender.value].PendUndo?))
    ensures PendingByte(s')
  {
    forall u | 0 <= u < |s'.pcs|
      ensures Pending(s'.pcs[u]) <==> s'.pender == Some(u)
      ensures s'.pcs[u].PendTake? ==> !s'.word.locked
    {
      assert u != t ==> s'.pcs[u] == s.pcs[u];
    }
  }

  lemma KeepsMembers(s: State, s': State, t: nat)
    requires OthersSame(s, s', t) && QueueMembers(s)
    requires s'.queue == s.queue && s'.word.tail == s.word.tail
    requires Queued(s.pcs[t]) <==> Queued(s'.pcs[t])
    ensures QueueMembers(s')
  {
    forall u | 0 <= u < |s'.pcs| && Queued(s'.pcs[u]) ensures u in s'.queue {
      assert u != t ==> s'.pcs[u] == s.pcs[u];
    }
  }

  /** A thread outside the queue changes word, history or its own node: the queue's shape stays. */
  lemma KeepsShape(s: State, s': State, t: nat)
    requires OthersSame(s, s', t) && s'.Wf() && QueueShape(s)
    requires s'.queue == s.queue && t !in s.queue
    requires OnItsWay(s.pcs[t]) ==> OnItsWay(s'.pcs[t])
    requires HeadClear(s')
    ensures QueueShape(s')
  {
    forall i | 0 < i < |s'.queue| ensures Behind(s', i) {
      assert Behind(s, i);
    }
    KeepsPromise(s, s', t);
  }

  lemma OutsideMove(s: State, s': State, t: nat)
    requires Inv(s)
    requires Moved(s, s', t) && SameRoles(s.pcs[t], s'.pcs[t]) && !Queued(s.pcs[t])
    requires s'.pcs[t].PendTake? ==> !s.word.locked
    requires s'.Wf() ==> NodeOk(s', t)
    ensures Inv(s')
  {
    hide Mutex, PendingByte, QueueMembers, QueueShape, Nodes;
    Facts(s, t);
    KeepsWf(s, s', t);
    KeepsMutex(s, s', t);
    KeepsPending(s, s', t);
    KeepsMembers(s, s', t);
    KeepsNodes(s, s', t);
    KeepsShape(s, s', t);
  }

  lemma HeadMove(s: State, s': State, t: nat)
    requires Inv(s)
    requires Moved(s, s', t) && SameRoles(s.pcs[t], s'.pcs[t]) && s'.nodes == s.nodes
    requires s.queue != [] && s.queue[0] == t && Queued(s.pcs[t]) && !s'.pcs[t].Link? && !s'.pcs[t].WaitNode?
    requires LocalNext(s'.pcs[t]).Some? ==> LocalNext(s'.pcs[t]) == s.nodes[t].next
    requires Claiming(s'.pcs[t]) ==> Claiming(s.pcs[t]) || (!s.word.locked && !s.word.pending)
    requires |s.queue| == 1 && (s'.pcs[t].SetLocked? || s'.pcs[t].WaitNext?) ==> Promised(s)
    ensures Inv(s')
  {
    hide Mutex, PendingByte, QueueMembers, QueueShape, Nodes;
    Facts(s, t);
    KeepsWf(s, s', t);
    KeepsMutex(s, s', t);
    KeepsPending(s, s', t);
    KeepsMembers(s, s', t);
    KeepsNodes(s, s', t);
    QueueDistinct(s);
    HeadMoveShape(s, s', t);
  }

  lemma HeadMoveShape(s: State, s': State, t: nat)
    requires s.Wf() && s'.Wf() && Distinct(s.queue) && QueueShape(s) && HeadClear(s)
    requires s.word.pending <==> s.pender.Some?
    requires Moved(s, s', t) && SameRoles(s.pcs[t], s'.pcs[t]) && s'.nodes == s.nodes
    requires s.queue != [] && s.queue[0] == t && Queued(s.pcs[t]) && !s'.pcs[t].Link? && !s'.pcs[t].WaitNode?
    requires LocalNext(s'.pcs[t]).Some? ==> LocalNext(s'.pcs[t]) == s.nodes[t].next
    requires Claiming(s'.pcs[t]) ==> Claiming(s.pcs[t]) || (!s.word.locked && !s.word.pending)
    requires |s.queue| == 1 && (s'.pcs[t].SetLocked? || s'.pcs[t].WaitNext?) ==> Promised(s)
    ensures QueueShape(s')
  {
    KeepsPromise(s, s', t);
    forall i | 0 < i < |s'.queue| ensures Behind(s', i) {
      assert Behind(s, i);
      assert s.queue[i] != s.queue[0];
    }
  }

  // ---------- steps that change the word ----------

  /** Everything but the shape of the queue, for a step that leaves the queue's members alone. */
  lemma WordMove(s: State, s': State, t: nat)
    requires Inv(s) && OthersSame(s, s', t)
    requires s'.word.locked <==> s'.owner.Some?
    requires Holds(s'.pcs[t]) <==> s'.owner == Some(t)
    requires OnlyBy(s.owner, s'.owner, t)
    requires s'.word.pending <==> s'.pender.Some?
    requires Pending(s'.pcs[t]) <==> s'.pender == Some(t)
    requires OnlyBy(s.pender, s'.pender, t)
    requires !s'.word.locked || (!s'.pcs[t].PendTake? && (s.word.locked || s.pender.None? || s.pender == Some(t)))
    requires s'.queue == s.queue && s'.word.tail == s.word.tail
    requires Queued(s.pcs[t]) <==> Queued(s'.pcs[t])
    requires s'.Wf() ==> NodeOk(s', t)
    ensures s'.Wf() && Mutex(s') && PendingByte(s') && QueueMembers(s') && Nodes(s')
  {
    hide Mutex, PendingByte, QueueMembers, QueueShape, Nodes;
    KeepsWf(s, s', t);
    KeepsMutex(s, s', t);
    KeepsPending(s, s', t);
    KeepsMembers(s, s', t);
    KeepsNodes(s, s', t);
  }

  lemma EmptyShape(s: State)
    requires s.Wf() && s.queue == []
    ensures QueueShape(s)
  {
  }

  /** The exchange 0 -> locked, on the fast path, in trylock, and before queuing. */
  lemma FastStep(s: State, t: nat, pc: Pc)
    requires Inv(s) && t < |s.pcs| && s.word == UNLOCKED
    requires ((s.pcs[t].TryCas? || s.pcs[t].LockCas?) && pc == Crit) || (s.pcs[t].QTryCas? && pc == Release)
    ensures Inv(FastAcquire(s, t, pc))
  {
    hide Mutex, PendingByte, QueueMembers, QueueShape, Nodes;
    Facts(s, t);
    var s' := FastAcquire(s, t, pc);
    WordMove(s, s', t);
    EmptyShape(s');
  }

  /** The pending byte was clear: the thread owns it now, to take the lock or to undo. */
  lemma FetchOrFree(s: State, t: nat)
    requires Inv(s) && t < |s.pcs| && s.pcs[t].FetchOr? && !s.word.pending
    ensures Inv(PendStep(s, t))
  {
    hide Mutex, PendingByte, QueueMembers, QueueShape, Nodes;
    Facts(s, t);
    var s' := PendStep(s, t);
    assert OthersSame(s, s', t);
    WordMove(s, s', t);
    KeepsShape(s, s', t);
  }

  lemma UndoKeeps(s: State, t: nat)
    requires Inv(s) && t < |s.pcs| && s.pcs[t].PendUndo?
    ensures s.pender == Some(t)
    ensures Inv(UndoStep(s, t))
  {
    hide Mutex, PendingByte, QueueMembers, QueueShape, Nodes;
    Facts(s, t);
    var s' := UndoStep(s, t);
    assert OthersSame(s, s', t);
    WordMove(s, s', t);
    KeepsShape(s, s', t);
  }

  lemma TakeKeeps(s: State, t: nat)
    requires Inv(s) && t < |s.pcs| && s.pcs[t].PendTake?
    ensures s.pender == Some(t) && s.owner.None?
    ensures Inv(TakeStep(s, t))
  {
    hide Mutex, PendingByte, QueueMembers, QueueShape, Nodes;
    Facts(s, t);
    var s' := TakeStep(s, t);
    assert OthersSame(s, s', t);
    WordMove(s, s', t);
    KeepsShape(s, s', t);
  }

  lemma UnlockKeeps(s: State, t: nat)
    requires Inv(s) && t < |s.pcs| && s.pcs[t].Crit?
    ensures Inv(UnlockStep(s, t))
  {
    hide Mutex, PendingByte, QueueMembers, QueueShape, Nodes;
    Facts(s, t);
    var s' := UnlockStep(s, t);
    assert OthersSame(s, s', t);
    WordMove(s, s', t);
    KeepsShape(s, s', t);
  }

  // ---------- steps that change the queue or another thread's node ----------

  lemma XchgKeeps(s: State, t: nat)
    requires Inv(s) && t < |s.pcs| && s.pcs[t].QXchg?
    ensures Inv(XchgStep(s, t))
  {
    hide Mutex, PendingByte, QueueMembers, QueueShape, Nodes;
    Facts(s, t);
    var s' := XchgStep(s, t);
    assert OthersSame(s, s', t);
    KeepsWf(s, s', t);
    KeepsMutex(s, s', t);
    KeepsPending(s, s', t);
    KeepsNodes(s, s', t);
    XchgMembers(s, s', t);
    XchgShape(s, s', t);
  }

  lemma XchgMembers(s: State, s': State, t: nat)
    requires OthersSame(s, s', t) && QueueMembers(s) && !Queued(s.pcs[t]) && Queued(s'.pcs[t])
    requires s'.queue == s.queue + [t] && s'.word.tail == Some(t)
    ensures QueueMembers(s')
  {
    forall i | 0 <= i < |s'.queue| ensures s'.queue[i] < |s'.pcs| && Queued(s'.pcs[s'.queue[i]]) {
      assert i < |s.queue| ==> s.queue[i] < |s.pcs|;
    }
    forall u | 0 <= u < |s'.pcs| && Queued(s'.pcs[u]) ensures u in s'.queue {
      assert u != t ==> u in s.queue;
      assert s'.queue[|s.queue|] == t;
    }
  }

  lemma XchgShape(s: State, s': State, t: nat)
    requires s.Wf() && s'.Wf() && QueueShape(s) && t < |s.pcs| && t !in s.queue
    requires s.word.tail == if s.queue == [] then None else Some(s.queue[|s.queue| - 1])
    requires !s.nodes[t].locked && s.nodes[t].next.None?
    requires s' == XchgStep(s, t)
    ensures QueueShape(s')
  {
    if s.queue != [] {
      assert s'.queue[0] == s.queue[0] != t;
      assert Head(s');
      forall i | 0 < i < |s'.queue| ensures Behind(s', i) {
        if i < |s.queue| {
          assert Behind(s, i);
          assert s'.queue[i] == s.queue[i] && s'.queue[i - 1] == s.queue[i - 1];
        }
      }
    }
  }

  lemma LinkKeeps(s: State, t: nat)
    requires Inv(s) && t < |s.pcs| && s.pcs[t].Link?
    ensures Inv(LinkStep(s, t, s.pcs[t].prev))
  {
    var i := Place(s, t);
    assert Behind(s, i);
    var prev := s.queue[i - 1];
    assert NodeOk(s, t) && NodeOk(s, prev);
    LinkRest(s, t, prev);
    LinkShape(s, LinkStep(s, t, prev), t, i);
  }

  lemma LinkRest(s: State, t: nat, prev: nat)
    requires s.Wf() && Mutex(s) && PendingByte(s) && QueueMembers(s) && Nodes(s)
    requires t < |s.pcs| && prev < |s.pcs| && t != prev && s.pcs[t].Link? && Queued(s.pcs[prev])
    ensures var s' := LinkStep(s, t, prev); s'.Wf() && Mutex(s') && PendingByte(s') && QueueMembers(s') && Nodes(s')
  {
    hide Mutex, PendingByte, QueueMembers, QueueShape, Nodes;
    var s' := LinkStep(s, t, prev);
    var mid := s.Put(prev, s.nodes[prev].(next := Some(t)));
    NodeWriteKeeps(s, prev, mid.nodes[prev]);
    NodesAt(mid, t);
    RolesFrame(s, mid);
    assert OthersSame(mid, s', t);
    KeepsWf(mid, s', t);
    KeepsNodes(mid, s', t);
    RolesAt(mid, t);
    KeepsMutex(mid, s', t);
    KeepsPending(mid, s', t);
    KeepsMembers(mid, s', t);
  }

  lemma NodesAt(s: State, t: nat)
    requires s.Wf() && Nodes(s) && t < |s.pcs|
    ensures NodeOk(s, t)
  {
  }

  lemma RolesAt(s: State, t: nat)
    requires Mutex(s) && PendingByte(s) && t < |s.pcs|
    ensures (s.word.locked <==> s.owner.Some?) && (Holds(s.pcs[t]) <==> s.owner == Some(t))
    ensures (s.word.pending <==> s.pender.Some?) && (Pending(s.pcs[t]) <==> s.pender == Some(t))
  {
  }

  /** Roles do not depend on the nodes. */
  lemma RolesFrame(s: State, s': State)
    requires s'.pcs == s.pcs && s'.word == s.word && s'.queue == s.queue && s'.owner == s.owner && s'.pender == s.pender
    requires Mutex(s) && PendingByte(s) && QueueMembers(s)
    ensures Mutex(s') && PendingByte(s') && QueueMembers(s')
  {
  }

  /** Writing the node of a thread in the queue, but not its count. */
  lemma NodeWriteKeeps(s: State, i: nat, node: Node)
    requires s.Wf() && Nodes(s) && i < |s.pcs| && Queued(s.pcs[i])
    requires node.count == s.nodes[i].count && (node.next.Some? ==> node.next.value < |s.pcs|)
    ensures s.Put(i, node).Wf() && Nodes(s.Put(i, node))
  {
    hide Nodes;
    NodesAt(s, i);
    KeepsWf(s, s.Put(i, node), i);
    KeepsNodes(s, s.Put(i, node), i);
  }

  lemma LinkShape(s: State, s': State, t: nat, i: nat)
    requires s.Wf() && s'.Wf() && Distinct(s.queue) && QueueShape(s)
    requires 0 < i < |s.queue| && s.queue[i] == t && t < |s.pcs| && s.queue[i - 1] < |s.pcs|
    requires s.pcs[t] == Link(s.queue[i - 1]) && s' == LinkStep(s, t, s.queue[i - 1])
    ensures QueueShape(s')
  {
    assert Behind(s, i);
    forall j | 0 < j < |s'.queue| ensures Behind(s', j) {
      assert Behind(s, j);
      assert s.queue[j - 1] == s.queue[i - 1] ==> j == i;
    }
    if Promised(s) {
      var u :| 0 <= u < |s.pcs| && OnItsWay(s.pcs[u]);
      assert OnItsWay(s'.pcs[u]);
    }
  }

  lemma ClaimKeeps(s: State, t: nat)
    requires Inv(s) && t < |s.pcs| && s.pcs[t].ClaimCas? && s.word == Word(Some(t), false, false)
    ensures s.queue == [t]
    ensures Inv(ClaimStep(s, t))
  {
    var i := Place(s, t);
    Facts(s, t);
    assert s.queue == [t];
    ClaimRest(s, t);
  }

  lemma ClaimRest(s: State, t: nat)
    requires Inv(s) && t < |s.pcs| && s.pcs[t].ClaimCas? && s.word == Word(Some(t), false, false) && s.queue == [t]
    ensures Inv(ClaimStep(s, t))
  {
    hide Mutex, PendingByte, QueueMembers, QueueShape, Nodes;
    Facts(s, t);
    var s' := ClaimStep(s, t);
    assert OthersSame(s, s', t);
    KeepsWf(s, s', t);
    KeepsMutex(s, s', t);
    KeepsPending(s, s', t);
    KeepsNodes(s, s', t);
    ClaimMembers(s, s', t);
    EmptyShape(s');
  }

  lemma ClaimMembers(s: State, s': State, t: nat)
    requires OthersSame(s, s', t) && QueueMembers(s) && s.queue == [t] && !Queued(s'.pcs[t])
    requires s'.queue == [] && s'.word.tail.None?
    ensures QueueMembers(s')
  {
    forall u | 0 <= u < |s'.pcs| ensures !Queued(s'.pcs[u]) {
      assert u != t ==> s'.pcs[u] == s.pcs[u];
      assert u != t ==> u !in s.queue;
    }
  }

  lemma SetLockedKeeps(s: State, t: nat)
    requires Inv(s) && t < |s.pcs| && s.pcs[t].SetLocked?
    ensures s.owner.None?
    ensures Inv(SetLockedStep(s, t, s.pcs[t].next))
  {
    hide Mutex, PendingByte, QueueMembers, QueueShape, Nodes;
    HeadAt(s, t);
    Facts(s, t);
    var s' := SetLockedStep(s, t, s.pcs[t].next);
    assert OthersSame(s, s', t);
    KeepsWf(s, s', t);
    KeepsMutex(s, s', t);
    KeepsPending(s, s', t);
    KeepsMembers(s, s', t);
    KeepsNodes(s, s', t);
    QueueDistinct(s);
    SetLockedShape(s, s', t);
  }

  lemma SetLockedShape(s: State, s': State, t: nat)
    requires s.Wf() && s'.Wf() && Distinct(s.queue) && QueueShape(s)
    requires t < |s.pcs| && s.pcs[t].SetLocked? && s.queue != [] && s.queue[0] == t
    requires s' == SetLockedStep(s, t, s.pcs[t].next)
    ensures QueueShape(s')
  {
    forall j | 0 < j < |s'.queue| ensures Behind(s', j) {
      assert Behind(s, j);
      assert s.queue[j] != t;
    }
    if Promised(s) {
      var u :| 0 <= u < |s.pcs| && OnItsWay(s.pcs[u]);
      assert OnItsWay(s'.pcs[u]);
    }
  }

  lemma HandoffKeeps(s: State, t: nat)
    requires Inv(s) && t < |s.pcs| && s.pcs[t].Handoff?
    ensures |s.queue| > 1 && s.pcs[t].succ == s.queue[1]
    ensures Inv(HandoffStep(s, t, s.queue[1]))
  {
    var i := Place(s, t);
    assert Behind(s, 1);
    HandoffRest(s, t, s.queue[1]);
    HandoffShape(s, HandoffStep(s, t, s.queue[1]), t);
  }

  lemma HandoffRest(s: State, t: nat, succ: nat)
    requires s.Wf() && Mutex(s) && PendingByte(s) && QueueMembers(s) && Nodes(s)
    requires t < |s.pcs| && |s.queue| > 1 && s.queue[0] == t && succ == s.queue[1] && s.pcs[t].Handoff?
    requires succ < |s.pcs| && Queued(s.pcs[succ])
    ensures var s' := HandoffStep(s, t, succ); s'.Wf() && Mutex(s') && PendingByte(s') && QueueMembers(s') && Nodes(s')
  {
    hide Mutex, PendingByte, QueueMembers, QueueShape, Nodes;
    var s' := HandoffStep(s, t, succ);
    var mid := s.Put(succ, s.nodes[succ].(locked := true));
    NodeWriteKeeps(s, succ, mid.nodes[succ]);
    NodesAt(mid, t);
    RolesFrame(s, mid);
    assert OthersSame(mid, s', t);
    KeepsWf(mid, s', t);
    KeepsNodes(mid, s', t);
    RolesAt(mid, t);
    KeepsMutex(mid, s', t);
    KeepsPending(mid, s', t);
    HandoffMembers(mid, s', t);
  }

  lemma HandoffMembers(s: State, s': State, t: nat)
    requires OthersSame(s, s', t) && QueueMembers(s) && |s.queue| > 1 && s.queue[0] == t && !Queued(s'.pcs[t])
    requires s'.queue == s.queue[1..] && s'.word == s.word
    ensures QueueMembers(s')
  {
    forall u | 0 <= u < |s'.pcs| && Queued(s'.pcs[u]) ensures u in s'.queue {
      assert u in s.queue && u != s.queue[0];
    }
  }

  lemma HandoffShape(s: State, s': State, t: nat)
    requires s.Wf() && s'.Wf() && Distinct(s.queue) && QueueShape(s)
    requires |s.queue| > 1 && s.queue[0] == t && s.queue[1] < |s.pcs| && s.pcs[t] == Handoff(s.queue[1])
    requires s' == HandoffStep(s, t, s.queue[1])
    ensures QueueShape(s')
  {
    assert Behind(s, 1);
    forall j | 0 < j < |s'.queue| ensures Behind(s', j) {
      assert Behind(s, j + 1);
    }
  }

  // ---------- all steps ----------

  /** Before the queue, a step that writes nothing shared keeps the thread's roles and uses its node in order. */
  lemma LocalRoles(s: State, t: nat, call: Call)
    requires s.Wf() && t < |s.pcs| && NodeOk(s, t) && !Queued(s.pcs[t]) && !Acquires(s, t)
    requires !s.pcs[t].PendUndo? && !s.pcs[t].QXchg? && !s.pcs[t].Crit? && (s.pcs[t].FetchOr? ==> s.word.pending)
    ensures var pc' := NextPc(s.word, s.nodes[t], s.pcs[t], t, call);
            SameRoles(s.pcs[t], pc') && PcWf(pc', |s.pcs|) && (pc'.PendTake? ==> !s.word.locked)
  {
  }

  lemma LocalNode(s: State, t: nat, call: Call)
    requires s.Wf() && t < |s.pcs| && NodeOk(s, t) && !Queued(s.pcs[t]) && !Acquires(s, t)
    requires !s.pcs[t].PendUndo? && !s.pcs[t].QXchg? && !s.pcs[t].Crit? && (s.pcs[t].FetchOr? ==> s.word.pending)
    requires LocalStep(s, t, call).Wf()
    ensures NodeOk(LocalStep(s, t, call), t)
  {
  }

  lemma LocalKeeps(s: State, t: nat, call: Call)
    requires Inv(s) && t < |s.pcs| && !Queued(s.pcs[t]) && !Acquires(s, t)
    requires !s.pcs[t].PendUndo? && !s.pcs[t].QXchg? && !s.pcs[t].Crit? && (s.pcs[t].FetchOr? ==> s.word.pending)
    ensures Inv(LocalStep(s, t, call))
  {
    hide Mutex, PendingByte, QueueMembers, QueueShape, Nodes;
    Facts(s, t);
    LocalRoles(s, t, call);
    KeepsWf(s, LocalStep(s, t, call), t);
    LocalNode(s, t, call);
    OutsideMove(s, LocalStep(s, t, call), t);
  }

  /** At the head of the queue, a step that writes nothing shared keeps the thread's roles, and leaves for
      set_locked with a successor in the queue or on its way. */
  lemma HeadRoles(s: State, t: nat, call: Call)
    requires Inv(s) && t < |s.pcs| && Queued(s.pcs[t]) && !Acquires(s, t) && !Spins(s, t)
    requires !s.pcs[t].Link? && !s.pcs[t].Handoff?
    ensures s.queue != [] && s.queue[0] == t
    ensures OwnNode(s.pcs[t], s.nodes[t]) == s.nodes[t]
    ensures var pc, pc' := s.pcs[t], NextPc(s.word, s.nodes[t], s.pcs[t], t, call);
            && SameRoles(pc, pc') && PcWf(pc', |s.pcs|) && !pc'.Link? && !pc'.WaitNode?
            && (LocalNext(pc').Some? ==> LocalNext(pc') == s.nodes[t].next)
            && (Claiming(pc') ==> Claiming(pc) || (!s.word.locked && !s.word.pending))
            && (|s.queue| == 1 && (pc'.SetLocked? || pc'.WaitNext?) ==> Promised(s))
  {
    var i := Place(s, t);
    if s.pcs[t].ClaimCas? && |s.queue| == 1 {
      // The word differs from (t, 0, 0) only by the pending byte of a thread that will undo it.
      assert OnItsWay(s.pcs[s.pender.value]);
    }
  }

  lemma HeadKeeps(s: State, t: nat, call: Call)
    requires Inv(s) && t < |s.pcs| && Queued(s.pcs[t]) && !Acquires(s, t) && !Spins(s, t)
    requires !s.pcs[t].Link? && !s.pcs[t].Handoff?
    ensures Inv(LocalStep(s, t, call))
  {
    hide Mutex, PendingByte, QueueMembers, QueueShape, Nodes;
    HeadRoles(s, t, call);
    assert LocalStep(s, t, call).nodes == s.nodes;
    HeadMove(s, LocalStep(s, t, call), t);
  }

  /** A turn of a wait loop changes nothing. */
  lemma SpinStep(s: State, t: nat, call: Call)
    requires s.Wf() && t < |s.pcs| && Spins(s, t)
    ensures Step(s, t, call) == LocalStep(s, t, call) == s
  {
    assert s.nodes[t := s.nodes[t]] == s.nodes;
    assert s.pcs[t := s.pcs[t]] == s.pcs;
  }

  /** The step changes only what its own thread may change without the lock word or another node. */
  predicate IsLocal(s: State, t: nat)
    requires t < |s.pcs|
  {
    match s.pcs[t]
    case FetchOr => s.word.pending
    case PendUndo => false
    case QXchg => false
    case Link(_) => false
    case Handoff(_) => false
    case Crit => false
    case _ => !Acquires(s, t)
  }

  lemma StepLocal(s: State, t: nat, call: Call)
    requires s.Wf() && t < |s.pcs| && IsLocal(s, t)
    ensures Step(s, t, call) == LocalStep(s, t, call)
  {
  }

  lemma AcquireInv(s: State, t: nat, call: Call)
    requires Inv(s) && t < |s.pcs| && Acquires(s, t)
    ensures Inv(Step(s, t, call))
  {
    hide Mutex, PendingByte, QueueMembers, QueueShape, Nodes;
    match s.pcs[t] {
      case TryCas => FastStep(s, t, Crit);
      case LockCas => FastStep(s, t, Crit);
      case PendTake => TakeKeeps(s, t);
      case QTryCas => FastStep(s, t, Release);
      case ClaimCas(_) => ClaimKeeps(s, t);
      case SetLocked(_) => SetLockedKeeps(s, t);
    }
  }

  lemma SharedInv(s: State, t: nat, call: Call)
    requires Inv(s) && t < |s.pcs| && !Acquires(s, t) && !IsLocal(s, t)
    ensures Inv(Step(s, t, call))
  {
    hide Mutex, PendingByte, QueueMembers, QueueShape, Nodes;
    match s.pcs[t] {
      case FetchOr => FetchOrFree(s, t);
      case PendUndo => UndoKeeps(s, t);
      case QXchg => XchgKeeps(s, t);
      case Link(_) => LinkKeeps(s, t);
      case Handoff(_) => HandoffKeeps(s, t);
      case Crit => UnlockKeeps(s, t);
    }
  }

  /** Every step of every thread keeps the invariant. */
  lemma StepInv(s: State, t: nat, call: Call)
    requires Inv(s) && t < |s.pcs|
    ensures Inv(Step(s, t, call))
  {
    hide Mutex, PendingByte, QueueMembers, QueueShape, Nodes;
    if Acquires(s, t) {
      AcquireInv(s, t, call);
    } else if !IsLocal(s, t) {
      SharedInv(s, t, call);
    } else {
      StepLocal(s, t, call);
      if Spins(s, t) {
        SpinStep(s, t, call);
      } else if Queued(s.pcs[t]) {
        HeadKeeps(s, t, call);
      } else {
        LocalKeeps(s, t, call);
      }
    }
  }

  lemma StepSize(s: State, t: nat, call: Call)
    requires s.Wf() && t < |s.pcs|
    ensures |Step(s, t, call).pcs| == |s.pcs|
  {
  }
}
