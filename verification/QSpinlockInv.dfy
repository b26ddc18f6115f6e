/** What every step of the queued spinlock keeps, and what holds in every reachable state. */
module QSpinlockInv {
  import opened Options
  import opened QSpinlock

  /** The locked byte is 1 exactly when the owner is between an acquiring step and its unlock; no other thread
      is. Mutual exclusion, over all five acquiring steps. */
  ghost predicate Mutex(s: State) {
    && (s.word.locked <==> s.owner.Some?)
    && (s.owner.Some? ==> s.owner.value < |s.pcs|)
    && forall t :: 0 <= t < |s.pcs| ==> (Holds(s.pcs[t]) <==> s.owner == Some(t))
  }

  /** The pending byte is set exactly when one thread owns it; a holder about to take the lock finds it free. */
  ghost predicate PendingByte(s: State) {
    && (s.word.pending <==> s.pender.Some?)
    && (s.pender.Some? ==> s.pender.value < |s.pcs|)
    && (forall t :: 0 <= t < |s.pcs| ==> (Pending(s.pcs[t]) <==> s.pender == Some(t)))
    && (forall t :: 0 <= t < |s.pcs| && s.pcs[t].PendTake? ==> !s.word.locked)
  }

  ghost predicate Distinct(q: seq<nat>) {
    forall i, j :: 0 <= i < j < |q| ==> q[i] != q[j]
  }

  /** The queue holds exactly the threads between their xchg_tail and their hand-off, each once, and the tail
      field names the last of them. */
  ghost predicate QueueMembers(s: State) {
    && Distinct(s.queue)
    && (forall i :: 0 <= i < |s.queue| ==> s.queue[i] < |s.pcs| && Queued(s.pcs[s.queue[i]]))
    && (forall t :: 0 <= t < |s.pcs| && Queued(s.pcs[t]) ==> t in s.queue)
    && s.word.tail == (if s.queue == [] then None else Some(s.queue[|s.queue| - 1]))
  }

  /** A thread behind the head has not passed the MCS wait, and its predecessor's `next` is its node, or still
      unset while the thread sits between xchg_tail and linking. */
  ghost predicate Behind(s: State, i: nat)
    requires s.Wf() && 0 < i < |s.queue| && s.queue[i - 1] < |s.pcs| && s.queue[i] < |s.pcs|
  {
    var prev, t := s.queue[i - 1], s.queue[i];
    && !s.nodes[t].locked
    && (s.pcs[t] == WaitNode || s.pcs[t] == Link(prev))
    && s.nodes[prev].next == (if s.pcs[t] == WaitNode then Some(t) else None)
  }

  /** The local variable `next` of the thread at the queue's head. */
  function LocalNext(pc: Pc): Option<nat> {
    match pc
    case WaitHead(next) => next
    case ClaimCas(next) => next
    case SetLocked(next) => next
    case Handoff(succ) => Some(succ)
    case _ => None
  }

  ghost predicate Head(s: State)
    requires s.Wf() && s.queue != [] && s.queue[0] < |s.pcs|
  {
    var h, pc := s.queue[0], s.pcs[s.queue[0]];
    && !pc.Link?
    && (pc.WaitNode? ==> s.nodes[h].locked)
    && (LocalNext(pc).Some? ==> |s.queue| > 1 && LocalNext(pc) == s.nodes[h].next)
    // Past its wait, the head finds the lock free until it sets it, and nobody pending will take it.
    && (Claiming(pc) ==>
          !s.word.locked && (s.pender.Some? && s.pender.value < |s.pcs| ==> !Taking(s.pcs[s.pender.value])))
  }

  /** Some thread will publish itself behind the head. */
  ghost predicate Promised(s: State) {
    exists u :: 0 <= u < |s.pcs| && OnItsWay(s.pcs[u])
  }

  /** The shape of the queue. The last clause is the one the wait for `next` rests on. */
  ghost predicate QueueShape(s: State)
    requires s.Wf()
  {
    && (forall i :: 0 <= i < |s.queue| ==> s.queue[i] < |s.pcs|)
    && (forall i :: 0 < i < |s.queue| ==> Behind(s, i))
    && (s.queue != [] ==>
          && Head(s)
          && s.nodes[s.queue[|s.queue| - 1]].next.None?
          && (|s.queue| == 1 && (s.pcs[s.queue[0]].SetLocked? || s.pcs[s.queue[0]].WaitNext?) ==> Promised(s)))
  }

  /** Node counts stay in 0..1, and a node is prepared before it is published. */
  ghost predicate NodeOk(s: State, t: nat)
    requires s.Wf() && t < |s.pcs|
  {
    var pc, node := s.pcs[t], s.nodes[t];
    && !pc.Aborted?
    && node.count == (if UsesNode(pc) then 1 else 0)
    && (pc.QInitNext? || pc.QTryRead? || pc.QTryCas? || pc.QXchg? ==> !node.locked)
    && (pc.QTryRead? || pc.QTryCas? || pc.QXchg? ==> node.next.None?)
    && (pc.PendSpin? ==> pc.cnt <= PENDING_LOOPS)
  }

  ghost predicate Nodes(s: State)
    requires s.Wf()
  {
    forall t :: 0 <= t < |s.pcs| ==> NodeOk(s, t)
  }

  ghost predicate Inv(s: State) {
    && s.Wf()
    && Mutex(s)
    && PendingByte(s)
    && QueueMembers(s)
    && QueueShape(s)
    && Nodes(s)
  }

  lemma InitInv(n: nat)
    ensures Inv(Init(n))
  {
  }
}
