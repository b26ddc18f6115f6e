/** The queued spinlock in its own form: one shared 32-bit word, the array of queue nodes, and threads that update
    them in place, one access at a time. Each step is proved to be the step of module QSpinlock on the triple the
    word stands for, so every theorem about that module is a theorem about this one. */
module QSpinlockMachine {
  import opened Options
  import opened QSpinlock
  import opened QSpinlockInv
  import opened QSpinlockSteps
  import opened LockWord

  /** struct qspinlock, with the word-level helpers of qspinlock.c. */
  class Lock {
    var val: u32
    ghost var word: Word

    ghost predicate Valid()
      reads this
    {
      Fits(word) && val == Pack(word)
    }

    /** __ARCH_SPIN_LOCK_UNLOCKED */
    constructor ()
      ensures Valid() && word == UNLOCKED
    {
      val := 0;
      word := UNLOCKED;
    }

    /** atomic_try_cmpxchg: the word seen comes back. */
    method TryCmpxchg(expected: u32, desired: u32, ghost from: Word, ghost to: Word) returns (ok: bool, seen: u32)
      requires Valid() && Fits(from) && Fits(to) && expected == Pack(from) && desired == Pack(to)
      modifies this
      ensures Valid() && seen == Pack(old(word))
      ensures ok <==> old(word) == from
      ensures word == if ok then to else old(word)
    {
      seen := val;
      ok := seen == expected;
      if ok {
        PackInjective(word, from);
        val := desired;
        word := to;
      }
    }

    /** queued_fetch_set_pending_acquire */
    method FetchSetPending() returns (seen: u32)
      requires Valid()
      modifies this
      ensures Valid() && seen == Pack(old(word)) && word == old(word).(pending := true)
    {
      hide OrPending, Pack;
      LockWord.FetchSetPending(word);
      seen := val;
      val := OrPending(val);
      word := word.(pending := true);
    }

    method ClearPending()
      requires Valid()
      modifies this
      ensures Valid() && word == old(word).(pending := false)
    {
      hide WritePending, Pack;
      LockWord.ClearPending(word);
      val := WritePending(val, 0);
      word := word.(pending := false);
    }

    method ClearPendingSetLocked()
      requires Valid()
      modifies this
      ensures Valid() && word == old(word).(pending := false, locked := true)
    {
      hide WriteLockedPending, Pack;
      LockWord.ClearPendingSetLocked(word);
      val := WriteLockedPending(val, LOCKED_VAL);
      word := word.(pending := false, locked := true);
    }

    /** set_locked, and the store of queued_spin_unlock */
    method WriteLockedByte(locked: bool)
      requires Valid()
      modifies this
      ensures Valid() && word == old(word).(locked := locked)
    {
      hide WriteLocked, Pack;
      SetLockedByte(word, locked);
      val := WriteLocked(val, if locked then LOCKED_VAL else 0);
      word := word.(locked := locked);
    }

    /** xchg_tail returns the old tail's code. */
    method XchgTail(thread: nat) returns (prev: u32)
      requires Valid() && thread < MAX_THREADS
      modifies this
      ensures Valid() && word == old(word).(tail := Some(thread))
      ensures prev == if old(word).tail.Some? then EncodeTail(old(word).tail.value) else 0
    {
      hide WriteTail, Pack, EncodeTail;
      TailExchange(word, thread);
      prev := val / TAIL_UNIT * TAIL_UNIT;
      val := WriteTail(val, EncodeTail(thread) / TAIL_UNIT);
      word := word.(tail := Some(thread));
    }
  }

  /** Where the slow path goes on a value of the word. */
  function ReadTarget(val: u32): Pc {
    if val / 0x100 != 0 then QCount else FetchOr
  }

  function EntryTarget(val: u32): Pc {
    if val == PENDING_VAL then PendSpin(PENDING_LOOPS) else ReadTarget(val)
  }

  /** Where the fetch-or leads on the value it returns. */
  function FetchTarget(val: u32): Pc {
    if val / 0x100 != 0 then (if val / 0x100 % 0x100 == 0 then PendUndo else QCount)
    else if val % 0x100 != 0 then PendWait else PendTake
  }

  class Machine {
    const n: nat
    const lock: Lock
    const qnodes: array<Node>
    /** Each thread's next access, with its local variables, and its local variable val. */
    const pcs: array<Pc>
    const vals: array<u32>
    ghost var queue: seq<nat>
    ghost var owner: Option<nat>
    ghost var pender: Option<nat>

    ghost const Repr: set<object> := {this, lock, qnodes, pcs, vals}

    /** The state of module QSpinlock this machine is in. */
    ghost function Abs(): State
      reads Repr
    {
      State(lock.word, qnodes[..], pcs[..], queue, owner, pender)
    }

    ghost predicate Valid()
      reads Repr
    {
      && n <= MAX_THREADS
      && qnodes.Length == pcs.Length == vals.Length == n
      && lock.Valid()
      && Inv(Abs())
      && forall t :: 0 <= t < n && pcs[t].ClaimCas? ==> vals[t] == EncodeTail(t)
    }

    /** A step of thread t leaves the other threads' places and variables alone. */
    twostate predicate OthersKept(t: nat)
      requires pcs.Length == vals.Length == n
      reads pcs, vals
    {
      forall u :: 0 <= u < n && u != t ==> pcs[u] == old(pcs[u]) && vals[u] == old(vals[u])
    }

    constructor (n: nat)
      requires n <= MAX_THREADS
      ensures Valid() && fresh(Repr) && this.n == n && Abs() == Init(n)
    {
      this.n := n;
      lock := new Lock();
      qnodes := new Node[n](_ => Node(None, false, 0));
      pcs := new Pc[n](_ => Idle);
      vals := new u32[n](_ => 0);
      queue, owner, pender := [], None, None;
      new;
      assert qnodes[..] == Init(n).nodes && pcs[..] == Init(n).pcs;
      InitInv(n);
    }

    /** queued_spin_lock, queued_spin_trylock and the slow path before the label `queue`. */
    method EntryStep(t: nat, call: Call)
      requires Valid() && t < n
      requires pcs[t].TryRead? || pcs[t].TryCas? || pcs[t].LockCas? || pcs[t].PendSpin? || pcs[t].Idle?
      modifies Repr
      ensures Abs() == Step(old(Abs()), t, call) && lock.Valid()
      ensures OthersKept(t) && !pcs[t].ClaimCas?
    {
      hide Mutex, PendingByte, QueueMembers, QueueShape, Nodes, Pack, EncodeTail, DecodeTail;
      Tests(lock.word);
      PackConstants();
      match pcs[t] {
        case Idle =>
          if call.Lock? {
            pcs[t] := LockCas;
          } else if call.TryLock? {
            pcs[t] := TryRead;
          }
        case TryRead =>
          pcs[t] := if lock.val != 0 then Idle else TryCas;
        case TryCas =>
          var ok, seen := lock.TryCmpxchg(0, LOCKED_VAL, UNLOCKED, LOCKED);
          pcs[t] := if ok then Crit else Idle;
          if ok { owner := Some(t); }
        case LockCas =>
          var ok, seen := lock.TryCmpxchg(0, LOCKED_VAL, UNLOCKED, LOCKED);
          pcs[t] := if ok then Crit else EntryTarget(seen);
          if ok { owner := Some(t); }
        case PendSpin(cnt) =>
          var val := lock.val;
          pcs[t] := if val != PENDING_VAL || cnt == 0 then ReadTarget(val) else PendSpin(cnt - 1);
      }
      assert qnodes[..] == old(qnodes[..]);
      assert old(qnodes[..])[t := old(qnodes[t])] == old(qnodes[..]);
      assert pcs[..] == old(pcs[..])[t := pcs[t]];
    }

    /** The pending bit set, and cleared again. */
    method PendingStep(t: nat, ghost call: Call)
      requires Valid() && t < n
      requires pcs[t].FetchOr? || pcs[t].PendUndo?
      modifies Repr
      ensures Abs() == Step(old(Abs()), t, call) && lock.Valid()
      ensures OthersKept(t) && !pcs[t].ClaimCas?
    {
      hide Mutex, PendingByte, QueueMembers, QueueShape, Nodes, Pack, EncodeTail, DecodeTail;
      Tests(lock.word);
      match pcs[t] {
        case FetchOr =>
          var val := lock.FetchSetPending();
          pcs[t] := FetchTarget(val);
          if !old(lock.word.pending) { pender := Some(t); }
        case PendUndo =>
          lock.ClearPending();
          pcs[t] := QCount;
          pender := None;
      }
      assert qnodes[..] == old(qnodes[..]);
      assert old(qnodes[..])[t := old(qnodes[t])] == old(qnodes[..]);
      assert pcs[..] == old(pcs[..])[t := pcs[t]];
    }

    /** The pending hand-over, and the unlock. */
    method OwnerStep(t: nat, ghost call: Call)
      requires Valid() && t < n
      requires pcs[t].PendWait? || pcs[t].PendTake? || pcs[t].Crit?
      modifies Repr
      ensures Abs() == Step(old(Abs()), t, call) && lock.Valid()
      ensures OthersKept(t) && !pcs[t].ClaimCas?
    {
      hide Mutex, PendingByte, QueueMembers, QueueShape, Nodes, Pack, EncodeTail, DecodeTail;
      Tests(lock.word);
      match pcs[t] {
        case PendWait =>
          if lock.val % 0x100 == 0 { pcs[t] := PendTake; }
        case PendTake =>
          lock.ClearPendingSetLocked();
          pcs[t] := Crit;
          pender, owner := None, Some(t);
        case Crit =>
          lock.WriteLockedByte(false);
          pcs[t] := Idle;
          owner := None;
      }
      assert qnodes[..] == old(qnodes[..]);
      assert old(qnodes[..])[t := old(qnodes[t])] == old(qnodes[..]);
      assert pcs[..] == old(pcs[..])[t := pcs[t]];
    }

    /** The thread's own node: its count and its preparation. */
    method NodeStep(t: nat, ghost call: Call)
      requires Valid() && t < n
      requires pcs[t].QCount? || pcs[t].QInitLocked? || pcs[t].QInitNext? || pcs[t].Release?
      modifies Repr
      ensures Abs() == Step(old(Abs()), t, call) && lock.Valid()
      ensures OthersKept(t) && !pcs[t].ClaimCas?
    {
      hide Mutex, PendingByte, QueueMembers, QueueShape, Nodes;
      match pcs[t] {
        case QCount =>
          var idx := qnodes[t].count;
          qnodes[t] := qnodes[t].(count := idx + 1);
          pcs[t] := if idx >= 1 then Aborted else QInitLocked;
        case QInitLocked =>
          qnodes[t] := qnodes[t].(locked := false);
          pcs[t] := QInitNext;
        case QInitNext =>
          qnodes[t] := qnodes[t].(next := None);
          pcs[t] := QTryRead;
        case Release =>
          qnodes[t] := qnodes[t].(count := qnodes[t].count - 1);
          pcs[t] := Crit;
      }
      assert qnodes[..] == old(qnodes[..])[t := qnodes[t]];
      assert pcs[..] == old(pcs[..])[t := pcs[t]];
    }

    /** The trylock before queuing, and xchg_tail. */
    method PublishStep(t: nat, ghost call: Call)
      requires Valid() && t < n
      requires pcs[t].QTryRead? || pcs[t].QTryCas? || pcs[t].QXchg?
      modifies Repr
      ensures Abs() == Step(old(Abs()), t, call) && lock.Valid()
      ensures OthersKept(t) && !pcs[t].ClaimCas?
    {
      hide Mutex, PendingByte, QueueMembers, QueueShape, Nodes, Pack, EncodeTail, DecodeTail;
      Tests(lock.word);
      PackConstants();
      match pcs[t] {
        case QTryRead =>
          pcs[t] := if lock.val != 0 then QXchg else QTryCas;
        case QTryCas =>
          var ok, seen := lock.TryCmpxchg(0, LOCKED_VAL, UNLOCKED, LOCKED);
          pcs[t] := if ok then Release else QXchg;
          if ok { owner := Some(t); }
        case QXchg =>
          var prev := lock.XchgTail(t);
          if old(lock.word).tail.Some? { DecodeEncode(old(lock.word).tail.value); }
          pcs[t] := if prev != 0 then Link(DecodeTail(prev)) else WaitHead(None);
          queue := queue + [t];
      }
      assert qnodes[..] == old(qnodes[..]);
      assert pcs[..] == old(pcs[..])[t := pcs[t]];
      assert old(qnodes[..])[t := old(qnodes[t])] == old(qnodes[..]);
    }

    /** The queue nodes: linking, the MCS wait, the wait for a successor, and the hand-off. */
    method McsStep(t: nat, ghost call: Call)
      requires Valid() && t < n
      requires pcs[t].Link? || pcs[t].WaitNode? || pcs[t].ReadNext? || pcs[t].WaitNext? || pcs[t].Handoff?
      modifies Repr
      ensures Abs() == Step(old(Abs()), t, call) && lock.Valid()
      ensures OthersKept(t) && !pcs[t].ClaimCas?
    {
      hide Mutex, PendingByte, QueueMembers, QueueShape, Nodes;
      assert old(qnodes[..])[t := old(qnodes[t])] == old(qnodes[..]);
      match pcs[t] {
        case Link(prev) =>
          qnodes[prev] := qnodes[prev].(next := Some(t));
          pcs[t] := WaitNode;
          assert qnodes[..] == old(qnodes[..])[prev := qnodes[prev]];
        case WaitNode =>
          if qnodes[t].locked { pcs[t] := ReadNext; }
        case ReadNext =>
          pcs[t] := WaitHead(qnodes[t].next);
        case WaitNext =>
          if qnodes[t].next.Some? { pcs[t] := Handoff(qnodes[t].next.value); }
        case Handoff(succ) =>
          qnodes[succ] := qnodes[succ].(locked := true);
          pcs[t] := Release;
          queue := if queue == [] then [] else queue[1..];
          assert qnodes[..] == old(qnodes[..])[succ := qnodes[succ]];
      }
      assert pcs[..] == old(pcs[..])[t := pcs[t]];
    }

    /** The queue head's wait for the word. */
    method HeadStep(t: nat, ghost call: Call)
      requires Valid() && t < n
      requires pcs[t].WaitHead?
      modifies Repr
      ensures Abs() == Step(old(Abs()), t, call) && lock.Valid()
      ensures OthersKept(t)
      ensures pcs[t].ClaimCas? ==> vals[t] == EncodeTail(t)
    {
      hide Mutex, PendingByte, QueueMembers, QueueShape, Nodes, Pack, EncodeTail, DecodeTail;
      Tests(lock.word);
      var next := pcs[t].next;
      if lock.val % 0x1_0000 == 0 {
        vals[t] := lock.val;
        TailCodes(lock.word, t);
        pcs[t] := if vals[t] - vals[t] % 0x1_0000 == EncodeTail(t) then ClaimCas(next) else SetLocked(next);
      }
      assert qnodes[..] == old(qnodes[..]);
      assert old(qnodes[..])[t := old(qnodes[t])] == old(qnodes[..]);
      assert pcs[..] == old(pcs[..])[t := pcs[t]];
    }

    /** Its claim of the lock. */
    method ClaimStep(t: nat, ghost call: Call)
      requires Valid() && t < n
      requires pcs[t].ClaimCas? || pcs[t].SetLocked?
      modifies Repr
      ensures Abs() == Step(old(Abs()), t, call) && lock.Valid()
      ensures OthersKept(t) && !pcs[t].ClaimCas?
    {
      hide Mutex, PendingByte, QueueMembers, QueueShape, Nodes, Pack, EncodeTail, DecodeTail;
      PackConstants();
      match pcs[t] {
        case ClaimCas(next) =>
          ghost var mine := Word(Some(t), false, false);
          TailCodes(mine, t);
          var ok, seen := lock.TryCmpxchg(vals[t], LOCKED_VAL, mine, LOCKED);
          pcs[t] := if ok then Release else SetLocked(next);
          if ok { owner, queue := Some(t), []; }
        case SetLocked(next) =>
          lock.WriteLockedByte(true);
          pcs[t] := if next.Some? then Handoff(next.value) else WaitNext;
          owner := Some(t);
      }
      assert qnodes[..] == old(qnodes[..]);
      assert old(qnodes[..])[t := old(qnodes[t])] == old(qnodes[..]);
      assert pcs[..] == old(pcs[..])[t := pcs[t]];
    }

    /** One step of thread t, in place. */
    method Execute(t: nat, call: Call)
      requires Valid() && t < n
      modifies Repr
      ensures Valid() && Abs() == Step(old(Abs()), t, call)
    {
      hide Step, Mutex, PendingByte, QueueMembers, QueueShape, Nodes;
      StepInv(Abs(), t, call);
      NotAborted(Abs(), t);
      match pcs[t] {
        case Idle => EntryStep(t, call);
        case TryRead => EntryStep(t, call);
        case TryCas => EntryStep(t, call);
        case LockCas => EntryStep(t, call);
        case PendSpin(_) => EntryStep(t, call);
        case FetchOr => PendingStep(t, call);
        case PendUndo => PendingStep(t, call);
        case PendWait => OwnerStep(t, call);
        case PendTake => OwnerStep(t, call);
        case Crit => OwnerStep(t, call);
        case QTryRead => PublishStep(t, call);
        case QTryCas => PublishStep(t, call);
        case QXchg => PublishStep(t, call);
        case WaitHead(_) => HeadStep(t, call);
        case ClaimCas(_) => ClaimStep(t, call);
        case SetLocked(_) => ClaimStep(t, call);
        case Link(_) => McsStep(t, call);
        case WaitNode => McsStep(t, call);
        case ReadNext => McsStep(t, call);
        case WaitNext => McsStep(t, call);
        case Handoff(_) => McsStep(t, call);
        case QCount => NodeStep(t, call);
        case QInitLocked => NodeStep(t, call);
        case QInitNext => NodeStep(t, call);
        case Release => NodeStep(t, call);
        case Aborted => assert false;
      }
    }
  }

  lemma PackConstants()
    ensures Pack(UNLOCKED) == 0 && Pack(LOCKED) == LOCKED_VAL
  {
  }

  lemma NotAborted(s: State, t: nat)
    requires Inv(s) && t < |s.pcs|
    ensures !s.pcs[t].Aborted?
  {
    assert NodeOk(s, t);
  }

  /** Comparing the tail part of the word with a thread's own code asks whether the thread is the tail. */
  lemma TailCodes(w: Word, t: nat)
    requires Fits(w) && t < MAX_THREADS && !w.locked && !w.pending
    ensures Pack(w) - Pack(w) % 0x1_0000 == Pack(w)
    ensures Pack(w) == EncodeTail(t) <==> w.tail == Some(t)
  {
    Layout(w);
    DecodeEncode(t);
    if w.tail.Some? {
      DecodeEncode(w.tail.value);
    }
  }
}
