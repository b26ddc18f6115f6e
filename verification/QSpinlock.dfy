/** The queued spinlock of qspinlock/qspinlock.c and qspinlock/qspinlock.h as a step relation.

    Any number of threads run `queued_spin_lock`, `queued_spin_trylock` and `queued_spin_unlock`. Every access
    to shared memory is one step; the branching on local variables that follows an access belongs to the same
    step. The lock word is the triple (tail, pending, locked) of the source's diagram; module LockWord relates
    it to the 32-bit word and module QSpinlockMachine executes the same steps in place on that word. */
module QSpinlock {
  import opened Options

  /** _Q_PENDING_LOOPS */
  const PENDING_LOOPS: nat := 1

  /** The lock word: the queue's last thread, the pending byte and the locked byte. */
  datatype Word = Word(tail: Option<nat>, pending: bool, locked: bool)

  const UNLOCKED := Word(None, false, false)
  const LOCKED := Word(None, false, true)
  const PENDING := Word(None, true, false)

  /** struct mcs_spinlock; a node is named by the index of its thread. */
  datatype Node = Node(next: Option<nat>, locked: bool, count: int)

  /** The next access to shared memory of a thread, with the local variables it still needs. */
  datatype Pc =
    | Idle
    | TryRead                      // queued_spin_trylock: read the word
    | TryCas                       // queued_spin_trylock: 0 -> locked
    | LockCas                      // queued_spin_lock: 0 -> locked
    | PendSpin(cnt: nat)           // bounded wait for a hand-over in progress
    | FetchOr                      // set pending, fetch the old word
    | PendUndo                     // clear_pending
    | PendWait                     // wait for the owner to go away
    | PendTake                     // clear_pending_set_locked
    | QCount                       // idx = node->count++
    | QInitLocked                  // node->locked = 0
    | QInitNext                    // node->next = NULL
    | QTryRead                     // trylock before queuing: read the word
    | QTryCas                      // trylock before queuing: 0 -> locked
    | QXchg                        // xchg_tail
    | Link(prev: nat)              // prev->next = node
    | WaitNode                     // wait for node->locked
    | ReadNext                     // next = node->next
    | WaitHead(next: Option<nat>)  // wait for locked and pending to go away
    | ClaimCas(next: Option<nat>)  // n,0,0 -> 0,0,1
    | SetLocked(next: Option<nat>) // *,*,0 -> *,*,1
    | WaitNext                     // wait for node->next
    | Handoff(succ: nat)           // next->locked = 1
    | Release                      // --node->count
    | Crit                         // the lock is held; the next access is the unlock
    | Aborted                      // abort() at the nesting check

  /** What an idle thread does when it is scheduled. */
  datatype Call = Nothing | Lock | TryLock

  /** `word`, `nodes` and `pcs` are the program's state. `queue`, `owner` and `pender` are history: the
      threads in the order of their xchg_tail, the thread that acquired last and has not unlocked, and the
      thread whose fetch-or found the pending byte clear. No step reads them. */
  datatype State = State(word: Word, nodes: seq<Node>, pcs: seq<Pc>,
                         queue: seq<nat>, owner: Option<nat>, pender: Option<nat>)
  {
    predicate Wf() {
      && |nodes| == |pcs|
      && (word.tail.Some? ==> word.tail.value < |pcs|)
      && (forall i :: 0 <= i < |nodes| && nodes[i].next.Some? ==> nodes[i].next.value < |pcs|)
      && (forall i :: 0 <= i < |pcs| ==> PcWf(pcs[i], |pcs|))
    }

    function Goto(t: nat, pc: Pc): State
      requires t < |pcs|
    {
      this.(pcs := pcs[t := pc])
    }

    function Put(i: nat, node: Node): State
      requires i < |nodes|
    {
      this.(nodes := nodes[i := node])
    }
  }

  predicate PcWf(pc: Pc, n: nat) {
    match pc
    case Link(prev) => prev < n
    case WaitHead(next) => next.Some? ==> next.value < n
    case ClaimCas(next) => next.Some? ==> next.value < n
    case SetLocked(next) => next.Some? ==> next.value < n
    case Handoff(succ) => succ < n
    case _ => true
  }

  /** `val & ~_Q_LOCKED_MASK` is non-zero. */
  predicate Contended(val: Word) {
    val.tail.Some? || val.pending
  }

  /** Where the slow path goes once `val` is read for good. */
  function AfterRead(val: Word): Pc {
    if Contended(val) then QCount else FetchOr
  }

  /** Entry of the slow path. */
  function SlowPath(val: Word): Pc {
    if val == PENDING then PendSpin(PENDING_LOOPS) else AfterRead(val)
  }

  /** One step of thread t. A step that leaves the state as it is is one turn of a wait loop. */
  function Step(s: State, t: nat, call: Call): State
    requires s.Wf() && t < |s.pcs|
  {
    match s.pcs[t]
    case TryCas => if s.word == UNLOCKED then FastAcquire(s, t, Crit) else LocalStep(s, t, call)
    case LockCas => if s.word == UNLOCKED then FastAcquire(s, t, Crit) else LocalStep(s, t, call)
    case FetchOr => if s.word.pending then LocalStep(s, t, call) else PendStep(s, t)
    case PendUndo => UndoStep(s, t)
    case PendTake => TakeStep(s, t)
    case QTryCas => if s.word == UNLOCKED then FastAcquire(s, t, Release) else LocalStep(s, t, call)
    case QXchg => XchgStep(s, t)
    case Link(prev) => LinkStep(s, t, prev)
    case ClaimCas(_) => if s.word == Word(Some(t), false, false) then ClaimStep(s, t) else LocalStep(s, t, call)
    case SetLocked(next) => SetLockedStep(s, t, next)
    case Handoff(succ) => HandoffStep(s, t, succ)
    case Crit => UnlockStep(s, t)
    case _ => LocalStep(s, t, call)
  }

  /** A step that writes nothing shared, or a field of the thread's own node. */
  function LocalStep(s: State, t: nat, call: Call): State
    requires s.Wf() && t < |s.pcs|
  {
    s.Put(t, OwnNode(s.pcs[t], s.nodes[t])).Goto(t, NextPc(s.word, s.nodes[t], s.pcs[t], t, call))
  }

  /** The thread's node after its step: count++, locked = 0, next = NULL, --count. */
  function OwnNode(pc: Pc, node: Node): Node {
    match pc
    case QCount => node.(count := node.count + 1)
    case QInitLocked => node.(locked := false)
    case QInitNext => node.(next := None)
    case Release => node.(count := node.count - 1)
    case _ => node
  }

  /** Where a step that writes nothing shared leads, from what it reads: the word or the thread's node. */
  function NextPc(word: Word, node: Node, pc: Pc, t: nat, call: Call): Pc {
    match pc
    case Idle => (match call case Nothing => Idle case Lock => LockCas case TryLock => TryRead)
    case TryRead => if word == UNLOCKED then TryCas else Idle
    case TryCas => Idle
    case LockCas => SlowPath(word)
    case PendSpin(cnt) => if word != PENDING || cnt == 0 then AfterRead(word) else PendSpin(cnt - 1)
    case FetchOr => QCount
    case PendWait => if word.locked then PendWait else PendTake
    case QCount => if node.count >= 1 then Aborted else QInitLocked
    case QInitLocked => QInitNext
    case QInitNext => QTryRead
    case QTryRead => if word == UNLOCKED then QTryCas else QXchg
    case QTryCas => QXchg
    case WaitNode => if node.locked then ReadNext else WaitNode
    case ReadNext => WaitHead(node.next)
    case WaitHead(next) =>
      if word.locked || word.pending then pc else if word.tail == Some(t) then ClaimCas(next) else SetLocked(next)
    case ClaimCas(next) => SetLocked(next)
    case WaitNext => if node.next.Some? then Handoff(node.next.value) else WaitNext
    case Release => Crit
    case _ => pc
  }

  function FastAcquire(s: State, t: nat, pc: Pc): State
    requires t < |s.pcs|
  {
    s.(word := LOCKED, owner := Some(t)).Goto(t, pc)
  }

  /** The fetch-or found the pending byte clear: *,0,* -> *,1,*. */
  function PendStep(s: State, t: nat): State
    requires t < |s.pcs|
  {
    s.(word := s.word.(pending := true), pender := Some(t))
     .Goto(t, if s.word.tail.Some? then PendUndo else if s.word.locked then PendWait else PendTake)
  }

  /** clear_pending: *,1,* -> *,0,*. */
  function UndoStep(s: State, t: nat): State
    requires t < |s.pcs|
  {
    s.(word := s.word.(pending := false), pender := None).Goto(t, QCount)
  }

  /** clear_pending_set_locked: *,1,0 -> *,0,1. */
  function TakeStep(s: State, t: nat): State
    requires t < |s.pcs|
  {
    s.(word := s.word.(pending := false, locked := true), pender := None, owner := Some(t)).Goto(t, Crit)
  }

  /** queued_spin_unlock. */
  function UnlockStep(s: State, t: nat): State
    requires t < |s.pcs|
  {
    s.(word := s.word.(locked := false), owner := None).Goto(t, Idle)
  }

  /** xchg_tail: p,*,* -> n,*,*. */
  function XchgStep(s: State, t: nat): State
    requires t < |s.pcs|
  {
    s.(word := s.word.(tail := Some(t)), queue := s.queue + [t])
     .Goto(t, if s.word.tail.Some? then Link(s.word.tail.value) else WaitHead(None))
  }

  function LinkStep(s: State, t: nat, prev: nat): State
    requires t < |s.pcs| && prev < |s.nodes|
  {
    s.Put(prev, s.nodes[prev].(next := Some(t))).Goto(t, WaitNode)
  }

  /** The queue head's uncontended exchange: n,0,0 -> 0,0,1. */
  function ClaimStep(s: State, t: nat): State
    requires t < |s.pcs|
  {
    FastAcquire(s, t, Release).(queue := [])
  }

  /** set_locked: *,*,0 -> *,*,1. */
  function SetLockedStep(s: State, t: nat, next: Option<nat>): State
    requires t < |s.pcs|
  {
    s.(word := s.word.(locked := true), owner := Some(t))
     .Goto(t, if next.Some? then Handoff(next.value) else WaitNext)
  }

  function HandoffStep(s: State, t: nat, succ: nat): State
    requires t < |s.pcs| && succ < |s.nodes|
  {
    s.Put(succ, s.nodes[succ].(locked := true)).(queue := if s.queue == [] then [] else s.queue[1..]).Goto(t, Release)
  }

  /** All threads idle, all memory zero. */
  function Init(n: nat): (s: State)
    ensures s.Wf()
  {
    State(UNLOCKED, seq(n, _ => Node(None, false, 0)), seq(n, _ => Idle), [], None, None)
  }

  // ---------- roles of a thread ----------

  /** Between an acquiring step and the unlock. */
  predicate Holds(pc: Pc) {
    pc.WaitNext? || pc.Handoff? || pc.Release? || pc.Crit?
  }

  /** Between its xchg_tail and its leaving the queue. */
  predicate Queued(pc: Pc) {
    || pc.Link? || pc.WaitNode? || pc.ReadNext? || pc.WaitHead?
    || pc.ClaimCas? || pc.SetLocked? || pc.WaitNext? || pc.Handoff?
  }

  /** Owns the pending byte: its fetch-or found it clear. */
  predicate Pending(pc: Pc) {
    pc.PendUndo? || Taking(pc)
  }

  /** Owns the pending byte and saw an empty tail, so it will take the lock. */
  predicate Taking(pc: Pc) {
    pc.PendWait? || pc.PendTake?
  }

  /** Bound for xchg_tail, with no wait loop in between. */
  predicate OnItsWay(pc: Pc) {
    pc.PendUndo? || pc.QCount? || pc.QInitLocked? || pc.QInitNext? || pc.QTryRead? || pc.QTryCas? || pc.QXchg?
  }

  /** The queue head that has seen locked and pending both clear. */
  predicate Claiming(pc: Pc) {
    pc.ClaimCas? || pc.SetLocked?
  }

  /** Uses its queue node. */
  predicate UsesNode(pc: Pc) {
    pc.QInitLocked? || pc.QInitNext? || pc.QTryRead? || pc.QTryCas? || pc.QXchg? || Queued(pc) || pc.Release?
  }

  /** The thread's next access is one turn of a wait loop whose condition does not hold. */
  predicate Spins(s: State, t: nat)
    requires s.Wf() && t < |s.pcs|
  {
    match s.pcs[t]
    case PendWait => s.word.locked
    case WaitNode => !s.nodes[t].locked
    case WaitHead(_) => s.word.locked || s.word.pending
    case WaitNext => s.nodes[t].next.None?
    case _ => false
  }

  /** The step of t is one of the acquiring steps: the two fast-path exchanges, the pending hand-over, the
      re-try before queuing, the queue head's uncontended exchange and set_locked. */
  predicate Acquires(s: State, t: nat)
    requires t < |s.pcs|
  {
    match s.pcs[t]
    case TryCas => s.word == UNLOCKED
    case LockCas => s.word == UNLOCKED
    case PendTake => true
    case QTryCas => s.word == UNLOCKED
    case ClaimCas(_) => s.word == Word(Some(t), false, false)
    case SetLocked(_) => true
    case _ => false
  }
}
