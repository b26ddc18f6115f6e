/** The 32-bit lock word of qspinlock_types.h: its layout, the byte, halfword and word accesses the source makes,
    and why they act on the triple (tail, pending, locked) as their comments say. Words are numbers below 2^32:
    a shift is a multiplication or division by a power of two, a mask with contiguous bits a remainder or
    quotient, and 32-bit arithmetic wraps. */
module LockWord {
  import opened Options
  import opened QSpinlock

  const TWO_32: nat := 0x1_0000_0000

  type u32 = n: nat | n < 0x1_0000_0000

  // _Q_LOCKED_VAL and _Q_PENDING_VAL; the locked byte, the pending byte and the tail halfword start at bits
  // 0, 8 and 16, and the cpu number in the tail at bit 18.
  const LOCKED_VAL: u32 := 1
  const PENDING_VAL: u32 := 0x100
  const TAIL_UNIT: nat := 0x1_0000
  const CPU_UNIT: nat := 0x4_0000

  /** The largest number of threads the tail's cpu field has room for, as the source documents it. */
  const MAX_THREADS: nat := 16382

  /** encode_tail: (thread_index + 1) << 18, so that "no tail" differs from the tail of thread 0. */
  function EncodeTail(thread: nat): u32 {
    (thread + 1) * CPU_UNIT % TWO_32
  }

  /** The index decode_tail computes: (tail >> 18) - 1, which wraps for a word without a tail. */
  function DecodeTail(tail: u32): u32 {
    (tail / CPU_UNIT + TWO_32 - 1) % TWO_32
  }

  /** decode_tail inverts encode_tail for every legal thread, so its assertion cannot fail; the code is not
      zero and leaves the low halfword and the index bits clear. */
  lemma DecodeEncode(thread: nat)
    requires thread < MAX_THREADS
    ensures DecodeTail(EncodeTail(thread)) == thread
    ensures EncodeTail(thread) != 0 && EncodeTail(thread) % CPU_UNIT == 0
  {
    assert EncodeTail(thread) == (thread + 1) * CPU_UNIT;
  }

  // ---------- accesses through the union's views ----------

  function WriteLocked(val: u32, b: nat): u32
    requires b < 0x100
  {
    val - val % 0x100 + b
  }

  function WritePending(val: u32, b: nat): u32
    requires b < 0x100
  {
    val - val % 0x1_0000 + b * 0x100 + val % 0x100
  }

  function WriteLockedPending(val: u32, h: nat): u32
    requires h < 0x1_0000
  {
    val - val % 0x1_0000 + h
  }

  function WriteTail(val: u32, h: nat): u32
    requires h < 0x1_0000
  {
    h * 0x1_0000 + val % 0x1_0000
  }

  /** val | _Q_PENDING_VAL */
  function OrPending(val: u32): u32 {
    if val / 0x100 % 2 == 1 then val else val + PENDING_VAL
  }

  // ---------- the word as a triple ----------

  predicate Fits(w: Word) {
    w.tail.Some? ==> w.tail.value < MAX_THREADS
  }

  /** The word that stands for a triple. */
  function Pack(w: Word): u32
    requires Fits(w)
  {
    (if w.tail.Some? then (w.tail.value + 1) * CPU_UNIT else 0)
    + (if w.pending then PENDING_VAL else 0)
    + (if w.locked then LOCKED_VAL else 0)
  }

  /** The halfword, the pending byte and the locked byte of a packed word. */
  lemma Layout(w: Word)
    requires Fits(w)
    ensures Pack(w) / 0x1_0000 == if w.tail.Some? then 4 * (w.tail.value + 1) else 0
    ensures Pack(w) % 0x100 == if w.locked then 1 else 0
    ensures Pack(w) / 0x100 % 0x100 == if w.pending then 1 else 0
    ensures Pack(w) % 0x1_0000 == (if w.pending then 0x100 else 0) + (if w.locked then 1 else 0)
    ensures Pack(w) / 0x100 % 2 == 1 <==> w.pending
    ensures Pack(w) / 0x100 == Pack(w) / 0x1_0000 * 0x100 + if w.pending then 1 else 0
  {
    var tail := if w.tail.Some? then 4 * (w.tail.value + 1) else 0;
    var pending := if w.pending then 1 else 0;
    var locked := if w.locked then 1 else 0;
    Fields(tail, pending, locked);
    assert Pack(w) == tail * 0x1_0000 + pending * 0x100 + locked;
  }

  lemma Fields(tail: nat, pending: nat, locked: nat)
    requires pending < 0x100 && locked < 0x100
    ensures var val := tail * 0x1_0000 + pending * 0x100 + locked;
            && val / 0x1_0000 == tail && val % 0x100 == locked
            && val % 0x1_0000 == pending * 0x100 + locked
            && val / 0x100 == tail * 0x100 + pending
            && val / 0x100 % 0x100 == pending && val / 0x100 % 2 == pending % 2
  {
    var high := tail * 0x100 + pending;
    Regroup(tail, pending, locked);
    LowByte(high, locked);
    LowByte(tail, pending);
    LowBit(tail, pending);
    LowHalf(tail, pending * 0x100 + locked);
  }

  lemma Regroup(tail: nat, pending: nat, locked: nat)
    ensures tail * 0x1_0000 + pending * 0x100 + locked == (tail * 0x100 + pending) * 0x100 + locked
    ensures tail * 0x1_0000 + pending * 0x100 + locked == tail * 0x1_0000 + (pending * 0x100 + locked)
  {
  }

  lemma LowBit(high: nat, low: nat)
    ensures (high * 0x100 + low) % 2 == low % 2
  {
    assert high * 0x100 + low == 2 * (high * 0x80) + low;
  }

  lemma LowByte(high: nat, low: nat)
    requires low < 0x100
    ensures (high * 0x100 + low) / 0x100 == high && (high * 0x100 + low) % 0x100 == low
  {
  }

  lemma LowHalf(high: nat, low: nat)
    requires low < 0x1_0000
    ensures (high * 0x1_0000 + low) / 0x1_0000 == high && (high * 0x1_0000 + low) % 0x1_0000 == low
  {
  }

  /** Distinct triples are distinct words, so comparing words compares triples. */
  lemma PackInjective(w: Word, w': Word)
    requires Fits(w) && Fits(w') && Pack(w) == Pack(w')
    ensures w == w'
  {
    Layout(w);
    Layout(w');
  }

  /** The tests of the source on the word are tests on the triple. */
  lemma Tests(w: Word)
    requires Fits(w)
    ensures Pack(w) == 0 <==> w == UNLOCKED
    ensures Pack(w) == LOCKED_VAL <==> w == LOCKED
    ensures Pack(w) == PENDING_VAL <==> w == PENDING
    ensures Pack(w) / 0x100 != 0 <==> Contended(w)
    ensures Pack(w) % 0x100 != 0 <==> w.locked
    ensures Pack(w) / 0x100 % 0x100 != 0 <==> w.pending
    ensures Pack(w) % 0x1_0000 != 0 <==> w.locked || w.pending
    ensures Pack(w) - Pack(w) % 0x1_0000 == if w.tail.Some? then EncodeTail(w.tail.value) else 0
  {
    Layout(w);
  }

  // Each access has the transition its comment gives.

  /** *,1,* -> *,0,* */
  lemma ClearPending(w: Word)
    requires Fits(w)
    ensures WritePending(Pack(w), 0) == Pack(w.(pending := false))
  {
    Layout(w);
  }

  /** *,1,0 -> *,0,1 */
  lemma ClearPendingSetLocked(w: Word)
    requires Fits(w)
    ensures WriteLockedPending(Pack(w), LOCKED_VAL) == Pack(w.(pending := false, locked := true))
  {
    Layout(w);
  }

  /** *,*,0 -> *,*,1 and, for the unlock, *,*,1 -> *,*,0 */
  lemma SetLockedByte(w: Word, locked: bool)
    requires Fits(w)
    ensures WriteLocked(Pack(w), if locked then LOCKED_VAL else 0) == Pack(w.(locked := locked))
  {
    Layout(w);
  }

  /** The comment of set_locked gives *,*,0 -> *,0,1. Writing the locked byte leaves a pending bit where it is, so
      that holds exactly if the bit was clear. */
  lemma SetLockedComment(w: Word)
    requires Fits(w) && !w.locked
    ensures WriteLocked(Pack(w), LOCKED_VAL) == Pack(w.(pending := false, locked := true)) <==> !w.pending
  {
    SetLockedByte(w, true);
    if w.pending {
      Layout(w.(locked := true));
      Layout(w.(pending := false, locked := true));
    }
  }

  /** *,*,* -> *,1,* */
  lemma FetchSetPending(w: Word)
    requires Fits(w)
    ensures OrPending(Pack(w)) == Pack(w.(pending := true))
  {
    Layout(w);
  }

  /** xchg_tail: the halfword exchanged in is the code's upper half, and the value returned, shifted back, is
      the old tail's code. p,*,* -> n,*,* */
  lemma TailExchange(w: Word, thread: nat)
    requires Fits(w) && thread < MAX_THREADS
    ensures EncodeTail(thread) / TAIL_UNIT < 0x1_0000
    ensures WriteTail(Pack(w), EncodeTail(thread) / TAIL_UNIT) == Pack(w.(tail := Some(thread)))
    ensures Pack(w) / TAIL_UNIT * TAIL_UNIT == if w.tail.Some? then EncodeTail(w.tail.value) else 0
  {
    Layout(w);
  }
}
