/** The atomic operations of qspinlock/include/atomic: retry loops over load-exclusive and store-exclusive, and
    single LSE instructions. Both take effect at one instant, whatever other processors write meanwhile. */
module Atomics {

  datatype Op = Add | Sub | And | Or | Xor | AndNot

  /** What an operation stores in place of v; 32-bit arithmetic wraps. */
  function Apply(op: Op, v: bv32, i: bv32): bv32 {
    match op
    case Add => v + i
    case Sub => v - i
    case And => v & i
    case Or => v | i
    case Xor => v ^ i
    case AndNot => v & !i
  }

  predicate OneBit(m: bv32) {
    m != 0 && m & (m - 1) == 0
  }

  predicate Has(x: bv32, m: bv32) {
    x & m != 0
  }

  /** What the operations on bits make of each single bit. */
  lemma OpBits(v: bv32, i: bv32, m: bv32)
    requires OneBit(m)
    ensures Has(Apply(And, v, i), m) <==> Has(v, m) && Has(i, m)
    ensures Has(Apply(Or, v, i), m) <==> Has(v, m) || Has(i, m)
    ensures Has(Apply(Xor, v, i), m) <==> Has(v, m) != Has(i, m)
    ensures Has(Apply(AndNot, v, i), m) <==> Has(v, m) && !Has(i, m)
  {
    hide Has, OneBit, Apply;
    AndBits(v, i, m);
    OrBits(v, i, m);
    XorBits(v, i, m);
    AndNotBits(v, i, m);
  }

  /** A single bit is there or not. */
  lemma Single(x: bv32, m: bv32)
    requires OneBit(m)
    ensures x & m == 0 || x & m == m
  {
  }

  lemma AndBits(v: bv32, i: bv32, m: bv32)
    requires OneBit(m)
    ensures Has(Apply(And, v, i), m) <==> Has(v, m) && Has(i, m)
  {
    AndIs(v, i);
    AndMask(v, i, m);
    hide Apply, OneBit;
  }

  lemma AndIs(v: bv32, i: bv32)
    ensures Apply(And, v, i) == v & i
  {
  }

  lemma AndMask(v: bv32, i: bv32, m: bv32)
    requires OneBit(m)
    ensures Has(v & i, m) <==> Has(v, m) && Has(i, m)
  {
    Single(v, m);
    Single(i, m);
    hide OneBit;
    assert (v & i) & m == (v & m) & (i & m);
  }

  lemma OrBits(v: bv32, i: bv32, m: bv32)
    requires OneBit(m)
    ensures Has(Apply(Or, v, i), m) <==> Has(v, m) || Has(i, m)
  {
    OrIs(v, i);
    OrMask(v, i, m);
    hide Apply, OneBit;
  }

  lemma OrIs(v: bv32, i: bv32)
    ensures Apply(Or, v, i) == v | i
  {
  }

  lemma OrMask(v: bv32, i: bv32, m: bv32)
    requires OneBit(m)
    ensures Has(v | i, m) <==> Has(v, m) || Has(i, m)
  {
    assert (v | i) & m == (v & m) | (i & m);
  }

  lemma XorBits(v: bv32, i: bv32, m: bv32)
    requires OneBit(m)
    ensures Has(Apply(Xor, v, i), m) <==> Has(v, m) != Has(i, m)
  {
    XorIs(v, i);
    XorMask(v, i, m);
    hide Apply, OneBit;
  }

  lemma XorIs(v: bv32, i: bv32)
    ensures Apply(Xor, v, i) == v ^ i
  {
  }

  lemma XorMask(v: bv32, i: bv32, m: bv32)
    requires OneBit(m)
    ensures Has(v ^ i, m) <==> Has(v, m) != Has(i, m)
  {
    Single(v, m);
    Single(i, m);
    XorDistributes(v, i, m);
    XorZero(v & m, i & m);
  }

  lemma AndNotBits(v: bv32, i: bv32, m: bv32)
    requires OneBit(m)
    ensures Has(Apply(AndNot, v, i), m) <==> Has(v, m) && !Has(i, m)
  {
    AndNotIs(v, i);
    AndNotMask(v, i, m);
    hide Apply, OneBit;
  }

  lemma AndNotIs(v: bv32, i: bv32)
    ensures Apply(AndNot, v, i) == v & !i
  {
  }

  lemma AndNotMask(v: bv32, i: bv32, m: bv32)
    requires OneBit(m)
    ensures Has(v & !i, m) <==> Has(v, m) && !Has(i, m)
  {
    Single(v, m);
    Single(i, m);
    hide OneBit;
    assert (v & !i) & m == (v & m) & !(i & m);
  }

  lemma XorDistributes(v: bv32, i: bv32, m: bv32)
    ensures (v ^ i) & m == (v & m) ^ (i & m)
  {
  }

  /** Adding and subtracting, counted up by ones, with wrap-around. */
  lemma OpCounts(v: bv32, i: bv32)
    ensures Apply(Add, v, 0) == Apply(Sub, v, 0) == v
    ensures Apply(Add, v, i + 1) == Apply(Add, v, i) + 1
    ensures Apply(Sub, v, i + 1) == Apply(Sub, v, i) - 1
  {
    hide Apply;
    NoCount(v);
    AddNext(v, i);
    SubNext(v, i);
  }

  lemma NoCount(v: bv32)
    ensures Apply(Add, v, 0) == Apply(Sub, v, 0) == v
  {
  }

  lemma AddNext(v: bv32, i: bv32)
    ensures Apply(Add, v, i + 1) == Apply(Add, v, i) + 1
  {
    AddSuccessor(v, i);
  }

  lemma SubNext(v: bv32, i: bv32)
    ensures Apply(Sub, v, i + 1) == Apply(Sub, v, i) - 1
  {
    SubSuccessor(v, i);
  }

  lemma AddSuccessor(v: bv32, i: bv32)
    ensures v + (i + 1) == (v + i) + 1
  {
  }

  lemma SubSuccessor(v: bv32, i: bv32)
    ensures v - (i + 1) == (v - i) - 1
  {
  }

  /** One store to the cell: by this processor or by another, over which value, and which. */
  datatype Event = Event(ours: bool, old_: bv32, new_: bv32)

  /** The value of the cell after a history. */
  function Final(initial: bv32, log: seq<Event>): bv32 {
    if log == [] then initial else log[|log| - 1].new_
  }

  /** Every store replaces the value the one before it left: a history of one cell. */
  ghost predicate Chain(initial: bv32, log: seq<Event>) {
    forall k :: 0 <= k < |log| ==> log[k].old_ == Final(initial, log[..k])
  }

  lemma ChainGrows(initial: bv32, log: seq<Event>, e: Event)
    requires Chain(initial, log) && e.old_ == Final(initial, log)
    ensures Chain(initial, log + [e]) && Final(initial, log + [e]) == e.new_
  {
    var more := log + [e];
    assert more[..|log|] == log;
    forall k | 0 <= k < |more| ensures more[k].old_ == Final(initial, more[..k]) {
      assert k < |log| ==> more[..k] == log[..k];
    }
  }

  ghost predicate AllTheirs(log: seq<Event>) {
    forall e :: e in log ==> !e.ours
  }

  /** The history grew by others' stores and one of ours, which turned `old_` into `new_` at one instant. */
  ghost predicate OneStore(before: seq<Event>, after: seq<Event>, old_: bv32, new_: bv32) {
    && |before| < |after| && before <= after
    && AllTheirs(after[|before|..|after| - 1])
    && after[|after| - 1] == Event(true, old_, new_)
  }

  /** The history grew by others' stores only. */
  ghost predicate NoStore(before: seq<Event>, after: seq<Event>) {
    before <= after && AllTheirs(after[|before|..])
  }

  lemma NothingYet(a: seq<Event>)
    ensures NoStore(a, a)
  {
  }

  lemma NoStoreTwice(a: seq<Event>, b: seq<Event>, c: seq<Event>)
    requires NoStore(a, b) && NoStore(b, c)
    ensures NoStore(a, c)
  {
    forall e | e in c[|a|..] ensures !e.ours {
      var k :| |a| <= k < |c| && c[k] == e;
      if k < |b| {
        assert b[k] == e && e in b[|a|..];
      } else {
        assert e in c[|b|..];
      }
    }
  }

  lemma ThenStore(a: seq<Event>, b: seq<Event>, old_: bv32, new_: bv32)
    requires NoStore(a, b)
    ensures OneStore(a, b + [Event(true, old_, new_)], old_, new_)
  {
    var c := b + [Event(true, old_, new_)];
    assert c[|a|..|c| - 1] == b[|a|..];
  }

  /** What other processors do around one turn of a loop: before the load, between load and store, and whether
      the store-exclusive fails for no visible reason. */
  datatype Round = Round(before: seq<bv32>, between: seq<bv32>, spurious: bool)

  /** Nothing disturbs the turn. */
  predicate Quiet(r: Round) {
    r.between == [] && !r.spurious
  }

  /** A memory cell as one processor sees it, with the exclusive monitor of that processor. */
  class Cell {
    var value: bv32
    var exclusive: bool
    ghost var loaded: bv32
    ghost const initial: bv32
    ghost var log: seq<Event>

    ghost predicate Valid()
      reads this
    {
      && Chain(initial, log)
      && value == Final(initial, log)
      && (exclusive ==> value == loaded)
    }

    constructor (v: bv32)
      ensures Valid() && value == v && log == []
    {
      value, exclusive, loaded, initial, log := v, false, v, v, [];
    }

    /** ldxr */
    method LoadExclusive() returns (v: bv32)
      requires Valid()
      modifies this`exclusive, this`loaded
      ensures Valid() && v == value == loaded && exclusive
    {
      v, exclusive, loaded := value, true, value;
    }

    /** stxr: the status is non-zero if nothing was stored. */
    method StoreExclusive(v: bv32, spurious: bool) returns (status: bool)
      requires Valid()
      modifies this
      ensures Valid() && status == (spurious || !old(exclusive)) && !exclusive
      ensures if status then value == old(value) && log == old(log)
              else value == v && log == old(log) + [Event(true, old(loaded), v)]
    {
      status := spurious || !exclusive;
      if !status {
        Store(true, v);
      }
      exclusive := false;
    }

    /** Any store clears the monitor. */
    method Store(ours: bool, v: bv32)
      requires Valid()
      modifies this
      ensures Valid() && value == v && !exclusive && loaded == old(loaded)
      ensures log == old(log) + [Event(ours, old(value), v)]
    {
      hide Chain, Final;
      ChainGrows(initial, log, Event(ours, value, v));
      log := log + [Event(ours, value, v)];
      value := v;
      exclusive := false;
    }

    /** Other processors store the values ws, one after the other. */
    method Interfere(ws: seq<bv32>)
      requires Valid()
      modifies this
      ensures Valid() && loaded == old(loaded) && NoStore(old(log), log)
      ensures exclusive == (old(exclusive) && ws == [])
      ensures ws == [] ==> value == old(value) && log == old(log)
    {
      for k := 0 to |ws|
        invariant Valid() && loaded == old(loaded) && NoStore(old(log), log)
        invariant exclusive == (old(exclusive) && k == 0)
        invariant k == 0 ==> value == old(value) && log == old(log)
      {
        Store(false, ws[k]);
      }
    }

    // ---------- load-exclusive / store-exclusive loops ----------

    /** __ll_sc_atomic_fetch_<op>: over the turns of a schedule. It finishes in the first turn nothing disturbs,
        and then it has turned the value it returns into op of it, at one instant. */
    method LlScFetch(op: Op, i: bv32, rounds: seq<Round>) returns (done: bool, result: bv32)
      requires Valid()
      modifies this
      ensures Valid()
      ensures done <==> exists k :: 0 <= k < |rounds| && Quiet(rounds[k])
      ensures if done then OneStore(old(log), log, result, Apply(op, result, i)) else NoStore(old(log), log)
    {
      hide Chain, Apply, NoStore, OneStore;
      NothingYet(log);
      done, result := false, 0;
      for k := 0 to |rounds|
        invariant Valid() && !done && NoStore(old(log), log)
        invariant forall j :: 0 <= j < k ==> !Quiet(rounds[j])
      {
        label turn:
        Interfere(rounds[k].before);
        NoStoreTwice(old(log), old@turn(log), log);
        result := LoadExclusive();
        var val := Apply(op, result, i);
        label load:
        Interfere(rounds[k].between);
        NoStoreTwice(old(log), old@load(log), log);
        ThenStore(old(log), log, result, val);
        var status := StoreExclusive(val, rounds[k].spurious);
        if !status {
          assert Quiet(rounds[k]);
          done := true;
          return;
        }
      }
    }

    /** __ll_sc_atomic_<op>_return gives the new value. */
    method LlScReturn(op: Op, i: bv32, rounds: seq<Round>) returns (done: bool, result: bv32)
      requires Valid()
      modifies this
      ensures Valid()
      ensures done <==> exists k :: 0 <= k < |rounds| && Quiet(rounds[k])
      ensures done ==> exists v :: OneStore(old(log), log, v, Apply(op, v, i)) && result == Apply(op, v, i)
      ensures !done ==> NoStore(old(log), log)
    {
      var v;
      done, v := LlScFetch(op, i, rounds);
      result := Apply(op, v, i);
    }

    /** __xchg_case without LSE. */
    method LlScExchange(x: bv32, rounds: seq<Round>) returns (done: bool, ret: bv32)
      requires Valid()
      modifies this
      ensures Valid()
      ensures done <==> exists k :: 0 <= k < |rounds| && Quiet(rounds[k])
      ensures if done then OneStore(old(log), log, ret, x) else NoStore(old(log), log)
    {
      hide Chain, Apply, NoStore, OneStore;
      NothingYet(log);
      done, ret := false, 0;
      for k := 0 to |rounds|
        invariant Valid() && !done && NoStore(old(log), log)
        invariant forall j :: 0 <= j < k ==> !Quiet(rounds[j])
      {
        label turn:
        Interfere(rounds[k].before);
        NoStoreTwice(old(log), old@turn(log), log);
        ret := LoadExclusive();
        label load:
        Interfere(rounds[k].between);
        NoStoreTwice(old(log), old@load(log), log);
        ThenStore(old(log), log, ret, x);
        var status := StoreExclusive(x, rounds[k].spurious);
        if !status {
          assert Quiet(rounds[k]);
          done := true;
          return;
        }
      }
    }

    /** __ll_sc__cmpxchg_case: a mismatch ends the loop at the load, without a store; otherwise it has turned
        `expected` into `desired` at one instant. */
    method LlScCmpxchg(expected: bv32, desired: bv32, rounds: seq<Round>) returns (done: bool, oldval: bv32)
      requires Valid()
      modifies this
      ensures Valid()
      ensures (exists k :: 0 <= k < |rounds| && Quiet(rounds[k])) ==> done
      ensures done && oldval == expected ==> OneStore(old(log), log, expected, desired)
      ensures done && oldval != expected ==> NoStore(old(log), log) && value == oldval
      ensures !done ==> NoStore(old(log), log)
    {
      hide Chain, Apply, NoStore, OneStore;
      NothingYet(log);
      done, oldval := false, 0;
      for k := 0 to |rounds|
        invariant Valid() && !done && NoStore(old(log), log)
        invariant forall j :: 0 <= j < k ==> !Quiet(rounds[j])
      {
        label turn:
        Interfere(rounds[k].before);
        NoStoreTwice(old(log), old@turn(log), log);
        oldval := LoadExclusive();
        XorZero(oldval, expected);
        if oldval ^ expected != 0 {
          done := true;
          return;
        }
        label load:
        Interfere(rounds[k].between);
        NoStoreTwice(old(log), old@load(log), log);
        ThenStore(old(log), log, expected, desired);
        var status := StoreExclusive(desired, rounds[k].spurious);
        if !status {
          done := true;
          return;
        }
      }
    }

    /** atomic_try_cmpxchg over the loop: the observed value comes back in `seen`. */
    method TryCmpxchg(expected: bv32, desired: bv32, rounds: seq<Round>) returns (done: bool, ok: bool, seen: bv32)
      requires Valid()
      modifies this
      ensures Valid()
      ensures (exists k :: 0 <= k < |rounds| && Quiet(rounds[k])) ==> done
      ensures done && ok ==> seen == expected && OneStore(old(log), log, expected, desired)
      ensures done && !ok ==> seen != expected && NoStore(old(log), log) && value == seen
      ensures !done ==> NoStore(old(log), log)
    {
      var r;
      done, r := LlScCmpxchg(expected, desired, rounds);
      ok := r == expected;
      seen := r;
    }

    // ---------- LSE instructions ----------

    /** ldadd, ldset, ldeor, ldclr: one instruction for each operation that has one. */
    method Ld(op: Op, i: bv32) returns (old_: bv32)
      requires Valid() && op != Sub && op != And
      modifies this
      ensures Valid() && old_ == old(value) && log == old(log) + [Event(true, old_, Apply(op, old_, i))]
    {
      old_ := value;
      Store(true, Apply(op, value, i));
    }

    /** __lse_atomic_fetch_<op>: `and` clears the complement, `sub` adds the negation. */
    method LseFetch(op: Op, i: bv32) returns (result: bv32)
      requires Valid()
      modifies this
      ensures Valid() && OneStore(old(log), log, result, Apply(op, result, i))
    {
      match op {
        case And =>
          result := Ld(AndNot, !i);
          ClearComplement(result, i);
        case Sub =>
          result := Ld(Add, 0 - i);
          AddNegation(result, i);
        case _ =>
          result := Ld(op, i);
      }
    }

    /** __lse_atomic_add_return and __lse_atomic_sub_return add to the fetched value again. */
    method LseReturn(op: Op, i: bv32) returns (result: bv32)
      requires Valid() && (op == Add || op == Sub)
      modifies this
      ensures Valid()
      ensures exists v :: OneStore(old(log), log, v, Apply(op, v, i)) && result == Apply(op, v, i)
    {
      hide Chain, OneStore, Apply;
      var j := if op == Sub then Apply(Sub, 0, i) else i;
      var tmp := Ld(Add, j);
      result := Apply(Add, j, tmp);
      ReturnsSum(op, tmp, i);
      NothingYet(old(log));
      ThenStore(old(log), old(log), tmp, Apply(op, tmp, i));
    }

    /** swp */
    method LseExchange(x: bv32) returns (ret: bv32)
      requires Valid()
      modifies this
      ensures Valid() && OneStore(old(log), log, ret, x)
    {
      ret := value;
      Store(true, x);
    }

    /** cas */
    method LseCmpxchg(expected: bv32, desired: bv32) returns (oldval: bv32)
      requires Valid()
      modifies this
      ensures Valid()
      ensures oldval == expected ==> OneStore(old(log), log, expected, desired)
      ensures oldval != expected ==> NoStore(old(log), log) && value == oldval
    {
      oldval := value;
      if oldval == expected {
        Store(true, desired);
      }
    }

    /** atomic_try_cmpxchg over cas. */
    method LseTryCmpxchg(expected: bv32, desired: bv32) returns (ok: bool, seen: bv32)
      requires Valid()
      modifies this
      ensures Valid()
      ensures ok ==> seen == expected && OneStore(old(log), log, expected, desired)
      ensures !ok ==> seen != expected && NoStore(old(log), log) && value == seen
    {
      var r := LseCmpxchg(expected, desired);
      ok := r == expected;
      seen := r;
    }
  }

  lemma XorZero(a: bv32, b: bv32)
    ensures a ^ b == 0 <==> a == b
  {
  }

  lemma ClearComplement(v: bv32, i: bv32)
    ensures Apply(AndNot, v, !i) == Apply(And, v, i)
  {
  }

  lemma AddNegation(v: bv32, i: bv32)
    ensures Apply(Add, v, 0 - i) == Apply(Sub, v, i) && (0 - i) + v == v - i
  {
  }

  /** Adding the fetched value again gives the value stored. */
  lemma ReturnsSum(op: Op, v: bv32, i: bv32)
    requires op == Add || op == Sub
    ensures var j := if op == Sub then Apply(Sub, 0, i) else i;
            Apply(Add, v, j) == Apply(op, v, i) == Apply(Add, j, v)
  {
    AddNegation(v, i);
  }

  // ---------- histories of whole operations ----------

  /** A finished fetch-operation: what it returned. */
  datatype Call = Call(op: Op, arg: bv32, result: bv32)

  /** The operations of several processors, each taking effect at one instant, in that order. */
  ghost predicate Performed(calls: seq<Call>, log: seq<Event>) {
    && |calls| == |log|
    && forall k :: 0 <= k < |log| ==>
         log[k].old_ == calls[k].result && log[k].new_ == Apply(calls[k].op, calls[k].result, calls[k].arg)
  }

  /** The operations one after the other, with nothing between. */
  function Sequential(initial: bv32, calls: seq<Call>): bv32 {
    if calls == [] then initial
    else Apply(calls[|calls| - 1].op, Sequential(initial, calls[..|calls| - 1]), calls[|calls| - 1].arg)
  }

  /** No update is lost: a cell on which only such operations act holds what they give in sequence, and each
      returned the value the ones before it left. */
  lemma {:induction false} NoLostUpdate(initial: bv32, calls: seq<Call>, log: seq<Event>)
    requires Chain(initial, log) && Performed(calls, log)
    ensures Final(initial, log) == Sequential(initial, calls)
    ensures forall k :: 0 <= k < |calls| ==> calls[k].result == Sequential(initial, calls[..k])
    decreases |log|
  {
    hide Apply, Chain, Performed, Sequential, Final;
    if log == [] {
      EmptyHistory(initial, calls);
    } else {
      var n := |log| - 1;
      EarlierHistory(initial, calls, log);
      NoLostUpdate(initial, calls[..n], log[..n]);
      forall k | 0 <= k < |calls| ensures calls[k].result == Sequential(initial, calls[..k]) {
        if k < n {
          assert calls[..n][..k] == calls[..k] && calls[..n][k] == calls[k];
        }
      }
    }
  }

  lemma EmptyHistory(initial: bv32, calls: seq<Call>)
    requires Performed(calls, [])
    ensures calls == [] && Final(initial, []) == Sequential(initial, calls) == initial
  {
  }

  lemma EarlierHistory(initial: bv32, calls: seq<Call>, log: seq<Event>)
    requires Chain(initial, log) && Performed(calls, log) && log != []
    ensures var n := |log| - 1;
            && |calls| == n + 1 && Chain(initial, log[..n]) && Performed(calls[..n], log[..n])
            && calls[n].result == Final(initial, log[..n])
            && Sequential(initial, calls) == Apply(calls[n].op, Sequential(initial, calls[..n]), calls[n].arg)
            && Final(initial, log) == Apply(calls[n].op, calls[n].result, calls[n].arg)
  {
    hide Apply;
    var n := |log| - 1;
    forall k | 0 <= k < n ensures log[..n][k].old_ == Final(initial, log[..n][..k]) {
      assert log[..n][..k] == log[..k];
    }
  }

  // ---------- several processors ----------

  /** A store and the processor that makes it. */
  datatype Store = Store(proc: nat, old_: bv32, new_: bv32)

  /** The history of the cell as one processor sees it. */
  function View(p: nat, log: seq<Store>): (v: seq<Event>)
    ensures |v| == |log|
  {
    seq(|log|, k requires 0 <= k < |log| => Event(log[k].proc == p, log[k].old_, log[k].new_))
  }

  /** A finished operation of a processor: how long the history was when it began and when it ended. */
  datatype Operation = Operation(proc: nat, call: Call, begin: nat, end: nat)

  /** What each of the loops and instructions above ensures when it finishes. */
  ghost predicate Done(log: seq<Store>, o: Operation) {
    && o.begin <= o.end <= |log|
    && OneStore(View(o.proc, log[..o.begin]), View(o.proc, log[..o.end]), o.call.result,
                Apply(o.call.op, o.call.result, o.call.arg))
  }

  /** A processor makes one operation at a time. */
  ghost predicate OneAtATime(ops: seq<Operation>) {
    forall i, j :: 0 <= i < |ops| && 0 <= j < |ops| && i != j && ops[i].proc == ops[j].proc ==>
      ops[i].end <= ops[j].begin || ops[j].end <= ops[i].begin
  }

  /** Every store is made by its processor during an operation. */
  ghost predicate Covered(log: seq<Store>, ops: seq<Operation>) {
    forall k :: 0 <= k < |log| ==> CoveredAt(log, ops, k)
  }

  ghost predicate CoveredAt(log: seq<Store>, ops: seq<Operation>, k: nat)
    requires k < |log|
  {
    exists i :: 0 <= i < |ops| && During(log, ops[i], k)
  }

  ghost predicate During(log: seq<Store>, o: Operation, k: nat)
    requires k < |log|
  {
    o.proc == log[k].proc && o.begin <= k < o.end
  }

  /** An operation makes its store at its end, and no other. */
  lemma StoreAtEnd(log: seq<Store>, o: Operation)
    requires Done(log, o)
    ensures o.begin < o.end
    ensures log[o.end - 1] == Store(o.proc, o.call.result, Apply(o.call.op, o.call.result, o.call.arg))
    ensures forall k :: o.begin <= k < o.end - 1 ==> !During(log, o, k)
  {
    hide Apply;
    var before, after := View(o.proc, log[..o.begin]), View(o.proc, log[..o.end]);
    assert after[o.end - 1].ours;
    forall k | o.begin <= k < o.end - 1 ensures log[k].proc != o.proc {
      assert after[|before|..|after| - 1][k - o.begin] == after[k];
      assert after[k] in after[|before|..|after| - 1];
    }
  }

  /** The operations of any number of processors on one cell, however they overlap, act as if made one after the other,
      in the order of their stores: each returns what the ones before it leave. */
  lemma Linearize(initial: bv32, log: seq<Store>, ops: seq<Operation>, p: nat) returns (calls: seq<Call>)
    requires Chain(initial, View(p, log)) && OneAtATime(ops) && Covered(log, ops)
    requires forall i :: 0 <= i < |ops| ==> Done(log, ops[i])
    ensures Performed(calls, View(p, log)) && Final(initial, View(p, log)) == Sequential(initial, calls)
    ensures forall i :: 0 <= i < |ops| ==>
              && 0 < ops[i].end <= |calls| && calls[ops[i].end - 1] == ops[i].call
              && ops[i].call.result == Sequential(initial, calls[..ops[i].end - 1])
  {
    hide Chain, Apply, Sequential, Final, OneStore, Done, Performed, OneAtATime, Covered;
    calls := InOrder(log, ops);
    OrderPerforms(log, ops, calls, p);
    NoLostUpdate(initial, calls, View(p, log));
    forall i | 0 <= i < |ops| ensures 0 < ops[i].end <= |calls| && calls[ops[i].end - 1] == ops[i].call {
      AtItsEnd(log, ops, calls, i);
    }
  }

  ghost predicate EndsAt(log: seq<Store>, ops: seq<Operation>, c: Call, k: nat) {
    exists i :: 0 <= i < |ops| && ops[i].call == c && ops[i].end == k + 1
  }

  /** The operation behind each store. */
  lemma InOrder(log: seq<Store>, ops: seq<Operation>) returns (calls: seq<Call>)
    requires Covered(log, ops) && forall i :: 0 <= i < |ops| ==> Done(log, ops[i])
    ensures |calls| == |log| && forall k :: 0 <= k < |log| ==> EndsAt(log, ops, calls[k], k)
  {
    hide Apply, OneStore, Done;
    calls := [];
    while |calls| < |log|
      invariant |calls| <= |log|
      invariant forall k :: 0 <= k < |calls| ==> EndsAt(log, ops, calls[k], k)
    {
      var k := |calls|;
      assert CoveredAt(log, ops, k);
      var i :| 0 <= i < |ops| && During(log, ops[i], k);
      StoreAtEnd(log, ops[i]);
      assert EndsAt(log, ops, ops[i].call, k);
      calls := calls + [ops[i].call];
    }
  }

  lemma OrderPerforms(log: seq<Store>, ops: seq<Operation>, calls: seq<Call>, p: nat)
    requires forall i :: 0 <= i < |ops| ==> Done(log, ops[i])
    requires |calls| == |log| && forall k :: 0 <= k < |log| ==> EndsAt(log, ops, calls[k], k)
    ensures Performed(calls, View(p, log))
  {
    hide Apply, OneStore, Done;
    forall k | 0 <= k < |log|
      ensures log[k].old_ == calls[k].result && log[k].new_ == Apply(calls[k].op, calls[k].result, calls[k].arg)
    {
      assert EndsAt(log, ops, calls[k], k);
      var i :| 0 <= i < |ops| && ops[i].call == calls[k] && ops[i].end == k + 1;
      StoreAtEnd(log, ops[i]);
    }
  }

  lemma AtItsEnd(log: seq<Store>, ops: seq<Operation>, calls: seq<Call>, i: nat)
    requires OneAtATime(ops) && forall j :: 0 <= j < |ops| ==> Done(log, ops[j])
    requires |calls| == |log| && forall k :: 0 <= k < |log| ==> EndsAt(log, ops, calls[k], k)
    requires i < |ops|
    ensures 0 < ops[i].end <= |calls| && calls[ops[i].end - 1] == ops[i].call
  {
    hide Apply, OneStore, Done;
    StoreAtEnd(log, ops[i]);
    DoneBounds(log, ops[i]);
    assert EndsAt(log, ops, calls[ops[i].end - 1], ops[i].end - 1);
    var j :| 0 <= j < |ops| && ops[j].call == calls[ops[i].end - 1] && ops[j].end == ops[i].end;
    StoreAtEnd(log, ops[j]);
  }

  lemma DoneBounds(log: seq<Store>, o: Operation)
    requires Done(log, o)
    ensures o.begin <= o.end <= |log|
  {
  }
}
