/** The three algorithms: the generated table of cpp/pext.cc and its lookup loop, the lookup loop of go/bmi/bmi.go, and
    the register loop of go/bmi/bmi_arm64.s. The chunk width is a parameter: cpp/pext.cc takes 6 and go/bmi/bmi.go 5. */
module BitExtractAlgorithms {
  import opened BitExtract

  const WORD := 64
  const ALL: bv64 := 0xFFFF_FFFF_FFFF_FFFF

  /** 1 << w for the widths a table of bytes can serve */
  function Size(w: nat): nat
    requires 1 <= w <= 8
  {
    if w == 1 then 2 else if w == 2 then 4 else if w == 3 then 8 else if w == 4 then 16
    else if w == 5 then 32 else if w == 6 then 64 else if w == 7 then 128 else 256
  }

  /** The table entry for a chunk of the mask and one of the data. */
  ghost predicate Holds(entry: bv8, m: nat, d: nat)
    requires m < 256 && d < 256
  {
    entry as bv64 == Pext(m as bv64, d as bv64)
  }

  ghost predicate IsTable(table: array2<bv8>, w: nat)
    requires 1 <= w <= 8
    reads table
  {
    && table.Length0 == Size(w) && table.Length1 == Size(w)
    && forall m, d :: 0 <= m < Size(w) && 0 <= d < Size(w) ==> Holds(table[m, d], m, d)
  }

  // ---------- gen_pext_lookup_table ----------

  method GenPextLookupTable(table: array2<bv8>, w: nat)
    requires 1 <= w <= 8 && table.Length0 == Size(w) && table.Length1 == Size(w)
    modifies table
    ensures IsTable(table, w)
  {
    hide Holds;
    for mask := 0 to Size(w)
      invariant forall m, d :: 0 <= m < mask && 0 <= d < Size(w) ==> Holds(table[m, d], m, d)
    {
      for data := 0 to Size(w)
        invariant forall m, d :: 0 <= m < mask && 0 <= d < Size(w) ==> Holds(table[m, d], m, d)
        invariant forall d :: 0 <= d < data ==> Holds(table[mask, d], mask, d)
      {
        var bitValue := PackChunk(mask, data, w);
        table[mask, data] := bitValue;
      }
    }
  }

  method PackChunk(mask: nat, data: nat, w: nat) returns (r: bv8)
    requires 1 <= w <= 8 && mask < Size(w) && data < Size(w)
    ensures Holds(r, mask, data)
  {
    SmallIndex(mask, w);
    var bitValue := PackBits(mask as bv64, data as bv64, w);
    hide Holds, Pext, Shr;
    EntryHolds(mask, data, w, bitValue);
    r := bitValue as bv8;
  }

  /** the innermost loop: the bits of one chunk, one after the other */
  method PackBits(mask: bv64, data: bv64, w: nat) returns (bitValue: bv64)
    requires w <= 8 && Shr(mask, w) == 0
    ensures bitValue == Pext(mask, data)
  {
    hide Pext, Shr, Shl, Or, And, Bottom;
    bitValue := 0;
    var bitLen: nat := 0;
    LoopStart(mask, data);
    for i := 0 to w
      invariant bitLen <= i
      invariant Pext(mask, data) == Or(bitValue, Shl(Pext(Shr(mask, i), Shr(data, i)), bitLen))
    {
      PackStep(mask, data, i, bitValue, bitLen);
      if And(mask, Shl(1, i)) != 0 {
        bitValue := Or(bitValue, Shl(Bottom(Shr(data, i)), bitLen));
        bitLen := bitLen + 1;
      }
    }
    LoopEnd(bitValue, bitLen, Shr(data, w));
  }

  lemma SmallIndex(m: nat, w: nat)
    requires 1 <= w <= 8 && m < Size(w)
    ensures Shr(m as bv64, w) == 0
  {
    hide Shr;
    ShrSmall(m as bv64);
    if
    case w == 1 => Fits1(m);
    case w == 2 => Fits2(m);
    case w == 3 => Fits3(m);
    case w == 4 => Fits4(m);
    case w == 5 => Fits5(m);
    case w == 6 => Fits6(m);
    case w == 7 => Fits7(m);
    case w == 8 => Fits8(m);
  }

  lemma Fits1(m: nat)
    requires m < 2
    ensures (m as bv64) >> 1 == 0
  {
  }

  lemma Fits2(m: nat)
    requires m < 4
    ensures (m as bv64) >> 2 == 0
  {
  }

  lemma Fits3(m: nat)
    requires m < 8
    ensures (m as bv64) >> 3 == 0
  {
  }

  lemma Fits4(m: nat)
    requires m < 16
    ensures (m as bv64) >> 4 == 0
  {
  }

  lemma Fits5(m: nat)
    requires m < 32
    ensures (m as bv64) >> 5 == 0
  {
  }

  lemma Fits6(m: nat)
    requires m < 64
    ensures (m as bv64) >> 6 == 0
  {
  }

  lemma Fits7(m: nat)
    requires m < 128
    ensures (m as bv64) >> 7 == 0
  {
  }

  lemma Fits8(m: nat)
    requires m < 256
    ensures (m as bv64) >> 8 == 0
  {
  }

  lemma LoopStart(mask: bv64, data: bv64)
    ensures Pext(mask, data) == Or(0, Shl(Pext(mask, data), 0)) && Shr(mask, 0) == mask && Shr(data, 0) == data
  {
    OrZero(Pext(mask, data));
  }

  lemma LoopEnd(out: bv64, outLen: nat, data: bv64)
    ensures Or(out, Shl(Pext(0, data), outLen)) == out
  {
    ShiftsOfZero(outLen);
    OrZero(out);
  }

  lemma PackStep(mask: bv64, data: bv64, i: nat, bitValue: bv64, bitLen: nat)
    requires i < 8
    ensures And(mask, Shl(1, i)) == 0 ==> Pext(Shr(mask, i), Shr(data, i)) == Pext(Shr(mask, i + 1), Shr(data, i + 1))
    ensures
      var rest := Pext(Shr(mask, i + 1), Shr(data, i + 1));
      And(mask, Shl(1, i)) != 0 ==>
        Or(bitValue, Shl(Pext(Shr(mask, i), Shr(data, i)), bitLen)) ==
        Or(Or(bitValue, Shl(Bottom(Shr(data, i)), bitLen)), Shl(rest, bitLen + 1))
  {
    hide Pext, Shr, Shl, Or, And, Bottom;
    var m, d := Shr(mask, i), Shr(data, i);
    BitTest(mask, i);
    ExtractHalf(m, d);
    ShrNext(mask, i);
    ShrNext(data, i);
    var rest := Pext(Half(m), Half(d));
    ShlOr(Double(rest), Bottom(d), bitLen);
    ShlDouble(rest, bitLen);
    OrComm(Shl(rest, bitLen + 1), Shl(Bottom(d), bitLen));
    OrAssoc(bitValue, Shl(Bottom(d), bitLen), Shl(rest, bitLen + 1));
  }

  lemma ShlDouble(x: bv64, n: nat)
    ensures Shl(Double(x), n) == Shl(x, n + 1)
  {
    hide Double;
    ShlShl(x, 1, n);
    assert Shl(x, 1) == Double(Shl(x, 0));
  }

  lemma BitTest(x: bv64, i: nat)
    requires i < 8
    ensures And(x, Shl(1, i)) == 0 <==> Bottom(Shr(x, i)) == 0
  {
    hide Shl, Shr, And;
    AndIs(x, Shl(1, i));
    ShlOne();
    ShrSmall(x);
    if
    case i == 0 =>
    case i == 1 =>
    case i == 2 =>
    case i == 3 =>
    case i == 4 =>
    case i == 5 =>
    case i == 6 =>
    case i == 7 =>
  }

  lemma ShlOne()
    ensures Shl(1, 0) == 1 && Shl(1, 1) == 2 && Shl(1, 2) == 4 && Shl(1, 3) == 8
    ensures Shl(1, 4) == 16 && Shl(1, 5) == 32 && Shl(1, 6) == 64 && Shl(1, 7) == 128
  {
  }

  lemma EntryHolds(m: nat, d: nat, w: nat, v: bv64)
    requires 1 <= w <= 8 && m < Size(w) && d < Size(w) && v == Pext(m as bv64, d as bv64)
    ensures v < 256 && Holds(v as bv8, m, d)
  {
    hide Shr, Pext;
    SmallIndex(m, w);
    ExtractFits(m as bv64, d as bv64, w);
    Narrow(v, w);
  }

  lemma Narrow(v: bv64, w: nat)
    requires 1 <= w <= 8 && Shr(v, w) == 0
    ensures v < 256 && (v as bv8) as bv64 == v
  {
    hide Shr;
    ShrSmall(v);
  }

  // ---------- the lookup loops ----------

  predicate IsIndex(m: bv64, w: nat)
    requires 1 <= w <= 8
  {
    m as nat < Size(w)
  }

  /** One table access. */
  method Lookup(table: array2<bv8>, w: nat, m: bv64, d: bv64) returns (value: bv64)
    requires 1 <= w <= 8 && IsTable(table, w) && IsIndex(m, w) && IsIndex(d, w)
    ensures value == Pext(m, d)
  {
    hide Pext, Holds;
    var i, j := m as nat, d as nat;
    var entry := table[i, j];
    HoldsWord(entry, m, d);
    value := entry as bv64;
  }

  lemma HoldsWord(entry: bv8, m: bv64, d: bv64)
    requires m as nat < 256 && d as nat < 256 && Holds(entry, m as nat, d as nat)
    ensures entry as bv64 == Pext(m, d)
  {
  }

  lemma SmallWord(x: bv64, w: nat)
    requires 1 <= w <= 8
    ensures IsIndex(And(x, Low(w)), w)
  {
    hide And, Low, Shr;
    ChunkFits(x, w);
    var m := And(x, Low(w));
    ShrSmall(m);
    SmallValue(m, w);
  }

  lemma {:induction false} ChunkFits(x: bv64, w: nat)
    ensures Shr(And(x, Low(w)), w) == 0
    decreases w
  {
    hide And, Push, Half;
    AndZero(x);
    if w > 0 {
      AndPush(x, Low(w - 1));
      ChunkFits(Half(x), w - 1);
    }
  }

  lemma SmallValue(m: bv64, w: nat)
    requires 1 <= w <= 8 && Shr(m, w) == 0
    ensures IsIndex(m, w)
  {
    hide Shr;
    ShrSmall(m);
    if
    case w == 1 => assert m < 2;
    case w == 2 => assert m < 4;
    case w == 3 => assert m < 8;
    case w == 4 => assert m < 16;
    case w == 5 => assert m < 32;
    case w == 6 => assert m < 64;
    case w == 7 => assert m < 128;
    case w == 8 => assert m < 256;
  }

  /** pext_u64_simu: the rounds reach every bit of the word, and while work remains the shift count is below the
      width of the word. */
  method PextU64Simu(table: array2<bv8>, w: nat, mask0: bv64, data0: bv64) returns (out: bv64)
    requires 1 <= w <= 8 && IsTable(table, w)
    ensures out == Pext(mask0, data0)
  {
    hide Pext, Shr, Shl, Or, And, Low, Ones, IsTable, IsIndex;
    var mask, data := mask0, data0;
    var outLen: nat := 0;
    out := 0;
    LoopStart(mask, data);
    var rounds := (WORD + w - 1) / w;
    assert WORD <= rounds * w <= WORD + w - 1;
    for i := 0 to rounds
      invariant outLen <= i * w
      invariant mask == Shr(mask0, i * w)
      invariant Pext(mask0, data0) == Or(out, Shl(Pext(mask, data), outLen))
    {
      assert (i + 1) * w == i * w + w;
      SmallWord(mask, w);
      SmallWord(data, w);
      var maskLen := Ones(And(mask, Low(w)));
      var value := Lookup(table, w, And(mask, Low(w)), And(data, Low(w)));
      Chunk(mask, data, w);
      ChunkStep(mask, data, w, out, outLen);
      ShrShr(mask0, i * w, w);
      ShiftInRange(i, w, rounds);
      assert outLen < WORD;
      out := Or(out, Shl(value, outLen));
      outLen := outLen + maskLen;
      mask := Shr(mask, w);
      data := Shr(data, w);
      if mask == 0 {
        break;
      }
    }
    if mask != 0 {
      ShrFits(mask0, rounds * w);
    }
    LoopEnd(out, outLen, data);
  }

  lemma ShiftInRange(i: nat, w: nat, rounds: nat)
    requires w > 0 && i < rounds && rounds * w <= WORD + w - 1
    ensures i * w < WORD
  {
    assert i * w + w == (i + 1) * w;
    assert (i + 1) * w <= rounds * w;
  }

  /** ExtractBitsGo: two masks answered at once, and the loop until the mask is used up. */
  method ExtractBitsGo(table: array2<bv8>, w: nat, bitmap0: bv64, selectBitmap0: bv64) returns (r: bv64)
    requires 1 <= w <= 8 && IsTable(table, w)
    ensures r == Pext(selectBitmap0, bitmap0)
  {
    if selectBitmap0 == ALL {
      ExtractAll(bitmap0);
      return bitmap0;
    } else if selectBitmap0 == 0 {
      return 0;
    }
    r := ExtractByTable(table, w, bitmap0, selectBitmap0);
  }

  /** its loop */
  method ExtractByTable(table: array2<bv8>, w: nat, bitmap0: bv64, selectBitmap0: bv64) returns (bitValue: bv64)
    requires 1 <= w <= 8 && IsTable(table, w)
    ensures bitValue == Pext(selectBitmap0, bitmap0)
  {
    hide Pext, Shr, Shl, Or, And, Low, Ones, IsTable, IsIndex;
    var bitmap, selectBitmap := bitmap0, selectBitmap0;
    bitValue := 0;
    var bitLen: nat := 0;
    LoopStart(selectBitmap, bitmap);
    ghost var i: nat := 0;
    while selectBitmap != 0
      invariant bitLen <= i
      invariant selectBitmap == Shr(selectBitmap0, i)
      invariant Pext(selectBitmap0, bitmap0) == Or(bitValue, Shl(Pext(selectBitmap, bitmap), bitLen))
      decreases WORD - i
    {
      SmallWord(selectBitmap, w);
      SmallWord(bitmap, w);
      var maskLen := Ones(And(selectBitmap, Low(w)));
      var value := Lookup(table, w, And(selectBitmap, Low(w)), And(bitmap, Low(w)));
      Chunk(selectBitmap, bitmap, w);
      ChunkStep(selectBitmap, bitmap, w, bitValue, bitLen);
      ShrShr(selectBitmap0, i, w);
      if i >= WORD {
        ShrFits(selectBitmap0, i);
      }
      assert bitLen < WORD;
      bitValue := Or(bitValue, Shl(value, bitLen));
      bitLen := bitLen + maskLen;
      bitmap := Shr(bitmap, w);
      selectBitmap := Shr(selectBitmap, w);
      i := i + w;
    }
    LoopEnd(bitValue, bitLen, bitmap);
  }

  /** Everything selected: nothing moves. */
  lemma ExtractAll(data: bv64)
    ensures Pext(ALL, data) == data
  {
    hide Pext, Shr;
    ShrFits(ALL, 64);
    ExtractOnes(ALL, data, 64);
    AndIs(data, ALL);
  }

  predicate AllOnes(m: bv64) {
    m & (m + 1) == 0
  }

  lemma {:induction false} ExtractOnes(m: bv64, data: bv64, n: nat)
    requires AllOnes(m) && Shr(m, n) == 0
    ensures Pext(m, data) == And(data, m)
    decreases n
  {
    hide Pext, Half, Bottom, Push, And, AllOnes;
    AndZero(data);
    ExtractHalf(m, data);
    if m != 0 {
      RunOfOnes(m);
      RestOfOnes(m);
      ExtractOnes(Half(m), Half(data), n - 1);
      PushOnes(m, data);
    }
  }

  lemma RunOfOnes(m: bv64)
    requires AllOnes(m) && m != 0
    ensures Bottom(m) == 1
  {
  }

  lemma RestOfOnes(m: bv64)
    requires AllOnes(m)
    ensures AllOnes(Half(m))
  {
  }

  lemma PushOnes(m: bv64, data: bv64)
    requires Bottom(m) == 1
    ensures Push(And(Half(data), Half(m)), Bottom(data)) == And(data, m)
  {
  }

  // ---------- _extract_bits_neon ----------

  /** subs, ands: the mask without its lowest bit */
  function Clear(m: bv64): bv64 {
    (m - 1) & m
  }

  /** neg, tst: the data has a bit where the mask has its lowest one */
  predicate Hit(m: bv64, d: bv64) {
    And(And(m, d), Negate(m)) != 0
  }

  function Negate(m: bv64): bv64 {
    0 - m
  }

  method ExtractBitsNeon(bitmap: bv64, selectBitmap: bv64) returns (res: bv64)
    ensures res == Pext(selectBitmap, bitmap)
  {
    hide Pext, Shl, Or, Clear, Hit, Ones, Double;
    var mask, place: bv64 := selectBitmap, 1;
    res := 0;
    LoopStart(mask, bitmap);
    ShlZero();
    OnesFits(mask);
    ghost var k: nat := 0;
    while mask != 0
      invariant place == Shl(1, k) && k + Ones(mask) == Ones(selectBitmap)
      invariant Pext(selectBitmap, bitmap) == Or(res, Shl(Pext(mask, bitmap), k))
      decreases Ones(mask)
    {
      NeonStep(mask, bitmap, res, k);
      assert k < WORD;
      var bit := if Hit(mask, bitmap) then place else 0;
      mask := Clear(mask);
      res := Or(bit, res);
      place := Double(place);
      k := k + 1;
    }
    LoopEnd(res, k, bitmap);
  }

  lemma ShlZero()
    ensures Shl(1, 0) == 1
  {
  }

  lemma OnesFits(x: bv64)
    ensures Ones(x) <= WORD
  {
    hide Shr, Ones;
    ShrFits(x, WORD);
    OnesBound(x, WORD);
  }

  lemma {:induction false} OnesBound(x: bv64, n: nat)
    requires Shr(x, n) == 0
    ensures Ones(x) <= n
    decreases n
  {
    hide Half, Bottom;
    OnesHalf(x);
    if n > 0 {
      OnesBound(Half(x), n - 1);
    }
  }

  lemma NeonStep(mask: bv64, data: bv64, res: bv64, k: nat)
    requires mask != 0
    ensures Ones(mask) == Ones(Clear(mask)) + 1
    ensures Shl(1, k + 1) == Double(Shl(1, k))
    ensures Or(res, Shl(Pext(mask, data), k)) ==
            Or(Or(if Hit(mask, data) then Shl(1, k) else 0, res), Shl(Pext(Clear(mask), data), k + 1))
  {
    ShrFits(mask, WORD);
    hide Pext, Or, Clear, Hit, Ones, Double, Shr;
    LowestBit(mask, data, WORD);
    var rest, b: bv64 := Pext(Clear(mask), data), if Hit(mask, data) then 1 else 0;
    ShlOr(Double(rest), b, k);
    ShlDouble(rest, k);
    ShiftsOfZero(k);
    OrComm(Shl(rest, k + 1), Shl(b, k));
    OrAssoc(res, Shl(b, k), Shl(rest, k + 1));
    OrComm(res, Shl(b, k));
  }

  /** The lowest bit of the mask selects the lowest bit of the result. */
  lemma {:induction false} LowestBit(m: bv64, d: bv64, n: nat)
    requires m != 0 && Shr(m, n) == 0
    ensures Pext(m, d) == Push(Pext(Clear(m), d), if Hit(m, d) then 1 else 0)
    ensures Ones(m) == Ones(Clear(m)) + 1
    decreases n
  {
    hide Half, Bottom, Push, Pext, Clear, Hit, Ones;
    ExtractHalf(m, d);
    ExtractHalf(Clear(m), d);
    OnesHalf(m);
    OnesHalf(Clear(m));
    ClearBottom(m);
    if Bottom(m) == 0 {
      HalfNonZero(m);
      ClearEven(m);
      HitEven(m, d);
      LowestBit(Half(m), Half(d), n - 1);
    } else {
      ClearOdd(m);
      HitOdd(m, d);
    }
  }

  lemma ClearBottom(m: bv64)
    ensures Bottom(Clear(m)) == 0
  {
  }

  lemma HalfNonZero(m: bv64)
    requires m != 0 && Bottom(m) == 0
    ensures Half(m) != 0
  {
  }

  lemma ClearEven(m: bv64)
    requires Bottom(m) == 0
    ensures Half(Clear(m)) == Clear(Half(m))
  {
  }

  lemma ClearOdd(m: bv64)
    requires Bottom(m) != 0
    ensures Half(Clear(m)) == Half(m)
  {
  }

  lemma HitEven(m: bv64, d: bv64)
    requires Bottom(m) == 0
    ensures Hit(m, d) == Hit(Half(m), Half(d))
  {
    hide Half, Bottom, And, Double, Negate;
    NegateEven(m);
    HitHalf(m, d, Negate(Half(m)));
    HitBottom(m, d, Negate(m));
    ZeroHalf(And(And(m, d), Negate(m)));
  }

  lemma NegateEven(m: bv64)
    requires Bottom(m) == 0
    ensures Negate(m) == Double(Negate(Half(m)))
  {
  }

  lemma HitHalf(m: bv64, d: bv64, n: bv64)
    ensures Half(And(And(m, d), Double(n))) == And(And(Half(m), Half(d)), n)
  {
  }

  lemma HitBottom(m: bv64, d: bv64, n: bv64)
    requires Bottom(m) == 0
    ensures Bottom(And(And(m, d), n)) == 0
  {
  }

  lemma ZeroHalf(x: bv64)
    requires Bottom(x) == 0
    ensures x == 0 <==> Half(x) == 0
  {
  }

  lemma HitOdd(m: bv64, d: bv64)
    requires Bottom(m) != 0
    ensures Bottom(d) == if Hit(m, d) then 1 else 0
  {
  }
}
