/** Bit extraction: the data bits under a mask, packed to the low end. Three algorithms against one definition: the
    table-driven chunks of cpp/pext.cc and go/bmi/bmi.go, and the lowest-set-bit loop of go/bmi/bmi_arm64.s. */
module BitExtract {
  // ---------- words, a bit at a time ----------

  function Half(x: bv64): (h: bv64)
    ensures x != 0 ==> h < x
  {
    x >> 1
  }

  /** The lowest bit. */
  function Bottom(x: bv64): bv64 {
    x & 1
  }

  function Double(x: bv64): bv64 {
    x << 1
  }

  function Or(x: bv64, y: bv64): bv64 {
    x | y
  }

  function And(x: bv64, y: bv64): bv64 {
    x & y
  }

  function Push(x: bv64, b: bv64): bv64 {
    Or(Double(x), b)
  }

  /** x << n */
  function Shl(x: bv64, n: nat): bv64 {
    if n == 0 then x else Double(Shl(x, n - 1))
  }

  /** x >> n */
  function Shr(x: bv64, n: nat): bv64 {
    if n == 0 then x else Shr(Half(x), n - 1)
  }

  /** (1 << w) - 1 */
  function Low(w: nat): bv64 {
    if w == 0 then 0 else Push(Low(w - 1), 1)
  }

  function Bit(x: bv64, i: nat): bv64 {
    Bottom(Shr(x, i))
  }

  /** The population count. */
  function Ones(x: bv64): nat
    decreases x
  {
    if x == 0 then 0 else Ones(Half(x)) + if Bottom(x) == 0 then 0 else 1
  }

  /** The definition, bit by bit from the low end. */
  function Pext(mask: bv64, data: bv64): bv64
    decreases mask
  {
    if mask == 0 then 0
    else if Bottom(mask) == 0 then Pext(Half(mask), Half(data))
    else Push(Pext(Half(mask), Half(data)), Bottom(data))
  }

  lemma OrDouble(x: bv64, y: bv64)
    ensures Double(Or(x, y)) == Or(Double(x), Double(y))
  {
  }

  lemma OrSwap(x: bv64, y: bv64, z: bv64)
    ensures Or(Or(x, y), z) == Or(Or(x, z), y)
  {
    hide Or;
    var xy, xz := Or(x, y), Or(x, z);
    OrIs(x, y);
    OrIs(x, z);
    OrIs(xy, z);
    OrIs(xz, y);
    OrWords(x, y, z, xy, xz, Or(xy, z), Or(xz, y));
  }

  lemma OrIs(x: bv64, y: bv64)
    ensures Or(x, y) == x | y
  {
  }

  lemma OrWords(x: bv64, y: bv64, z: bv64, xy: bv64, xz: bv64, xyz: bv64, xzy: bv64)
    requires xy == x | y && xz == x | z && xyz == xy | z && xzy == xz | y
    ensures xyz == xzy
  {
  }

  lemma OrZero(x: bv64)
    ensures Or(x, 0) == x && Or(0, x) == x
  {
  }

  lemma AndPush(x: bv64, l: bv64)
    ensures Half(And(x, Push(l, 1))) == And(Half(x), l)
  {
  }

  lemma AndBottom(x: bv64, l: bv64)
    ensures Bottom(And(x, Push(l, 1))) == Bottom(x)
  {
  }

  lemma PushHalf(v: bv64, x: bv64)
    requires v >> 63 == 0
    ensures Half(Push(v, Bottom(x))) == v
  {
  }

  lemma PushBottom(v: bv64, x: bv64)
    ensures Bottom(Push(v, Bottom(x))) == Bottom(x)
  {
  }

  lemma {:induction false} ShlOr(x: bv64, y: bv64, n: nat)
    ensures Shl(Or(x, y), n) == Or(Shl(x, n), Shl(y, n))
  {
    hide Double, Or;
    if n > 0 {
      ShlOr(x, y, n - 1);
      OrDouble(Shl(x, n - 1), Shl(y, n - 1));
    }
  }

  lemma {:induction false} ShlShl(x: bv64, m: nat, n: nat)
    ensures Shl(Shl(x, m), n) == Shl(x, m + n)
  {
    hide Double;
    if n > 0 {
      ShlShl(x, m, n - 1);
    }
  }

  lemma {:induction false} ShrShr(x: bv64, m: nat, n: nat)
    ensures Shr(Shr(x, m), n) == Shr(x, m + n)
    decreases m
  {
    hide Half;
    if m > 0 {
      ShrShr(Half(x), m - 1, n);
    }
  }

  lemma {:induction false} ShiftsOfZero(n: nat)
    ensures Shl(0, n) == 0 && Shr(0, n) == 0
  {
    if n > 0 {
      ShiftsOfZero(n - 1);
    }
  }

  lemma OnesHalf(x: bv64)
    ensures Ones(x) == Ones(Half(x)) + if Bottom(x) == 0 then 0 else 1
  {
  }

  lemma ExtractHalf(mask: bv64, data: bv64)
    ensures Pext(mask, data)
         == if Bottom(mask) == 0 then Pext(Half(mask), Half(data)) else Push(Pext(Half(mask), Half(data)), Bottom(data))
    ensures Half(0) == 0 && Bottom(0) == 0 && Pext(0, data) == 0
  {
  }

  // ---------- what the definition means ----------

  /** What comes out fits wherever the mask fits. */
  lemma {:induction false} ExtractFits(mask: bv64, data: bv64, n: nat)
    requires Shr(mask, n) == 0 && n <= 64
    ensures Shr(Pext(mask, data), n) == 0
    decreases n
  {
    hide Half, Bottom, Push, Pext;
    ExtractHalf(mask, data);
    if n > 0 {
      var v := Pext(Half(mask), Half(data));
      ExtractFits(Half(mask), Half(data), n - 1);
      ShrShr(v, n - 1, 1);
      ShrShr(v, n - 1, 64 - n);
      ShiftsOfZero(1);
      ShiftsOfZero(64 - n);
      Shr63(v);
      PushHalf(v, data);
    }
  }

  lemma Shr9(x: bv64)
    ensures Shr(x, 9) == x >> 9
  {
    hide Shr;
    var a := Shr(x, 3);
    var b := Shr(a, 3);
    var c := Shr(b, 3);
    Shr3(x);
    Shr3(a);
    Shr3(b);
    ThreeThrees(x, a, b, c);
    ShrShr(x, 3, 3);
    ShrShr(x, 6, 3);
  }

  lemma ThreeThrees(x: bv64, x3: bv64, x6: bv64, x9: bv64)
    requires x3 == x >> 3 && x6 == x3 >> 3 && x9 == x6 >> 3
    ensures x6 == x >> 6 && x9 == x >> 9
  {
  }

  lemma Shr3(x: bv64)
    ensures Shr(x, 3) == x >> 3
  {
    assert Shr(Half(x), 2) == Shr(Half(Half(x)), 1);
  }

  lemma Shr63(x: bv64)
    ensures Shr(x, 63) == x >> 63
  {
    hide Shr;
    ShrShr(x, 9, 9);
    ShrShr(x, 18, 9);
    ShrShr(x, 27, 9);
    ShrShr(x, 36, 9);
    ShrShr(x, 45, 9);
    ShrShr(x, 54, 9);
    Shr9(x);
    Shr9(Shr(x, 9));
    Shr9(Shr(x, 18));
    Shr9(Shr(x, 27));
    Shr9(Shr(x, 36));
    Shr9(Shr(x, 45));
    Shr9(Shr(x, 54));
  }

  lemma {:induction false} ShrFits(x: bv64, n: nat)
    requires n >= 64
    ensures Shr(x, n) == 0
  {
    hide Shr;
    ShrShr(x, 63, 1);
    ShrShr(x, 64, n - 64);
    Shr63(x);
    ShiftsOfZero(n - 64);
    ShrOnce(Shr(x, 63));
  }

  lemma ShrOnce(x: bv64)
    ensures Shr(x, 1) == x >> 1
  {
  }

  /** What the definition gives behind the lowest bit of the mask. */
  lemma ExtractStep(mask: bv64, data: bv64)
    ensures Bottom(mask) != 0 ==> Half(Pext(mask, data)) == Pext(Half(mask), Half(data))
    ensures Bottom(mask) != 0 ==> Bottom(Pext(mask, data)) == Bottom(data)
    ensures Bottom(mask) == 0 ==> Pext(mask, data) == Pext(Half(mask), Half(data))
  {
    hide Half, Bottom, Push, Pext;
    var v := Pext(Half(mask), Half(data));
    ExtractHalf(mask, data);
    ShrFits(mask, 64);
    ExtractFits(Half(mask), Half(data), 63);
    Shr63(v);
    PushHalf(v, data);
    PushBottom(v, data);
  }

  lemma LowStep(mask: bv64, i: nat)
    ensures i > 0 ==> Ones(And(mask, Low(i))) == Ones(And(Half(mask), Low(i - 1))) + if Bottom(mask) == 0 then 0 else 1
    ensures i == 0 ==> Ones(And(mask, Low(i))) == 0
  {
    hide Half, Bottom, Push, And, Ones;
    AndZero(mask);
    if i > 0 {
      AndPush(mask, Low(i - 1));
      AndBottom(mask, Low(i - 1));
    }
    OnesHalf(And(mask, Low(i)));
  }

  /** The data bit at a position of the mask goes to the place given by the number of mask bits below it. */
  lemma {:induction false} ExtractMeans(mask: bv64, data: bv64, i: nat)
    requires Bit(mask, i) != 0
    ensures Bit(Pext(mask, data), Ones(And(mask, Low(i)))) == Bit(data, i)
    decreases i
  {
    hide Half, Bottom, And, Low, Pext, Ones;
    ExtractStep(mask, data);
    LowStep(mask, i);
    if i > 0 {
      ExtractMeans(Half(mask), Half(data), i - 1);
    }
  }

  /** No other bits come out. */
  lemma {:induction false} ExtractEnds(mask: bv64, data: bv64, n: nat)
    requires Shr(mask, n) == 0
    ensures Shr(Pext(mask, data), Ones(mask)) == 0
    decreases n
  {
    hide Half, Bottom, Push, Pext;
    ExtractHalf(mask, data);
    ExtractStep(mask, data);
    if n > 0 {
      ExtractEnds(Half(mask), Half(data), n - 1);
      OnesHalf(mask);
    }
  }

  lemma AndZero(x: bv64)
    ensures And(x, 0) == 0 && Ones(0) == 0
  {
  }

  // ---------- chunks ----------

  /** Extraction by chunks: the low w bits first, the others behind the bits those give. */
  lemma {:induction false} Chunk(mask: bv64, data: bv64, w: nat)
    ensures Pext(mask, data) == Or(Pext(And(mask, Low(w)), And(data, Low(w))),
                                   Shl(Pext(Shr(mask, w), Shr(data, w)), Ones(And(mask, Low(w)))))
    ensures Ones(And(mask, Low(w))) <= w
    decreases w
  {
    var m, d := And(mask, Low(w)), And(data, Low(w));
    AndZero(mask);
    AndZero(data);
    ExtractHalf(mask, data);
    ExtractHalf(m, d);
    OnesHalf(m);
    OrZero(Pext(mask, data));
    hide Half, Bottom, Double, And, Or, Pext, Ones;
    if w > 0 {
      Chunk(Half(mask), Half(data), w - 1);
      AndPush(mask, Low(w - 1));
      AndBottom(mask, Low(w - 1));
      AndPush(data, Low(w - 1));
      AndBottom(data, Low(w - 1));
      if Bottom(mask) != 0 {
        var high := Shl(Pext(Shr(mask, w), Shr(data, w)), Ones(Half(m)));
        OrDouble(Pext(Half(m), Half(d)), high);
        OrSwap(Double(Pext(Half(m), Half(d))), Double(high), Bottom(data));
      }
    }
  }

  /** Taking one chunk in the loops below. */
  lemma ChunkStep(mask: bv64, data: bv64, w: nat, out: bv64, outLen: nat)
    ensures var m, d := And(mask, Low(w)), And(data, Low(w));
            Or(out, Shl(Pext(mask, data), outLen)) ==
            Or(Or(out, Shl(Pext(m, d), outLen)), Shl(Pext(Shr(mask, w), Shr(data, w)), outLen + Ones(m)))
  {
    hide Or, And, Pext, Shl, Shr, Low, Ones;
    var m, d := And(mask, Low(w)), And(data, Low(w));
    var rest := Pext(Shr(mask, w), Shr(data, w));
    Chunk(mask, data, w);
    ShlOr(Pext(m, d), Shl(rest, Ones(m)), outLen);
    ShlShl(rest, Ones(m), outLen);
    OrAssoc(out, Shl(Pext(m, d), outLen), Shl(rest, outLen + Ones(m)));
  }

  lemma OrAssoc(x: bv64, y: bv64, z: bv64)
    ensures Or(x, Or(y, z)) == Or(Or(x, y), z)
  {
    hide Or;
    OrComm(x, Or(y, z));
    OrComm(y, z);
    OrComm(x, y);
    OrSwap(y, z, x);
    OrComm(Or(z, y), x);
  }

  lemma OrComm(x: bv64, y: bv64)
    ensures Or(x, y) == Or(y, x)
  {
  }

  lemma ShrNext(x: bv64, i: nat)
    ensures Half(Shr(x, i)) == Shr(x, i + 1)
  {
    hide Half;
    ShrShr(x, i, 1);
    assert Shr(Shr(x, i), 1) == Shr(Half(Shr(x, i)), 0);
  }

  lemma ShrSmall(x: bv64)
    ensures Shr(x, 0) == x && Shr(x, 1) == x >> 1 && Shr(x, 2) == x >> 2 && Shr(x, 3) == x >> 3
    ensures Shr(x, 4) == x >> 4 && Shr(x, 5) == x >> 5 && Shr(x, 6) == x >> 6 && Shr(x, 7) == x >> 7
    ensures Shr(x, 8) == x >> 8
  {
    hide Half;
    ShiftsOfZero(0);
    ShrNext(x, 0);
    ShrNext(x, 1);
    ShrNext(x, 2);
    ShrNext(x, 3);
    ShrNext(x, 4);
    ShrNext(x, 5);
    ShrNext(x, 6);
    ShrNext(x, 7);
    Half1(x, Shr(x, 0));
    Half2(x, Shr(x, 1));
    Half3(x, Shr(x, 2));
    Half4(x, Shr(x, 3));
    Half5(x, Shr(x, 4));
    Half6(x, Shr(x, 5));
    Half7(x, Shr(x, 6));
    Half8(x, Shr(x, 7));
  }

  lemma Half1(x: bv64, y: bv64)
    requires y == x
    ensures Half(y) == x >> 1
  {
  }

  lemma Half2(x: bv64, y: bv64)
    requires y == x >> 1
    ensures Half(y) == x >> 2
  {
  }

  lemma Half3(x: bv64, y: bv64)
    requires y == x >> 2
    ensures Half(y) == x >> 3
  {
  }

  lemma Half4(x: bv64, y: bv64)
    requires y == x >> 3
    ensures Half(y) == x >> 4
  {
  }

  lemma Half5(x: bv64, y: bv64)
    requires y == x >> 4
    ensures Half(y) == x >> 5
  {
  }

  lemma Half6(x: bv64, y: bv64)
    requires y == x >> 5
    ensures Half(y) == x >> 6
  {
  }

  lemma Half7(x: bv64, y: bv64)
    requires y == x >> 6
    ensures Half(y) == x >> 7
  {
  }

  lemma Half8(x: bv64, y: bv64)
    requires y == x >> 7
    ensures Half(y) == x >> 8
  {
  }

  lemma AndIs(x: bv64, y: bv64)
    ensures And(x, y) == x & y
  {
  }
}
