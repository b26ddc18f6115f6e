/** The encoders and the decoder of ceph-utf8/ceph-utf8.c, for the code points of up to 31 bits of RFC 2279. Words and
    bytes are numbers: a shift to the right by k is a division by 2^k, masking k low bits is the remainder, and | only
    joins bits that do not overlap, which Join asks for. */
module Utf8 {
  import opened Options

  type Byte = b: nat | b < 256

  const INVALID := 0xFFFF_FFFF
  const MAX_VAL: seq<nat> := [0x7F, 0x7FF, 0xFFFF, 0x1F_FFFF, 0x3FF_FFFF, 0x7FFF_FFFF]

  /** high | low */
  function Join(high: nat, low: nat, width: nat): nat
    requires width > 0 && high % width == 0 && low < width
  {
    high + low
  }

  function Pow2(n: nat): (p: nat)
    requires n <= 8
    ensures p > 0
  {
    if n == 0 then 1 else if n == 1 then 2 else if n == 2 then 4 else if n == 3 then 8 else if n == 4 then 16
    else if n == 5 then 32 else if n == 6 then 64 else if n == 7 then 128 else 256
  }

  // ---------- encoding ----------

  /** The bytes a code point takes, or 0 if it is too big. */
  function Size(u: nat): (n: nat)
    ensures n <= 6
  {
    if u <= 0x7F then 1 else if u <= 0x7FF then 2 else if u <= 0xFFFF then 3 else if u <= 0x1F_FFFF then 4
    else if u <= 0x3FF_FFFF then 5 else if u <= 0x7FFF_FFFF then 6 else 0
  }

  /** ~(0xFF >> n) in a byte: n ones at the high end */
  function Mask(n: nat): Byte
    requires n <= 8
  {
    255 - 255 / Pow2(n)
  }

  /** The bytes after the first one hold six bits each. */
  function Tails(u: nat, k: nat): (s: seq<Byte>)
    ensures |s| == k
  {
    if k == 0 then [] else Tails(u / 64, k - 1) + [Join(0x80, u % 64, 64)]
  }

  function Top(u: nat, k: nat): nat {
    if k == 0 then u else Top(u / 64, k - 1)
  }

  lemma {:induction false} TopMonotone(u: nat, v: nat, k: nat)
    requires u <= v
    ensures Top(u, k) <= Top(v, k)
    decreases k
  {
    if k > 0 {
      TopMonotone(u / 64, v / 64, k - 1);
    }
  }

  lemma TopFits(u: nat, n: nat)
    requires 2 <= n <= 6 && Size(u) == n
    ensures Top(u, n - 1) < Pow2(7 - n)
  {
    TopMonotone(u, MAX_VAL[n - 1], n - 1);
    LargestTops();
    hide Top;
  }

  lemma LargestTops()
    ensures Top(0x7FF, 1) == 31 && Top(0xFFFF, 2) == 15 && Top(0x1F_FFFF, 3) == 7 && Top(0x3FF_FFFF, 4) == 3
    ensures Top(0x7FFF_FFFF, 5) == 1
  {
    assert Top(0x1F_FFFF, 3) == Top(0x7FFF, 2);
    assert Top(0x3FF_FFFF, 4) == Top(0xF_FFFF, 3) == Top(0x3FFF, 2);
    assert Top(0x7FFF_FFFF, 5) == Top(0x1FF_FFFF, 4) == Top(0x7_FFFF, 3) == Top(0x1FFF, 2);
  }

  lemma MaskFits(n: nat, top: nat)
    requires 2 <= n <= 6 && top < Pow2(7 - n)
    ensures Mask(n) % Pow2(7 - n) == 0 && Mask(n) + top < 256
  {
  }

  function Encode(u: nat): (s: seq<Byte>)
    requires Size(u) > 0
    ensures |s| == Size(u)
  {
    var n := Size(u);
    if n == 1 then [u]
    else
      TopFits(u, n);
      MaskFits(n, Top(u, n - 1));
      [Join(Mask(n), Top(u, n - 1), Pow2(7 - n))] + Tails(u, n - 1)
  }

  // ---------- decoding ----------

  /** How many ones the byte starts with. */
  function HighBits(c: Byte): (n: nat)
    ensures n <= 8
  {
    if c < 0x80 then 0 else if c < 0xC0 then 1 else if c < 0xE0 then 2 else if c < 0xF0 then 3 else if c < 0xF8 then 4
    else if c < 0xFC then 5 else if c < 0xFE then 6 else if c < 0xFF then 7 else 8
  }

  predicate IsTail(c: Byte) {
    0x80 <= c < 0xC0
  }

  predicate Rejected(code: nat) {
    code == 0xFFFE || code == 0xFFFF || 0xD800 <= code <= 0xDFFF
  }

  /** The bits of the first byte, and six more from every other one. */
  function Collect(b: seq<Byte>): nat
    requires 1 <= |b| <= 8
  {
    Fold(b[0] % Pow2(8 - |b|), b[1..])
  }

  function Fold(code: nat, s: seq<Byte>): nat {
    if s == [] then code else Fold(code, s[..|s| - 1]) * 64 + s[|s| - 1] % 64
  }

  /** decode_utf8 on exactly these bytes */
  function Decode(b: seq<Byte>): nat {
    if b == [] then INVALID
    else if |b| == 1 then if b[0] >= 0x80 then INVALID else b[0]
    else if HighBits(b[0]) != |b| then INVALID
    else if exists j :: 1 <= j < |b| && !IsTail(b[j]) then INVALID
    else if Rejected(Collect(b)) then INVALID
    else Collect(b)
  }

  /** decode_utf8 told to take n bytes where b is what the buffer still holds, or None if it reads past the end: a byte
      on which it refuses the character stops it before. */
  function DecodeFrom(b: seq<Byte>, n: int): Option<nat>
    requires n > 0 ==> b != []
  {
    if n <= 0 then Some(INVALID)
    else if n <= |b| then Some(Decode(b[..n]))
    else if HighBits(b[0]) == n && forall j :: 1 <= j < |b| ==> IsTail(b[j]) then None
    else Some(INVALID)
  }

  // ---------- round trips ----------

  lemma {:induction false} FoldTails(u: nat, k: nat)
    ensures Fold(Top(u, k), Tails(u, k)) == u
    ensures forall j :: 0 <= j < k ==> IsTail(Tails(u, k)[j])
  {
    if k > 0 {
      FoldTails(u / 64, k - 1);
      assert Tails(u, k)[..k - 1] == Tails(u / 64, k - 1);
    }
  }

  /** Decoding an encoding gives the code point back, except for the rejected ones. */
  lemma DecodeEncode(u: nat)
    requires u <= 0x7FFF_FFFF
    ensures Decode(Encode(u)) == if Rejected(u) then INVALID else u
  {
    hide Tails, Top, Fold, Mask, HighBits, Pow2, IsTail, Decode, Encode, Size;
    SizeFits(u);
    if Size(u) == 1 {
      EncodeOne(u);
    } else {
      var n, b := Size(u), Encode(u);
      EncodeLong(u);
      LeadByte(n, Top(u, n - 1));
      FoldTails(u, n - 1);
      TailsAt(b);
      DecodeLong(b);
    }
  }

  /** Of the encodings exactly those of surrogates and of two noncharacters are refused. */
  lemma RefusedCodes(u: nat)
    requires u <= 0x7FFF_FFFF
    ensures Size(u) > 0
    ensures Decode(Encode(u)) == 0xFFFF_FFFF <==> u == 0xFFFE || u == 0xFFFF || 0xD800 <= u <= 0xDFFF
  {
    hide Decode, Encode;
    DecodeEncode(u);
  }

  /** A character with the right first byte for its length and tails behind it, in shortest form, is refused exactly if
      it is ED A0..BF xx, EF BF BE or EF BF BF. */
  lemma RefusedBytes(b: seq<Byte>)
    requires 2 <= |b| <= 6 && HighBits(b[0]) == |b| && !NotShortest(b)
    requires forall j :: 1 <= j < |b| ==> 0x80 <= b[j] <= 0xBF
    ensures Decode(b) == 0xFFFF_FFFF
       <==> |b| == 3 && ((b[0] == 0xED && b[1] >= 0xA0) || (b[0] == 0xEF && b[1] == 0xBF && b[2] >= 0xBE))
  {
    hide Decode, Fold, NotShortest, Pow2;
    var code := Fold(b[0] % Pow2(8 - |b|), b[1..]);
    forall j | 1 <= j < |b| ensures IsTail(b[j]) {
    }
    DecodeLong(b);
    ShortestSize(b);
    hide HighBits;
    if |b| == 3 {
      ThreeBytes(b);
    }
  }

  lemma ThreeBytes(b: seq<Byte>)
    requires |b| == 3 && HighBits(b[0]) == 3
    requires forall j :: 1 <= j < |b| ==> 0x80 <= b[j] <= 0xBF
    ensures var x: int := b[0]; var y: int := b[1]; var z: int := b[2];
            Fold(b[0] % Pow2(5), b[1..]) == (x - 0xE0) * 4096 + (y - 0x80) * 64 + (z - 0x80)
  {
    var t := b[1..];
    assert t == [b[1], b[2]] && t[..1] == [b[1]] && t[..1][..0] == [];
    var first := b[0] % Pow2(5);
    assert first == b[0] - 0xE0;
    assert Fold(first, []) == first;
    assert Fold(first, [b[1]]) == first * 64 + (b[1] - 0x80);
  }

  /** The code points up to 31 bits have an encoding, and no others. */
  lemma SizeFits(u: nat)
    ensures Size(u) > 0 <==> u <= 0x7FFF_FFFF
  {
  }

  lemma EncodeOne(u: nat)
    requires Size(u) == 1
    ensures Decode(Encode(u)) == u && !Rejected(u)
  {
  }

  lemma TailsAt(b: seq<Byte>)
    requires |b| > 1 && forall j :: 0 <= j < |b| - 1 ==> IsTail(b[1..][j])
    ensures forall j :: 1 <= j < |b| ==> IsTail(b[j])
  {
    hide IsTail;
    forall j | 1 <= j < |b| ensures IsTail(b[j]) {
      assert b[j] == b[1..][j - 1];
    }
  }

  lemma DecodeLong(b: seq<Byte>)
    requires 2 <= |b| <= 8 && HighBits(b[0]) == |b| && forall j :: 1 <= j < |b| ==> IsTail(b[j])
    ensures var code := Fold(b[0] % Pow2(8 - |b|), b[1..]); Decode(b) == if Rejected(code) then INVALID else code
  {
    hide Fold, HighBits, IsTail, Pow2;
  }

  lemma LeadByte(n: nat, top: nat)
    requires 2 <= n <= 6 && top < Pow2(7 - n)
    ensures Mask(n) + top < 256 && HighBits(Mask(n) + top) == n && (Mask(n) + top) % Pow2(8 - n) == top
  {
  }

  /** A character whose bytes are not the shortest for its code point, or that is longer than any encoding: told from
      the first two bytes. */
  predicate NotShortest(b: seq<Byte>) {
    |b| >= 2 &&
    (  b[0] < 0xC2
    || (b[0] == 0xE0 && b[1] < 0xA0)
    || (b[0] == 0xF0 && b[1] < 0x90)
    || (b[0] == 0xF8 && b[1] < 0x88)
    || (b[0] == 0xFC && b[1] < 0x84)
    || b[0] >= 0xFE)
  }

  /** The decoder accepts characters that are not in shortest form. Encoding what it gives brings the same bytes back
      exactly if the character is in shortest form. */
  lemma EncodeDecode(b: seq<Byte>)
    requires Decode(b) != INVALID
    ensures Size(Decode(b)) > 0 && Encode(Decode(b)) == b <==> !NotShortest(b)
    ensures NotShortest(b) ==> Size(Decode(b)) < |b|
  {
    hide Tails, Top, Fold, Mask, HighBits, Pow2, IsTail, Decode, Collect, Encode, NotShortest, Size;
    if |b| < 2 {
      DecodeOne(b);
    } else {
      var code := Decode(b);
      DecodeParts(b);
      LongFirst(b);
      TailsFold(b[0] % Pow2(8 - |b|), b[1..]);
      if |b| <= 6 {
        ShortestSize(b);
        if Size(code) == |b| {
          LeadBack(b[0], |b|);
          EncodeLong(code);
          assert b == [b[0]] + b[1..];
        }
      }
    }
  }

  /** Two bytes for the letter A: accepted, and encoded as one. */
  lemma OverlongIsAccepted()
    ensures Decode([0xC1, 0x81]) == 0x41 && NotShortest([0xC1, 0x81]) && Encode(0x41) == [0x41]
  {
    var b: seq<Byte> := [0xC1, 0x81];
    assert b[1..] == [0x81];
    assert Fold(1, []) == 1;
    assert b[1..][..0] == [];
    assert Collect(b) == 0x41;
  }

  lemma DecodeOne(b: seq<Byte>)
    requires |b| < 2 && Decode(b) != INVALID
    ensures Size(Decode(b)) == 1 && Encode(Decode(b)) == b && !NotShortest(b)
  {
  }

  lemma DecodeParts(b: seq<Byte>)
    requires |b| >= 2 && Decode(b) != INVALID
    ensures |b| == HighBits(b[0]) && Decode(b) == Collect(b) == Fold(b[0] % Pow2(8 - |b|), b[1..])
    ensures forall j :: 1 <= j < |b| ==> IsTail(b[j])
  {
    hide Fold, HighBits;
  }

  lemma LongFirst(b: seq<Byte>)
    requires 2 <= |b| == HighBits(b[0])
    ensures |b| > 6 ==> NotShortest(b)
  {
  }

  lemma EncodeLong(u: nat)
    requires Size(u) >= 2
    ensures var n := Size(u);
            && Top(u, n - 1) < Pow2(7 - n)
            && Encode(u)[1..] == Tails(u, n - 1) && Encode(u)[0] == Mask(n) + Top(u, n - 1)
  {
    hide Tails, Top, Mask, Pow2;
    TopFits(u, Size(u));
  }

  lemma LeadBack(c: Byte, n: nat)
    requires 2 <= n <= 6 && HighBits(c) == n
    ensures c % Pow2(8 - n) < Pow2(7 - n) && Mask(n) + c % Pow2(8 - n) == c
  {
  }

  lemma {:induction false} TailsFold(code: nat, s: seq<Byte>)
    requires forall j :: 0 <= j < |s| ==> IsTail(s[j])
    ensures Top(Fold(code, s), |s|) == code && Tails(Fold(code, s), |s|) == s
  {
    if s != [] {
      TailsFold(code, s[..|s| - 1]);
      var x := s[|s| - 1];
      assert Fold(code, s) / 64 == Fold(code, s[..|s| - 1]) && Fold(code, s) % 64 == x % 64;
      assert 0x80 + x % 64 == x;
    }
  }

  /** The code point needs all the bytes exactly if the form is the shortest one. */
  lemma ShortestSize(b: seq<Byte>)
    requires 2 <= |b| <= 6 && HighBits(b[0]) == |b| && IsTail(b[1])
    ensures Size(Collect(b)) == |b| <==> !NotShortest(b)
    ensures Size(Collect(b)) <= |b| && Size(Collect(b)) > 0
  {
    var n, top := |b|, b[0] % Pow2(8 - |b|);
    FoldFirst(top, b[1..]);
    FoldBounds(top * 64 + b[1] % 64, b[1..][1..]);
    ShortestBounds(n, b[0], b[1], Collect(b));
  }

  lemma ShortestBounds(n: nat, c0: Byte, c1: Byte, code: nat)
    requires 2 <= n <= 6 && HighBits(c0) == n && IsTail(c1)
    requires var first := c0 % Pow2(8 - n) * 64 + c1 % 64;
             first * Pow64(n - 2) <= code < (first + 1) * Pow64(n - 2)
    ensures Size(code) == n <==> !NotShortest([c0, c1])
    ensures 0 < Size(code) <= n
  {
    var first := c0 % Pow2(8 - n) * 64 + c1 % 64;
    Powers64();
    hide Pow64;
    if
    case n == 2 => assert first == (c0 - 0xC0) * 64 + (c1 - 0x80);
    case n == 3 => assert first == (c0 - 0xE0) * 64 + (c1 - 0x80);
    case n == 4 => assert first == (c0 - 0xF0) * 64 + (c1 - 0x80);
    case n == 5 => assert first == (c0 - 0xF8) * 64 + (c1 - 0x80);
    case n == 6 => assert first == (c0 - 0xFC) * 64 + (c1 - 0x80);
  }

  lemma Powers64()
    ensures Pow64(0) == 1 && Pow64(1) == 64 && Pow64(2) == 4096 && Pow64(3) == 0x4_0000 && Pow64(4) == 0x100_0000
  {
    assert Pow64(3) == 64 * Pow64(2);
    assert Pow64(4) == 64 * Pow64(3);
  }

  function Pow64(k: nat): nat {
    if k == 0 then 1 else 64 * Pow64(k - 1)
  }

  lemma {:induction false} FoldBounds(code: nat, s: seq<Byte>)
    ensures code * Pow64(|s|) <= Fold(code, s) < (code + 1) * Pow64(|s|)
  {
    if s != [] {
      FoldBounds(code, s[..|s| - 1]);
      Scale(code, Pow64(|s| - 1));
      Scale(code + 1, Pow64(|s| - 1));
    }
  }

  lemma Scale(code: nat, p: nat)
    ensures code * (64 * p) == 64 * (code * p)
  {
  }

  lemma {:induction false} FoldFirst(code: nat, s: seq<Byte>)
    requires s != []
    ensures Fold(code, s) == Fold(code * 64 + s[0] % 64, s[1..])
  {
    if |s| > 1 {
      FoldFirst(code, s[..|s| - 1]);
      assert s[..|s| - 1][1..] == s[1..][..|s| - 2];
    }
  }

  // ---------- streams ----------

  /** The length the first byte announces. */
  function CharSize(c: Byte): nat {
    if HighBits(c) == 0 then 1 else HighBits(c)
  }

  /** The bytes are whole characters that the decoder accepts, one after the other. */
  predicate WellFormed(b: seq<Byte>) {
    b == [] ||
    var n := CharSize(b[0]);
    n <= |b| && Decode(b[..n]) != INVALID && WellFormed(b[n..])
  }

  function Codes(b: seq<Byte>): seq<nat>
    requires WellFormed(b)
  {
    if b == [] then [] else [Decode(b[..CharSize(b[0])])] + Codes(b[CharSize(b[0])..])
  }

  predicate ShortestForms(b: seq<Byte>)
    requires WellFormed(b)
  {
    b == [] || (!NotShortest(b[..CharSize(b[0])]) && ShortestForms(b[CharSize(b[0])..]))
  }

  datatype Scanned = Whole | Refused | Overrun

  /** The decode loop: each character is decoded with the length that its first byte announces. */
  function Scan(b: seq<Byte>): Scanned {
    if b == [] then Whole
    else match DecodeFrom(b, CharSize(b[0]))
      case None => Overrun
      case Some(code) => if code == INVALID then Refused else Scan(b[CharSize(b[0])..])
  }

  /** Accepted characters, and then the beginning of one whose last bytes are missing. */
  ghost predicate CutShort(b: seq<Byte>) {
    exists k :: 0 <= k < |b| && CutAt(b, k)
  }

  predicate CutAt(b: seq<Byte>, k: nat)
    requires k < |b|
  {
    && WellFormed(b[..k])
    && HighBits(b[k]) > |b| - k
    && forall j :: k < j < |b| ==> IsTail(b[j])
  }

  /** The loop comes through exactly on well-formed streams, and reads past the end exactly on those cut short. */
  lemma {:induction false} ScanMeans(b: seq<Byte>)
    ensures Scan(b) == Whole <==> WellFormed(b)
    ensures Scan(b) == Overrun <==> CutShort(b)
  {
    hide Decode, HighBits, IsTail;
    if b != [] {
      var n := CharSize(b[0]);
      var code := DecodeFrom(b, n);
      CutAtStart(b);
      if code.Some? && code.value != INVALID {
        ScanMeans(b[n..]);
        CutLater(b, n);
      } else {
        CutNotLater(b);
      }
    }
  }

  lemma CutAtStart(b: seq<Byte>)
    requires b != []
    ensures CutAt(b, 0) <==> DecodeFrom(b, CharSize(b[0])) == None
  {
    hide Decode, HighBits, IsTail;
  }

  /** A character that is accepted shifts the place of the cut. */
  lemma CutLater(b: seq<Byte>, n: nat)
    requires b != [] && n == CharSize(b[0]) <= |b| && Decode(b[..n]) != INVALID
    ensures CutShort(b) <==> CutShort(b[n..])
  {
    hide Decode, HighBits, IsTail;
    if k: nat :| k < |b| && CutAt(b, k) {
      CutShift(b, n, k);
      assert CutAt(b[n..], k - n);
    }
    if k: nat :| k < |b[n..]| && CutAt(b[n..], k) {
      CutShift(b, n, k + n);
      assert CutAt(b, k + n);
    }
  }

  lemma CutShift(b: seq<Byte>, n: nat, k: nat)
    requires k < |b| && b != [] && n == CharSize(b[0]) <= |b| && Decode(b[..n]) != INVALID
    ensures CutAt(b, k) ==> k >= n
    ensures k >= n ==> (CutAt(b, k) <==> CutAt(b[n..], k - n))
  {
    hide Decode, HighBits, IsTail;
    CharSizePositive(b[0]);
    if k > 0 {
      assert b[..k][0] == b[0];
      if k >= n {
        assert b[..k][..n] == b[..n] && b[..k][n..] == b[n..][..k - n];
        assert b[n..][k - n] == b[k];
        assert forall j :: k < j < |b| ==> b[j] == b[n..][j - n];
        assert forall j :: k - n < j < |b[n..]| ==> b[n..][j] == b[j + n];
      }
    }
  }

  lemma CharSizePositive(c: Byte)
    ensures CharSize(c) > 0 && HighBits(c) <= CharSize(c)
  {
  }

  /** Behind a character that is refused nothing is cut short. */
  lemma CutNotLater(b: seq<Byte>)
    requires b != [] && (CharSize(b[0]) > |b| || Decode(b[..CharSize(b[0])]) == INVALID)
    ensures CutShort(b) <==> CutAt(b, 0)
  {
    hide Decode, HighBits, IsTail, CutAt, WellFormed;
    forall k: nat | 0 < k < |b| ensures !CutAt(b, k) {
      RefusedPrefix(b, k);
    }
  }

  lemma RefusedPrefix(b: seq<Byte>, k: nat)
    requires 0 < k < |b| && (CharSize(b[0]) > |b| || Decode(b[..CharSize(b[0])]) == INVALID)
    ensures !CutAt(b, k)
  {
    hide Decode, HighBits, IsTail;
    assert b[..k][0] == b[0];
    if CharSize(b[0]) <= k {
      assert b[..k][..CharSize(b[0])] == b[..CharSize(b[0])];
    }
  }

  predicate Encodable(codes: seq<nat>) {
    forall i :: 0 <= i < |codes| ==> Size(codes[i]) > 0
  }

  function EncodeAll(codes: seq<nat>): seq<Byte>
    requires Encodable(codes)
  {
    if codes == [] then [] else Encode(codes[0]) + EncodeAll(codes[1..])
  }

  /** Decoding a stream and encoding the result gives the same bytes exactly if every character is in shortest form. */
  lemma {:induction false} StreamRoundTrip(b: seq<Byte>)
    requires WellFormed(b)
    ensures Encodable(Codes(b)) && EncodeAll(Codes(b)) == b <==> ShortestForms(b)
    ensures Encodable(Codes(b)) ==> |EncodeAll(Codes(b))| <= |b|
    ensures !ShortestForms(b) && Encodable(Codes(b)) ==> |EncodeAll(Codes(b))| < |b|
  {
    hide Decode, NotShortest, CharSize, Encodable, EncodeAll, Size, Encode, WellFormed, Codes, ShortestForms;
    if b == [] {
      StreamEnd();
    } else {
      StreamStep(b);
      var n := CharSize(b[0]);
      var first, last := b[..n], b[n..];
      assert b == first + last;
      EncodeDecode(first);
      StreamRoundTrip(last);
      EncodeCons(Decode(first), Codes(last));
      if Encodable(Codes(b)) {
        SplitEqual(Encode(Decode(first)), EncodeAll(Codes(last)), first, last);
      }
    }
  }

  /** The code point has an encoding, and the decoder accepts it. */
  predicate Storable(u: nat) {
    u <= 0x7FFF_FFFF && u != 0xFFFE && u != 0xFFFF && !(0xD800 <= u <= 0xDFFF)
  }

  /** The other way round: code points that are encoded one after the other are read back as they were. */
  lemma {:induction false} CodesRoundTrip(codes: seq<nat>)
    requires forall i :: 0 <= i < |codes| ==> Storable(codes[i])
    ensures Encodable(codes) && WellFormed(EncodeAll(codes)) && Codes(EncodeAll(codes)) == codes
    ensures ShortestForms(EncodeAll(codes))
  {
    hide Decode, Encode, CharSize, Encodable, EncodeAll, Size, WellFormed, Codes, ShortestForms, NotShortest;
    if codes == [] {
      StreamEnd();
    } else {
      var u, rest := codes[0], codes[1..];
      assert codes == [u] + rest;
      CodesRoundTrip(rest);
      SizeFits(u);
      EncodeCons(u, rest);
      DecodeEncode(u);
      EncodedSize(u);
      EncodeDecode(Encode(u));
      StreamCons(Encode(u), EncodeAll(rest));
    }
  }

  /** The first byte of an encoding announces its length. */
  lemma EncodedSize(u: nat)
    requires Size(u) > 0
    ensures CharSize(Encode(u)[0]) == |Encode(u)| == Size(u)
  {
    hide Top, Tails, Mask, Pow2, HighBits;
    var n := Size(u);
    if n > 1 {
      hide Encode;
      EncodeLong(u);
      LeadByte(n, Top(u, n - 1));
    } else {
      SmallByte(u);
    }
  }

  lemma SmallByte(u: nat)
    requires u <= 0x7F
    ensures HighBits(u) == 0
  {
  }

  lemma StreamCons(c: seq<Byte>, rest: seq<Byte>)
    requires c != [] && CharSize(c[0]) == |c| && Decode(c) != INVALID && WellFormed(rest)
    ensures WellFormed(c + rest) && Codes(c + rest) == [Decode(c)] + Codes(rest)
    ensures ShortestForms(c + rest) <==> !NotShortest(c) && ShortestForms(rest)
  {
    hide Decode, NotShortest, CharSize;
    var b := c + rest;
    assert b[0] == c[0] && b[..|c|] == c && b[|c|..] == rest;
  }

  lemma StreamEnd()
    ensures WellFormed([]) && ShortestForms([]) && Codes([]) == []
    ensures Encodable([]) && EncodeAll([]) == [] && Sizes([]) == 0
  {
  }

  lemma StreamStep(b: seq<Byte>)
    requires b != [] && WellFormed(b)
    ensures var n := CharSize(b[0]);
            && 1 <= n <= |b| && Decode(b[..n]) != INVALID && WellFormed(b[n..])
            && Codes(b) == [Decode(b[..n])] + Codes(b[n..])
            && (ShortestForms(b) <==> !NotShortest(b[..n]) && ShortestForms(b[n..]))
  {
    hide Decode, NotShortest;
  }

  lemma SplitEqual(s: seq<Byte>, t: seq<Byte>, s1: seq<Byte>, t1: seq<Byte>)
    requires |s| <= |s1| && |t| <= |t1|
    ensures s + t == s1 + t1 <==> s == s1 && t == t1
  {
    if s + t == s1 + t1 {
      assert s == (s + t)[..|s|] && t == (s + t)[|s|..];
    }
  }

  lemma EncodeCons(u: nat, codes: seq<nat>)
    ensures Encodable([u] + codes) <==> Size(u) > 0 && Encodable(codes)
    ensures Encodable([u] + codes) ==> EncodeAll([u] + codes) == Encode(u) + EncodeAll(codes)
  {
    hide Encode, Size;
    var all := [u] + codes;
    assert all[1..] == codes;
    if Size(u) > 0 && Encodable(codes) {
      forall i | 0 <= i < |all| ensures Size(all[i]) > 0 {
        assert i > 0 ==> all[i] == codes[i - 1];
      }
    }
    if Encodable(all) {
      assert Size(all[0]) > 0;
      forall i | 0 <= i < |codes| ensures Size(codes[i]) > 0 {
        assert codes[i] == all[i + 1];
      }
    }
  }

  /** The bytes the encodings take together. */
  function Sizes(codes: seq<nat>): nat {
    if codes == [] then 0 else Size(codes[0]) + Sizes(codes[1..])
  }

  /** The encodings fit where the characters were. */
  lemma {:induction false} StreamSize(b: seq<Byte>)
    requires WellFormed(b)
    ensures Sizes(Codes(b)) <= |b|
  {
    hide Decode, NotShortest, CharSize, Size, Encode, WellFormed, Codes;
    if b == [] {
      StreamEnd();
    } else {
      StreamStep(b);
      var n := CharSize(b[0]);
      EncodeDecode(b[..n]);
      StreamSize(b[n..]);
      SizesCons(Decode(b[..n]), Codes(b[n..]));
    }
  }

  lemma SizesCons(u: nat, codes: seq<nat>)
    ensures Sizes([u] + codes) == Size(u) + Sizes(codes)
  {
    assert ([u] + codes)[1..] == codes;
  }

  /** One more code point at the end. */
  lemma {:induction false} EncodeSnoc(codes: seq<nat>, u: nat)
    requires Encodable(codes)
    ensures Encodable(codes + [u]) <==> Size(u) > 0
    ensures Size(u) > 0 ==> EncodeAll(codes + [u]) == EncodeAll(codes) + Encode(u)
    ensures |EncodeAll(codes)| == Sizes(codes)
  {
    hide Size, Encode;
    EncodeCons(u, []);
    assert codes == [] ==> codes + [u] == [u] + [];
    if codes != [] {
      assert codes == [codes[0]] + codes[1..];
      EncodeCons(codes[0], codes[1..]);
      EncodeSnoc(codes[1..], u);
      EncodeCons(codes[0], codes[1..] + [u]);
      assert codes + [u] == [codes[0]] + (codes[1..] + [u]);
    }
  }

  lemma {:induction false} SizesSplit(codes: seq<nat>, i: nat)
    requires i < |codes|
    ensures Sizes(codes[..i]) + Size(codes[i]) <= Sizes(codes)
  {
    if i > 0 {
      SizesSplit(codes[1..], i - 1);
      assert codes[1..][..i - 1] == codes[..i][1..];
    }
  }
}
