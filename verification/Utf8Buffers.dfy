/** The functions of ceph-utf8/ceph-utf8.c on byte buffers, written in place, and the two stream loops of its main. A
    pointer into a buffer is the buffer and an index. */
module Utf8Buffers {
  import opened Options
  import opened Utf8

  // ---------- encode_utf8 and encode_utf8_quick ----------

  /** What both encoders promise: the encoding at the index and nothing else changed, or -1 and nothing changed. */
  ghost predicate Encoded(u: nat, before: seq<Byte>, after: seq<Byte>, at: nat, n: int) {
    if Size(u) == 0 then n == -1 && after == before
    else
      && n == Size(u) && at + n <= |before|
      && after == before[..at] + Encode(u) + before[at + n..]
  }

  /** the loop that writes the last k bytes, six bits each, from the end */
  method WriteTails(u0: nat, buf: array<Byte>, at: nat, k: nat) returns (u: nat)
    requires at + k < buf.Length
    modifies buf
    ensures u == Top(u0, k)
    ensures buf[..] == old(buf[..at + 1]) + Tails(u0, k) + old(buf[at + k + 1..])
  {
    u := u0;
    for j := k downto 0
      invariant Top(u, j) == Top(u0, k) && Tails(u0, k) == Tails(u, j) + buf[at + j + 1..at + k + 1]
      invariant buf[..at + j + 1] == old(buf[..at + j + 1]) && buf[at + k + 1..] == old(buf[at + k + 1..])
    {
      ghost var tails := Tails(u, j + 1);
      buf[at + j + 1] := Join(0x80, u % 64, 64);
      u := u / 64;
      assert tails == Tails(u, j) + [buf[at + j + 1]];
      assert buf[at + j + 1..at + k + 1] == [buf[at + j + 1]] + buf[at + j + 2..at + k + 1];
    }
    assert buf[..] == buf[..at + 1] + buf[at + 1..at + k + 1] + buf[at + k + 1..];
  }

  /** encode_utf8 */
  method EncodeUtf8(u0: nat, buf: array<Byte>, at: nat) returns (n: int)
    requires at + Size(u0) <= buf.Length
    modifies buf
    ensures Encoded(u0, old(buf[..]), buf[..], at, n)
  {
    hide Encode, Size;
    var u, i := u0, 0;
    while i < |MAX_VAL|
      invariant i <= |MAX_VAL| && forall k :: 0 <= k < i ==> u > MAX_VAL[k]
    {
      if u <= MAX_VAL[i] {
        break;
      }
      i := i + 1;
    }
    SizeIndex(u, i);
    if i == |MAX_VAL| {
      return -1;
    }
    EncodeForm(u0);
    ghost var before := buf[..];
    if i == 0 {
      buf[at] := u;
      Put(before, at, [u]);
    } else {
      u := WriteTails(u0, buf, at, i);
      buf[at] := Join(Mask(i + 1), u, Pow2(6 - i));
      PutLead(before, at, Mask(i + 1) + u, Tails(u0, i));
    }
    return i + 1;
  }

  lemma SizeIndex(u: nat, i: nat)
    requires i <= |MAX_VAL| && forall k :: 0 <= k < i ==> u > MAX_VAL[k]
    requires i < |MAX_VAL| ==> u <= MAX_VAL[i]
    ensures Size(u) == if i == |MAX_VAL| then 0 else i + 1
  {
    assert i > 0 ==> u > MAX_VAL[i - 1];
  }

  lemma EncodeForm(u: nat)
    requires Size(u) > 0
    ensures Size(u) == 1 ==> u < 256 && Encode(u) == [u]
    ensures var n := Size(u);
            n > 1 ==>
              && Mask(n) % Pow2(7 - n) == 0 && Top(u, n - 1) < Pow2(7 - n) && Mask(n) + Top(u, n - 1) < 256
              && Encode(u) == [Mask(n) + Top(u, n - 1)] + Tails(u, n - 1)
  {
    hide Top, Tails, Mask, Pow2;
    var n := Size(u);
    if n > 1 {
      TopFits(u, n);
      MaskFits(n, Top(u, n - 1));
    }
  }

  /** Bytes put into a buffer. */
  lemma Put(s: seq<Byte>, at: nat, t: seq<Byte>)
    requires at + |t| <= |s|
    ensures |t| == 1 ==> s[at := t[0]] == s[..at] + t + s[at + 1..]
    ensures |t| == 2 ==> s[at := t[0]][at + 1 := t[1]] == s[..at] + t + s[at + 2..]
    ensures |t| == 3 ==> s[at := t[0]][at + 1 := t[1]][at + 2 := t[2]] == s[..at] + t + s[at + 3..]
    ensures |t| == 4 ==>
              s[at := t[0]][at + 1 := t[1]][at + 2 := t[2]][at + 3 := t[3]] == s[..at] + t + s[at + 4..]
  {
  }

  lemma PutLead(s: seq<Byte>, at: nat, lead: Byte, t: seq<Byte>)
    requires at + |t| < |s|
    ensures (s[..at + 1] + t + s[at + |t| + 1..])[at := lead] == s[..at] + ([lead] + t) + s[at + |t| + 1..]
  {
  }

  /** encode_utf8_quick */
  method EncodeUtf8Quick(u0: nat, buf: array<Byte>, at: nat) returns (n: int)
    requires at + Size(u0) <= buf.Length
    modifies buf
    ensures Encoded(u0, old(buf[..]), buf[..], at, n)
  {
    hide Encode, Top, Tails, Mask, Pow2;
    ghost var before := buf[..];
    var u := u0;
    QuickForm(u0);
    if u <= 0x7F {
      buf[at] := u;
      Put(before, at, [u]);
      return 1;
    } else if u <= 0x7FF {
      buf[at] := Join(0xC0, u / 64, 32);
      buf[at + 1] := Join(0x80, u % 64, 64);
      Put(before, at, Encode(u0));
      return 2;
    } else if u <= 0xFFFF {
      buf[at] := Join(0xE0, u / 4096, 16);
      buf[at + 1] := Join(0x80, u / 64 % 64, 64);
      buf[at + 2] := Join(0x80, u % 64, 64);
      Put(before, at, Encode(u0));
      return 3;
    } else if u <= 0x1F_FFFF {
      buf[at] := Join(0xF0, u / 0x4_0000, 8);
      buf[at + 1] := Join(0x80, u / 4096 % 64, 64);
      buf[at + 2] := Join(0x80, u / 64 % 64, 64);
      buf[at + 3] := Join(0x80, u % 64, 64);
      Put(before, at, Encode(u0));
      return 4;
    } else {
      n := EncodeRare(u, buf, at);
    }
  }

  /** its branch for five and six bytes */
  method EncodeRare(u0: nat, buf: array<Byte>, at: nat) returns (n: int)
    requires u0 > 0x1F_FFFF && at + Size(u0) <= buf.Length
    modifies buf
    ensures Encoded(u0, old(buf[..]), buf[..], at, n)
  {
    hide Encode, Top, Tails, Mask, Pow2;
    ghost var before := buf[..];
    var u := u0;
    QuickForm(u0);
    if u <= 0x3FF_FFFF {
      u := WriteTails(u, buf, at, 4);
      buf[at] := Join(0xF8, u, 4);
      PutLead(before, at, 0xF8 + u, Tails(u0, 4));
      return 5;
    } else if u <= 0x7FFF_FFFF {
      u := WriteTails(u, buf, at, 5);
      buf[at] := Join(0xFC, u, 2);
      PutLead(before, at, 0xFC + u, Tails(u0, 5));
      return 6;
    }
    return -1;
  }

  /** What the encoding is in each branch of the quick encoder. */
  lemma QuickForm(u: nat)
    ensures u <= 0x7F ==> Encode(u) == [u]
    ensures 0x80 <= u <= 0x7FF ==> Encode(u) == [0xC0 + u / 64, 0x80 + u % 64]
    ensures 0x800 <= u <= 0xFFFF ==> Encode(u) == [0xE0 + u / 4096, 0x80 + u / 64 % 64, 0x80 + u % 64]
    ensures 0x1_0000 <= u <= 0x1F_FFFF ==>
              Encode(u) == [0xF0 + u / 0x4_0000, 0x80 + u / 4096 % 64, 0x80 + u / 64 % 64, 0x80 + u % 64]
    ensures 0x20_0000 <= u <= 0x3FF_FFFF ==> Top(u, 4) < 4 && Encode(u) == [0xF8 + Top(u, 4)] + Tails(u, 4)
    ensures 0x400_0000 <= u <= 0x7FFF_FFFF ==> Top(u, 5) < 2 && Encode(u) == [0xFC + Top(u, 5)] + Tails(u, 5)
  {
    hide Encode, Top, Tails;
    if u <= 0x7FFF_FFFF {
      EncodeForm(u);
      ShortForms(u);
    }
  }

  lemma ShortForms(u: nat)
    ensures Top(u, 1) == u / 64 && Tails(u, 1) == [0x80 + u % 64]
    ensures Top(u, 2) == u / 4096 && Tails(u, 2) == [0x80 + u / 64 % 64, 0x80 + u % 64]
    ensures Top(u, 3) == u / 0x4_0000
    ensures Tails(u, 3) == [0x80 + u / 4096 % 64, 0x80 + u / 64 % 64, 0x80 + u % 64]
  {
    OneForm(u);
    OneForm(u / 64);
    OneForm(u / 64 / 64);
    assert Tails(u, 2) == Tails(u / 64, 1) + [0x80 + u % 64] && Top(u, 2) == Top(u / 64, 1);
    assert Tails(u / 64, 2) == Tails(u / 64 / 64, 1) + [0x80 + u / 64 % 64] && Top(u / 64, 2) == Top(u / 64 / 64, 1);
    assert Tails(u, 3) == Tails(u / 64, 2) + [0x80 + u % 64] && Top(u, 3) == Top(u / 64, 2);
    assert u / 64 / 64 == u / 4096 && u / 64 / 64 / 64 == u / 0x4_0000;
  }

  lemma OneForm(u: nat)
    ensures Top(u, 1) == u / 64 && Tails(u, 1) == [0x80 + u % 64]
  {
  }

  // ---------- high_bits_set and decode_utf8 ----------

  method HighBitsSet(c0: Byte) returns (ret: nat)
    ensures ret == HighBits(c0)
  {
    var c: nat := c0;
    ret := 0;
    while c / 0x80 % 2 == 1
      invariant ret <= HighBits(c0) && c == c0 * Pow2(ret)
      decreases 8 - ret
    {
      NextBit(c0, ret);
      c := c * 2;
      ret := ret + 1;
    }
    NextBit(c0, ret);
  }

  /** The bit tested after n shifts is set while n is below the number of leading ones. */
  lemma NextBit(c: Byte, n: nat)
    requires n <= HighBits(c)
    ensures c * Pow2(n) / 0x80 % 2 == 1 <==> n < HighBits(c)
    ensures n < HighBits(c) ==> n < 8 && c * Pow2(n) * 2 == c * Pow2(n + 1)
  {
  }

  /** decode_utf8 on nbytes bytes from an index on, or None where it reads past the end of the buffer */
  method DecodeUtf8(buf: array<Byte>, at: nat, nbytes: int) returns (result: Option<nat>)
    requires at <= buf.Length && (nbytes > 0 ==> at < buf.Length)
    ensures result == DecodeFrom(buf[at..], nbytes)
    ensures nbytes <= 0 ==> result == Some(0xFFFF_FFFF)
  {
    hide HighBits, Decode;
    if nbytes <= 0 {
      return Some(INVALID);
    }
    ghost var b: seq<Byte> := buf[at..];
    DecodeForm(b, nbytes);
    if nbytes == 1 {
      return Some(if buf[at] >= 0x80 then INVALID else buf[at]);
    }
    var i := HighBitsSet(buf[at]);
    if i != nbytes {
      return Some(INVALID);
    }
    var code: nat := buf[at] % Pow2(8 - i);
    for j := 1 to nbytes
      invariant j <= |b| && code == Fold(b[0] % Pow2(8 - i), b[1..j])
      invariant forall k :: 1 <= k < j ==> IsTail(b[k])
    {
      if at + j == buf.Length {
        return None;
      }
      if !IsTail(buf[at + j]) {
        assert !IsTail(b[j]);
        return Some(INVALID);
      }
      assert b[1..j + 1][..j - 1] == b[1..j];
      code := code * 64 + buf[at + j] % 64;
    }
    return Some(if Rejected(code) then INVALID else code);
  }

  /** What the decoder makes of the next n bytes, branch by branch. */
  lemma DecodeForm(b: seq<Byte>, n: nat)
    requires b != [] && n > 0
    ensures n == 1 ==> DecodeFrom(b, n) == Some(if b[0] >= 0x80 then 0xFFFF_FFFF else b[0])
    ensures n > 1 && HighBits(b[0]) != n ==> DecodeFrom(b, n) == Some(0xFFFF_FFFF)
    ensures n > 1 && (exists j :: 1 <= j < |b| && j < n && !IsTail(b[j])) ==> DecodeFrom(b, n) == Some(0xFFFF_FFFF)
    ensures n > |b| && HighBits(b[0]) == n && (forall j :: 1 <= j < |b| ==> IsTail(b[j])) ==> DecodeFrom(b, n) == None
    ensures 1 < n <= |b| && HighBits(b[0]) == n && (forall j :: 1 <= j < n ==> IsTail(b[j])) ==>
              var code := Fold(b[0] % Pow2(8 - n), b[1..n]);
              DecodeFrom(b, n) == Some(if Rejected(code) then INVALID else code)
  {
    hide HighBits, IsTail, Fold, Pow2;
    if n <= |b| {
      var c := b[..n];
      assert c[0] == b[0] && c[1..] == b[1..n];
      assert forall j :: 1 <= j < n ==> c[j] == b[j];
    }
  }

  // ---------- the loops of main ----------

  /** The decode loop, and whether it came through, was stopped by its assertion or read past the end */
  method DecodeStream(data: array<Byte>, decoded: array<nat>) returns (nDecoded: nat, scanned: Scanned)
    requires decoded.Length == data.Length
    modifies decoded
    ensures scanned == Scan(data[..]) && nDecoded <= decoded.Length
    ensures scanned == Whole ==> WellFormed(data[..]) && decoded[..nDecoded] == Codes(data[..])
  {
    hide Decode, CharSize, WellFormed, Codes, Scan, DecodeFrom;
    var at := 0;
    nDecoded := 0;
    ScanEnd();
    assert data[0..] == data[..];
    while at < data.Length
      invariant nDecoded <= at <= data.Length && Scan(data[at..]) == Scan(data[..])
      invariant WellFormed(data[..]) <==> WellFormed(data[at..])
      invariant WellFormed(data[..]) ==> decoded[..nDecoded] + Codes(data[at..]) == Codes(data[..])
    {
      ScanStep(data[at..]);
      var n := HighBitsSet(data[at]);
      n := if n == 0 then n + 1 else n;
      CharSizeIs(data[at]);
      var result := DecodeUtf8(data, at, n);
      if result.None? {
        return nDecoded, Overrun;
      }
      decoded[nDecoded] := result.value;
      if decoded[nDecoded] == INVALID {
        return nDecoded, Refused;
      }
      assert data[at..][n..] == data[at + n..];
      if WellFormed(data[..]) {
        StreamStep(data[at..]);
        ghost var rest := Codes(data[at + n..]);
        assert decoded[..nDecoded + 1] + rest == decoded[..nDecoded] + ([decoded[nDecoded]] + rest);
      }
      nDecoded := nDecoded + 1;
      at := at + n;
    }
    assert data[at..] == [];
    StreamEnd();
    return nDecoded, Whole;
  }

  lemma ScanEnd()
    ensures Scan([]) == Whole
  {
  }

  lemma ScanStep(b: seq<Byte>)
    requires b != []
    ensures var n := CharSize(b[0]); var result := DecodeFrom(b, n);
            && n > 0
            && (result == None ==> Scan(b) == Overrun && !WellFormed(b))
            && (result == Some(INVALID) ==> Scan(b) == Refused && !WellFormed(b))
            && (result.Some? && result.value != INVALID ==>
                  n <= |b| && result.value == Decode(b[..n]) && Scan(b) == Scan(b[n..])
                  && (WellFormed(b) <==> WellFormed(b[n..])))
  {
    hide Decode, HighBits, IsTail;
    CharSizePositive(b[0]);
  }

  lemma CharSizeIs(c: Byte)
    ensures CharSize(c) == if HighBits(c) == 0 then 1 else HighBits(c)
  {
  }

  /** The encode loop and the comparison: all the codes could be encoded, and gave the data. No write is out of bounds,
      for an encoding is never longer than the character it was decoded from. */
  method EncodeStream(data: array<Byte>, decoded: array<nat>, nDecoded: nat) returns (ok: bool)
    requires WellFormed(data[..]) && nDecoded <= decoded.Length && decoded[..nDecoded] == Codes(data[..])
    ensures ok <==> ShortestForms(data[..])
  {
    hide Decode, CharSize, WellFormed, Codes, Encode, EncodeAll, Encodable, ShortestForms, Size, Sizes;
    ghost var codes := Codes(data[..]);
    var encoded := new Byte[data.Length];
    var at := 0;
    StreamRoundTrip(data[..]);
    StreamSize(data[..]);
    StreamEnd();
    assert codes[..0] == [];
    for i := 0 to nDecoded
      invariant at <= data.Length && decoded[..nDecoded] == codes
      invariant Encodable(codes[..i]) && EncodeAll(codes[..i]) == encoded[..at]
    {
      EncodeSnoc(codes[..i], codes[i]);
      SizesSplit(codes, i);
      assert codes[..i] + [codes[i]] == codes[..i + 1];
      assert decoded[i] == decoded[..nDecoded][i] == codes[i];
      var n := EncodeUtf8Quick(decoded[i], encoded, at);
      if n <= 0 {
        NotEncodable(codes, i);
        return false;
      }
      at := at + n;
    }
    assert codes[..nDecoded] == codes;
    ok := at == data.Length && encoded[..] == data[..];
  }

  lemma NotEncodable(codes: seq<nat>, i: nat)
    requires i < |codes| && Size(codes[i]) == 0
    ensures !Encodable(codes)
  {
  }

  /** How the program ends: one of its assertions stops it, or it reads past the end of the data. */
  datatype Verdict = Passed | Stopped | ReadPastEnd

  /** The validation of main, for any bytes. */
  method Validate(data: array<Byte>) returns (verdict: Verdict)
    ensures verdict == Passed <==> WellFormed(data[..]) && ShortestForms(data[..])
    ensures verdict == ReadPastEnd <==> CutShort(data[..])
  {
    hide WellFormed, ShortestForms, CutShort, Scan, Codes;
    var decoded := new nat[data.Length];
    var nDecoded, scanned := DecodeStream(data, decoded);
    ScanMeans(data[..]);
    match scanned
    case Overrun => verdict := ReadPastEnd;
    case Refused => verdict := Stopped;
    case Whole =>
      var ok := EncodeStream(data, decoded, nDecoded);
      verdict := if ok then Passed else Stopped;
  }
}
