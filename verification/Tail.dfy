/** tlpi/tail.c: the ring of line starts that finds the last lines of a file read in chunks. */
module Tail {
  const NEWLINE := '\n'
  const DEFAULT_LINES := 10

  /** The offsets at which lines start: that of the file, and every one behind a newline where a character follows. */
  function LineStarts(text: string): (s: seq<nat>)
    ensures s != [] && s[0] == 0
    ensures forall k :: 0 <= k < |s| ==> s[k] <= |text|
  {
    if |text| <= 1 then [0] else
      var rest := LineStarts(text[..|text| - 1]);
      if text[|text| - 2] == NEWLINE then rest + [|text| - 1] else rest
  }

  /** Just these: the start, and each place behind a newline, in order. */
  lemma {:induction false} StartsMean(text: string)
    ensures forall at: nat :: at in LineStarts(text) <==> at == 0 || (at < |text| && text[at - 1] == NEWLINE)
    ensures forall j, k :: 0 <= j < k < |LineStarts(text)| ==> LineStarts(text)[j] < LineStarts(text)[k]
    decreases |text|
  {
    if |text| > 1 {
      var front := text[..|text| - 1];
      StartsMean(front);
      StartsBelow(front);
    }
  }

  /** The lines that fit into the ring, oldest first. */
  function Newest(s: seq<nat>, lines: nat): seq<nat> {
    if |s| <= lines then s else s[|s| - lines..]
  }

  /** The number of lines to print: anything below one stands for ten. */
  function Lines(arg: int): (n: nat)
    ensures n > 0
  {
    if arg < 1 then DEFAULT_LINES else arg
  }

  class Ring {
    const newlineSeeks: array<nat>
    var newlineFirst: nat
    var newlineLast: nat
    var lastChar: char
    ghost var text: string

    /** The ring holds the newest line starts of the text so far, from newlineFirst around to newlineLast. */
    ghost predicate Valid()
      reads this, newlineSeeks
    {
      && newlineSeeks.Length > 0
      && Holds(newlineSeeks[..], newlineFirst, newlineLast, Newest(LineStarts(text), newlineSeeks.Length))
      && lastChar == if text == "" then '\0' else text[|text| - 1]
    }

    constructor (lines: nat)
      requires lines > 0
      ensures Valid() && text == "" && newlineSeeks.Length == lines && fresh(newlineSeeks)
    {
      newlineSeeks := new nat[lines];
      newlineFirst, newlineLast, lastChar, text := 0, 0, '\0', "";
      new;
      newlineSeeks[0] := 0;
      assert Newest(LineStarts(text), lines) == [0];
    }

    lemma Oldest()
      requires Valid()
      ensures newlineFirst < newlineSeeks.Length
      ensures newlineSeeks[newlineFirst] == Newest(LineStarts(text), newlineSeeks.Length)[0]
    {
      HoldsBounds(newlineSeeks[..], newlineFirst, newlineLast, Newest(LineStarts(text), newlineSeeks.Length));
    }

    /** parse_newline, with the offset at which the buffer starts in the file */
    method ParseNewline(buf: string, offset: nat)
      requires Valid() && offset == |text|
      modifies this, newlineSeeks
      ensures Valid() && text == old(text) + buf
    {
      hide Holds, LineStarts, Newest, Valid;
      for i := 0 to |buf|
        invariant Valid() && text == old(text) + buf[..i]
      {
        NextChar(buf[i], offset + i);
      }
    }

    /** the body of its loop */
    method NextChar(c: char, at: nat)
      requires Valid() && at == |text|
      modifies this, newlineSeeks
      ensures Valid() && text == old(text) + [c]
    {
      hide Holds, LineStarts, Newest;
      ghost var ring, values := newlineSeeks[..], Newest(LineStarts(text), newlineSeeks.Length);
      StartsNext(text, c);
      HoldsBounds(ring, newlineFirst, newlineLast, values);
      if lastChar == NEWLINE {
        NewestNext(LineStarts(text), at, newlineSeeks.Length);
        HoldsNext(ring, newlineFirst, newlineLast, values, at);
        newlineLast := (newlineLast + 1) % newlineSeeks.Length;
        if newlineLast == newlineFirst {
          newlineFirst := (newlineFirst + 1) % newlineSeeks.Length;
        }
        newlineSeeks[newlineLast] := at;
        assert newlineSeeks[..] == ring[newlineLast := at];
      }
      lastChar := c;
      text := text + [c];
    }
  }

  /** k places on in a ring of n. */
  function Slot(first: nat, k: nat, n: nat): (i: nat)
    requires first < n && k < n
    ensures i < n
  {
    if first + k < n then first + k else first + k - n
  }

  /** The ring, from first around to last, holds exactly the values. */
  ghost predicate Holds(ring: seq<nat>, first: nat, last: nat, values: seq<nat>) {
    && first < |ring| && 1 <= |values| <= |ring|
    && last == Slot(first, |values| - 1, |ring|)
    && forall k :: 0 <= k < |values| ==> ring[Slot(first, k, |ring|)] == values[k]
  }

  lemma HoldsBounds(ring: seq<nat>, first: nat, last: nat, values: seq<nat>)
    requires Holds(ring, first, last, values)
    ensures first < |ring| && last < |ring| && 1 <= |values| <= |ring| && ring[first] == values[0]
  {
    assert ring[Slot(first, 0, |ring|)] == values[0];
  }

  lemma NextSlot(i: nat, n: nat)
    requires i < n
    ensures (i + 1) % n == if i + 1 == n then 0 else i + 1
  {
  }

  /** The ring after the update of its indices: the oldest value goes if the ring is full. */
  lemma HoldsNext(ring: seq<nat>, first: nat, last: nat, values: seq<nat>, v: nat)
    requires Holds(ring, first, last, values)
    ensures var last' := (last + 1) % |ring|;
            var first' := if last' == first then (first + 1) % |ring| else first;
            Holds(ring[last' := v], first', last', (if |values| == |ring| then values[1..] else values) + [v])
  {
    var n := |ring|;
    NextSlot(last, n);
    NextSlot(first, n);
    var last' := if last + 1 == n then 0 else last + 1;
    if |values| == n {
      assert last' == first;
      var first' := if first + 1 == n then 0 else first + 1;
      forall k | 0 <= k < n - 1 ensures ring[last' := v][Slot(first', k, n)] == values[k + 1] {
        assert Slot(first', k, n) == Slot(first, k + 1, n) != last';
      }
    } else {
      assert last' == Slot(first, |values|, n) != first;
      forall k | 0 <= k < |values| ensures ring[last' := v][Slot(first, k, n)] == values[k] {
        assert Slot(first, k, n) != last';
      }
    }
  }

  lemma StartsNext(text: string, c: char)
    ensures LineStarts(text + [c])
         == if text != "" && text[|text| - 1] == NEWLINE then LineStarts(text) + [|text|] else LineStarts(text)
  {
    assert (text + [c])[..|text|] == text;
  }

  lemma NewestNext(starts: seq<nat>, v: nat, lines: nat)
    requires lines > 0 && starts != []
    ensures var s := Newest(starts, lines);
            Newest(starts + [v], lines) == (if |s| == lines then s[1..] else s) + [v]
  {
  }

  // ---------- main ----------

  /** What the reads give together: the file, up to the first empty one. */
  function Content(chunks: seq<string>): string {
    if chunks == [] || chunks[0] == "" then "" else chunks[0] + Content(chunks[1..])
  }

  /** main up to the lseek: for any division of the file into chunks, the text from the offset on is the last lines of
      the file, as many as asked for, 10 for a number below 1, or all of them. */
  method Seek(arg: int, chunks: seq<string>) returns (start: nat)
    ensures start == Newest(LineStarts(Content(chunks)), Lines(arg))[0]
    ensures var text := Content(chunks);
            var wanted := if arg >= 1 then arg else 10;
            && start <= |text| && (start == 0 || text[start - 1] == NEWLINE)
            && |LineStarts(text[start..])| == if |LineStarts(text)| < wanted then |LineStarts(text)| else wanted
  {
    hide LineStarts, Newest, Content;
    start := ReadAll(Lines(arg), chunks);
    Printed(arg, Content(chunks));
  }

  /** the read loop */
  method ReadAll(lines: nat, chunks: seq<string>) returns (start: nat)
    requires lines > 0
    ensures start == Newest(LineStarts(Content(chunks)), lines)[0]
  {
    var ring := new Ring(lines);
    var offset, i := 0, 0;
    assert chunks[0..] == chunks;
    hide LineStarts, Newest, Holds;
    while i < |chunks| && |chunks[i]| > 0
      invariant i <= |chunks| && fresh(ring) && fresh(ring.newlineSeeks) && ring.newlineSeeks.Length == lines
      invariant ring.Valid() && offset == |ring.text| && ring.text + Content(chunks[i..]) == Content(chunks)
    {
      assert ring.text + (chunks[i] + Content(chunks[i + 1..])) == ring.text + chunks[i] + Content(chunks[i + 1..]);
      ring.ParseNewline(chunks[i], offset);
      offset := offset + |chunks[i]|;
      i := i + 1;
    }
    assert ring.text + "" == ring.text;
    ring.Oldest();
    start := ring.newlineSeeks[ring.newlineFirst];
  }

  lemma Printed(arg: int, text: string)
    ensures var start := Newest(LineStarts(text), Lines(arg))[0];
            var wanted := if arg >= 1 then arg else 10;
            && start <= |text| && (start == 0 || text[start - 1] == NEWLINE)
            && |LineStarts(text[start..])| == if |LineStarts(text)| < wanted then |LineStarts(text)| else wanted
  {
    hide LineStarts, Newest;
    LastLines(text, Lines(arg));
  }

  /** From the start of any line on, a text has the rest of the lines. */
  lemma {:induction false} SuffixStarts(text: string, i: nat)
    requires i < |LineStarts(text)|
    ensures |LineStarts(text[LineStarts(text)[i]..])| == |LineStarts(text)| - i
    ensures LineStarts(text)[i] == 0 || text[LineStarts(text)[i] - 1] == NEWLINE
    decreases |text|
  {
    hide LineStarts;
    if |text| <= 1 {
      assert text[0..] == text;
      OneStart(text);
    } else {
      var front, c := text[..|text| - 1], text[|text| - 1];
      assert front + [c] == text;
      StartsNext(front, c);
      StartsBelow(front);
      if i < |LineStarts(front)| {
        var start := LineStarts(front)[i];
        SuffixStarts(front, i);
        SnocSuffix(front, c, start);
        StartsNext(front[start..], c);
      } else {
        assert text[LineStarts(text)[i]..] == [c];
        OneStart([c]);
      }
    }
  }

  lemma SnocSuffix(front: string, c: char, start: nat)
    requires start < |front|
    ensures (front + [c])[start..] == front[start..] + [c]
    ensures front[start..] != "" && front[start..][|front[start..]| - 1] == front[|front| - 1]
  {
  }

  lemma OneStart(text: string)
    requires |text| <= 1
    ensures LineStarts(text) == [0]
  {
  }

  lemma {:induction false} StartsBelow(text: string)
    requires text != ""
    ensures forall k :: 0 <= k < |LineStarts(text)| ==> LineStarts(text)[k] < |text|
    decreases |text|
  {
    if |text| > 1 {
      StartsBelow(text[..|text| - 1]);
    }
  }

  /** What is printed from there on are the last lines of the file: as many as asked for, or all of them. */
  lemma LastLines(text: string, lines: nat)
    requires lines > 0
    ensures var start := Newest(LineStarts(text), lines)[0];
            && start <= |text| && (start == 0 || text[start - 1] == NEWLINE)
            && |LineStarts(text[start..])| == if |LineStarts(text)| < lines then |LineStarts(text)| else lines
  {
    SuffixStarts(text, if |LineStarts(text)| <= lines then 0 else |LineStarts(text)| - lines);
  }
}
