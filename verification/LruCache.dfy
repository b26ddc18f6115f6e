/** The cache simulation of mysql/l1i-miss/l1i-miss.py with its LRU policy. The number of sets, the number of ways and
    the line size are parameters. */
module LruCache {
  // ---------- one set, as a value ----------

  function IndexOf(s: seq<nat>, a: nat): (i: nat)
    requires a in s
    ensures i < |s| && s[i] == a && a !in s[..i]
  {
    if s[0] == a then 0 else 1 + IndexOf(s[1..], a)
  }

  /** Without the element at an index. */
  function Cut(s: seq<nat>, i: nat): (t: seq<nat>)
    requires i < |s|
    ensures |t| == |s| - 1
    ensures forall k :: 0 <= k < |t| ==> t[k] == if k < i then s[k] else s[k + 1]
  {
    s[..i] + s[i + 1..]
  }

  /** What insert_cl_lru does to a set: the line comes to the head, the lines in front of it move back; the last one
      is lost if the line is new. */
  function Insert(s: seq<nat>, a: nat): (t: seq<nat>)
    requires s != []
    ensures |t| == |s|
  {
    if a in s then [a] + Cut(s, IndexOf(s, a)) else [a] + s[..|s| - 1]
  }

  // ---------- what an LRU set should hold ----------

  function Without(s: seq<nat>, a: nat): (t: seq<nat>)
    ensures forall x :: x in t <==> x in s && x != a
    ensures |t| <= |s|
  {
    if s == [] then [] else if s[0] == a then Without(s[1..], a) else [s[0]] + Without(s[1..], a)
  }

  ghost predicate Distinct(s: seq<nat>) {
    forall i, j :: 0 <= i < j < |s| ==> s[i] != s[j]
  }

  /** The distinct lines of a trace, the most recently used one first. */
  function Recency(trace: seq<nat>): seq<nat> {
    if trace == [] then [] else [trace[|trace| - 1]] + Without(Recency(trace[..|trace| - 1]), trace[|trace| - 1])
  }

  lemma {:induction false} RecencyLines(trace: seq<nat>)
    ensures Distinct(Recency(trace))
    ensures forall x :: x in Recency(trace) <==> x in trace
  {
    if trace != [] {
      var earlier, a := trace[..|trace| - 1], trace[|trace| - 1];
      RecencyLines(earlier);
      DistinctWithout(Recency(earlier), a);
      assert trace == earlier + [a];
    }
  }

  lemma {:induction false} WithoutAbsent(s: seq<nat>, a: nat)
    requires a !in s
    ensures Without(s, a) == s
  {
    if s != [] {
      WithoutAbsent(s[1..], a);
    }
  }

  lemma {:induction false} WithoutPresent(s: seq<nat>, a: nat)
    requires Distinct(s) && a in s
    ensures Without(s, a) == Cut(s, IndexOf(s, a))
  {
    if s[0] == a {
      WithoutAbsent(s[1..], a);
    } else {
      WithoutPresent(s[1..], a);
      var i := IndexOf(s[1..], a);
      assert s[1..][..i] == s[1..i + 1] && s[1..][i + 1..] == s[i + 2..];
      assert [s[0]] + s[1..i + 1] == s[..i + 1];
    }
  }

  lemma DistinctWithout(s: seq<nat>, a: nat)
    requires Distinct(s)
    ensures Distinct(Without(s, a))
    ensures a in s ==> Without(s, a) == Cut(s, IndexOf(s, a))
    ensures a !in s ==> Without(s, a) == s
  {
    hide Without;
    if a in s {
      WithoutPresent(s, a);
    } else {
      WithoutAbsent(s, a);
    }
  }

  /** The position of the last use. */
  function LastUse(trace: seq<nat>, a: nat): (i: nat)
    requires a in trace
    ensures i < |trace| && trace[i] == a && a !in trace[i + 1..]
  {
    if trace[|trace| - 1] == a then |trace| - 1 else LastUse(trace[..|trace| - 1], a)
  }

  /** Where a line stood before the last access of the trace brought another one to the head. */
  function Prior(r: seq<nat>, a: nat, i: nat): nat
    requires i > 0
  {
    if a in r && i > IndexOf(r, a) then i else i - 1
  }

  lemma RecencyPrior(trace: seq<nat>, i: nat)
    requires 0 < i < |Recency(trace)|
    ensures var (earlier, a) := (trace[..|trace| - 1], trace[|trace| - 1]);
            var k := Prior(Recency(earlier), a, i);
            k < |Recency(earlier)| && Recency(earlier)[k] == Recency(trace)[i] != a
  {
    var r, a := Recency(trace[..|trace| - 1]), trace[|trace| - 1];
    RecencyLines(trace[..|trace| - 1]);
    DistinctWithout(r, a);
    hide Without;
  }

  /** Recency is the order by last use. */
  lemma {:induction false} RecencyOrder(trace: seq<nat>, i: nat, j: nat)
    requires i < j < |Recency(trace)|
    ensures Recency(trace)[i] in trace && Recency(trace)[j] in trace
    ensures LastUse(trace, Recency(trace)[i]) > LastUse(trace, Recency(trace)[j])
    decreases |trace|
  {
    var earlier, a := trace[..|trace| - 1], trace[|trace| - 1];
    var r := Recency(earlier);
    RecencyLines(trace);
    RecencyPrior(trace, j);
    LastUseEarlier(trace, Recency(trace)[j]);
    LastUseEarlier(trace, Recency(trace)[i]);
    if i > 0 {
      RecencyPrior(trace, i);
      hide Without, Distinct, LastUse, IndexOf, Recency;
      RecencyOrder(earlier, Prior(r, a, i), Prior(r, a, j));
    }
  }

  lemma LastUseEarlier(trace: seq<nat>, x: nat)
    requires x in trace
    ensures var last := |trace| - 1;
            if x == trace[last] then LastUse(trace, x) == last
            else x in trace[..last] && LastUse(trace, x) == LastUse(trace[..last], x) < last
  {
  }

  /** The line in a way: lines fill the ways from the head, and 0 marks a way not used yet. */
  function At(lines: seq<nat>, way: nat): nat {
    if way < |lines| then lines[way] else 0
  }

  /** What a set of the given number of ways holds: the most recent lines. */
  function Resident(ways: nat, trace: seq<nat>): seq<nat> {
    Top(ways, Recency(trace))
  }

  function Top(ways: nat, lines: seq<nat>): (s: seq<nat>)
    ensures |s| == ways
    ensures forall w :: 0 <= w < ways ==> s[w] == At(lines, w)
  {
    seq(ways, w requires w >= 0 => At(lines, w))
  }

  /** The line is among the most recent ones that fit, or it is 0 while there are unused ways. */
  ghost predicate Hits(ways: nat, trace: seq<nat>, a: nat) {
    var r := Recency(trace);
    (a in r && IndexOf(r, a) < ways) || (a == 0 && |r| < ways)
  }

  /** Inserting the next line keeps the set's contents right, whatever the line, the marker value 0 included. */
  lemma InsertKeepsResident(ways: nat, trace: seq<nat>, a: nat)
    requires ways > 0
    ensures Insert(Resident(ways, trace), a) == Resident(ways, trace + [a])
    ensures a in Resident(ways, trace) <==> Hits(ways, trace, a)
  {
    assert (trace + [a])[..|trace|] == trace;
    RecencyLines(trace);
    hide Without, Distinct, Top;
    DistinctWithout(Recency(trace), a);
    if a in Recency(trace) {
      InsertKnown(ways, Recency(trace), a, IndexOf(Recency(trace), a));
    } else {
      InsertNew(ways, Recency(trace), a);
    }
  }

  lemma InsertKnown(ways: nat, r: seq<nat>, a: nat, i: nat)
    requires ways > 0 && Distinct(r) && i < |r| && r[i] == a
    ensures a in Top(ways, r) <==> i < ways || (a == 0 && |r| < ways)
    ensures Insert(Top(ways, r), a) == Top(ways, [a] + Cut(r, i))
  {
    var s := Top(ways, r);
    if i < ways {
      assert s[i] == a;
      FirstIs(s, a, i);
      SameTop([a] + Cut(s, i), [a] + Cut(r, i));
    } else {
      assert a !in s;
      SameTop([a] + s[..ways - 1], [a] + Cut(r, i));
    }
  }

  lemma InsertNew(ways: nat, r: seq<nat>, a: nat)
    requires ways > 0 && a !in r
    ensures a in Top(ways, r) <==> a == 0 && |r| < ways
    ensures Insert(Top(ways, r), a) == Top(ways, [a] + r)
  {
    var s := Top(ways, r);
    if a == 0 && |r| < ways {
      assert s[|r|] == a;
      FirstIs(s, a, |r|);
      SameTop([a] + Cut(s, |r|), [a] + r);
    } else {
      assert a !in s;
      SameTop([a] + s[..ways - 1], [a] + r);
    }
  }

  lemma SameTop(s: seq<nat>, lines: seq<nat>)
    requires forall w :: 0 <= w < |s| ==> s[w] == At(lines, w)
    ensures s == Top(|s|, lines)
  {
  }

  lemma {:induction false} FirstIs(s: seq<nat>, a: nat, i: nat)
    requires i < |s| && s[i] == a && forall j :: 0 <= j < i ==> s[j] != a
    ensures a in s && IndexOf(s, a) == i
  {
    if i > 0 {
      FirstIs(s[1..], a, i - 1);
    }
  }

  // ---------- the whole cache ----------

  datatype Geometry = Geometry(sets: nat, ways: nat, lineSize: nat) {
    ghost predicate Valid() {
      sets > 0 && ways > 0 && lineSize > 0
    }

    /** addr & ~(CL - 1) */
    function Line(addr: nat): nat
      requires lineSize > 0
    {
      addr - addr % lineSize
    }

    /** (addr >> cl_shift) & (SET - 1) */
    function SetOf(addr: nat): (i: nat)
      requires sets > 0 && lineSize > 0
      ensures i < sets
    {
      addr / lineSize % sets
    }
  }

  /** The lines of a trace of addresses that fall into one set. */
  function SetTrace(g: Geometry, trace: seq<nat>, i: nat): seq<nat>
    requires g.Valid()
  {
    if trace == [] then [] else
      var earlier, addr := SetTrace(g, trace[..|trace| - 1], i), trace[|trace| - 1];
      if g.SetOf(addr) == i then earlier + [g.Line(addr)] else earlier
  }

  /** The number of accesses whose line is not among the lines its set should hold at that time. */
  ghost function Misses(g: Geometry, trace: seq<nat>): nat
    requires g.Valid()
  {
    if trace == [] then 0 else
      var earlier, addr := trace[..|trace| - 1], trace[|trace| - 1];
      Misses(g, earlier) + if Hits(g.ways, SetTrace(g, earlier, g.SetOf(addr)), g.Line(addr)) then 0 else 1
  }

  /** The first access ever is a miss exactly if its line is not 0: 0 also marks the unused ways, so line 0 is found in
      an empty set. */
  lemma FirstAccess(g: Geometry, addr: nat)
    requires g.Valid()
    ensures Misses(g, [addr]) == 0 <==> addr < g.lineSize
  {
    assert [addr][..0] == [];
    if addr >= g.lineSize {
      assert g.Line(addr) != 0;
    }
  }

  /** The address q * sets + i lines and off bytes up lies in set i, and its line is where that line begins:
      neighbouring lines go to neighbouring sets, and all bytes of a line to the same one. */
  lemma Placement(g: Geometry, q: nat, i: nat, off: nat)
    requires g.Valid() && i < g.sets && off < g.lineSize
    ensures g.SetOf((q * g.sets + i) * g.lineSize + off) == i
    ensures g.Line((q * g.sets + i) * g.lineSize + off) == (q * g.sets + i) * g.lineSize
  {
    DivMod(q * g.sets + i, g.lineSize, off);
    DivMod(q, g.sets, i);
  }

  lemma DivMod(q: nat, n: nat, r: nat)
    requires r < n
    ensures (q * n + r) / n == q && (q * n + r) % n == r
  {
    var x := q * n + r;
    assert x == x / n * n + x % n;
    if x / n < q {
      Multiples(x / n + 1, q, n);
    } else if x / n > q {
      Multiples(q + 1, x / n, n);
    }
  }

  lemma Multiples(a: nat, b: nat, n: nat)
    requires a <= b
    ensures a * n <= b * n
  {
  }

  /** Two addresses have the same line exactly if they differ in their last bits only, and then the same set. */
  lemma SameLine(g: Geometry, a: nat, b: nat)
    requires g.Valid()
    ensures g.Line(a) == g.Line(b) <==> a / g.lineSize == b / g.lineSize
    ensures g.Line(a) == g.Line(b) ==> g.SetOf(a) == g.SetOf(b)
    ensures g.Line(a) <= a < g.Line(a) + g.lineSize
  {
    assert g.Line(a) == a / g.lineSize * g.lineSize && g.Line(b) == b / g.lineSize * g.lineSize;
    DivMod(a / g.lineSize, g.lineSize, 0);
    DivMod(b / g.lineSize, g.lineSize, 0);
  }

  /** Right after an access its whole line is in the cache: another access to it is no miss. */
  lemma RepeatHits(g: Geometry, trace: seq<nat>, a: nat, b: nat)
    requires g.Valid() && a / g.lineSize == b / g.lineSize
    ensures Misses(g, trace + [a, b]) == Misses(g, trace + [a])
  {
    SameLine(g, a, b);
    var once := trace + [a];
    assert (trace + [a, b])[..|once|] == once && (trace + [a, b])[|once|] == b;
    assert once[..|trace|] == trace;
    var lines := SetTrace(g, once, g.SetOf(b));
    assert lines == SetTrace(g, trace, g.SetOf(b)) + [g.Line(b)];
    assert Recency(lines)[0] == g.Line(b);
    assert Hits(g.ways, lines, g.Line(b));
  }

  /** An access is a miss exactly if its line is not among the lines its set should hold at that time. */
  lemma CountsMiss(g: Geometry, trace: seq<nat>, a: nat)
    requires g.Valid()
    ensures Misses(g, trace + [a]) == Misses(g, trace)
         + if g.Line(a) in Resident(g.ways, SetTrace(g, trace, g.SetOf(a))) then 0 else 1
  {
    assert (trace + [a])[..|trace|] == trace;
    InsertKeepsResident(g.ways, SetTrace(g, trace, g.SetOf(a)), g.Line(a));
  }

  /** With more ways every set holds what it held, in the same places, and more; there are never more misses. */
  lemma {:induction false} MoreWays(g: Geometry, more: nat, trace: seq<nat>, i: nat)
    requires g.Valid() && more >= g.ways
    ensures Resident(g.ways, SetTrace(g, trace, i)) == Resident(more, SetTrace(g.(ways := more), trace, i))[..g.ways]
    ensures Misses(g.(ways := more), trace) <= Misses(g, trace)
    decreases |trace|
  {
    SameSetTrace(g, more, trace, i);
    if trace != [] {
      var earlier, addr := trace[..|trace| - 1], trace[|trace| - 1];
      MoreWays(g, more, earlier, i);
      SameSetTrace(g, more, earlier, g.SetOf(addr));
    }
  }

  lemma {:induction false} SameSetTrace(g: Geometry, more: nat, trace: seq<nat>, i: nat)
    requires g.Valid() && more >= g.ways
    ensures SetTrace(g.(ways := more), trace, i) == SetTrace(g, trace, i)
    decreases |trace|
  {
    if trace != [] {
      SameSetTrace(g, more, trace[..|trace| - 1], i);
    }
  }

  ghost predicate IsRow(g: Geometry, trace: seq<nat>, i: nat, row: seq<nat>)
    requires g.Valid()
  {
    row == Resident(g.ways, SetTrace(g, trace, i))
  }

  lemma RowNext(g: Geometry, trace: seq<nat>, addr: nat, i: nat, row: seq<nat>)
    requires g.Valid() && IsRow(g, trace, i, row)
    ensures row != [] && IsRow(g, trace + [addr], i, if i == g.SetOf(addr) then Insert(row, g.Line(addr)) else row)
    ensures i == g.SetOf(addr) ==>
              Misses(g, trace + [addr]) == Misses(g, trace) + if g.Line(addr) in row then 0 else 1
  {
    assert (trace + [addr])[..|trace|] == trace;
    InsertKeepsResident(g.ways, SetTrace(g, trace, i), g.Line(addr));
  }

  /** The line at the head and n lines moved back is the insertion: if the line was in way n, or nowhere and the last
      one goes. */
  lemma MovedRow(before: seq<nat>, after: seq<nat>, addr: nat, n: nat)
    requires |after| == |before| > n && addr !in before[..n] && (before[n] == addr || n == |before| - 1)
    requires forall w {:trigger after[w]} :: 0 <= w < |after| ==>
               after[w] == if w == 0 then addr else if w <= n then before[w - 1] else before[w]
    ensures after == Insert(before, addr)
  {
    if before[n] == addr {
      FirstIs(before, addr, n);
      assert after == [addr] + Cut(before, n);
    } else {
      assert before == before[..n] + [before[n]];
      assert after == [addr] + before[..n];
    }
  }

  class Cache {
    const geometry: Geometry
    const clSets: array2<nat>
    var missCount: nat
    ghost var trace: seq<nat>

    function Row(i: nat): (s: seq<nat>)
      requires i < clSets.Length0
      reads clSets
      ensures |s| == clSets.Length1 && forall w :: 0 <= w < |s| ==> s[w] == clSets[i, w]
    {
      seq(clSets.Length1, w requires 0 <= w < clSets.Length1 reads clSets => clSets[i, w])
    }

    /** The sets hold the most recent lines of the whole trace, in order, and the counter is right. */
    ghost predicate Valid()
      reads this, clSets
    {
      && geometry.Valid() && clSets.Length0 == geometry.sets && clSets.Length1 == geometry.ways
      && (forall i :: 0 <= i < geometry.sets ==> IsRow(geometry, trace, i, Row(i)))
      && missCount == Misses(geometry, trace)
    }

    constructor (geometry: Geometry)
      requires geometry.Valid()
      ensures Valid() && this.geometry == geometry && trace == [] && fresh(clSets)
    {
      this.geometry := geometry;
      clSets := new nat[geometry.sets, geometry.ways]((_, _) => 0);
      missCount := 0;
      trace := [];
    }

    /** insert_cl_lru */
    method InsertClLru(address: nat)
      requires Valid()
      modifies this, clSets
      ensures Valid() && trace == old(trace) + [address]
    {
      hide IsRow, Insert, Misses;
      var addr := geometry.Line(address);
      var clIndex := geometry.SetOf(address);
      forall i | 0 <= i < geometry.sets
        ensures IsRow(geometry, trace + [address], i, if i == clIndex then Insert(Row(i), addr) else Row(i))
      {
        RowNext(geometry, trace, address, i, Row(i));
      }
      RowNext(geometry, trace, address, clIndex, Row(clIndex));
      var miss := InsertInSet(clIndex, addr);
      if miss {
        missCount := missCount + 1;
      }
      trace := trace + [address];
    }

    method InsertInSet(clIndex: nat, addr: nat) returns (miss: bool)
      requires clIndex < clSets.Length0 && clSets.Length1 > 0
      modifies clSets
      ensures miss <==> addr !in old(Row(clIndex))
      ensures Row(clIndex) == Insert(old(Row(clIndex)), addr)
      ensures forall i :: 0 <= i < clSets.Length0 && i != clIndex ==> Row(i) == old(Row(i))
    {
      hide Insert, IndexOf, Cut;
      ghost var before := Row(clIndex);
      for i := 0 to clSets.Length1
        invariant addr !in before[..i]
        invariant forall k, w :: 0 <= k < clSets.Length0 && 0 <= w < clSets.Length1 ==>
                    clSets[k, w] == old(clSets[k, w])
      {
        if clSets[clIndex, i] == addr {
          MoveBack(clIndex, i);
          clSets[clIndex, 0] := addr;
          MovedRow(before, Row(clIndex), addr, i);
          return false;
        }
      }
      MoveBack(clIndex, clSets.Length1 - 1);
      clSets[clIndex, 0] := addr;
      MovedRow(before, Row(clIndex), addr, clSets.Length1 - 1);
      return true;
    }

    /** the loops that copy each of the first n lines one way further */
    method MoveBack(clIndex: nat, n: nat)
      requires clIndex < clSets.Length0 && n < clSets.Length1
      modifies clSets
      ensures forall k, w :: 0 <= k < clSets.Length0 && 0 <= w < clSets.Length1 ==>
                clSets[k, w] == old(clSets[k, if k == clIndex && 0 < w <= n then w - 1 else w])
    {
      for j := n downto 0
        invariant forall k, w :: 0 <= k < clSets.Length0 && 0 <= w < clSets.Length1 ==>
                    clSets[k, w] == old(clSets[k, if k == clIndex && j < w <= n then w - 1 else w])
      {
        clSets[clIndex, j + 1] := clSets[clIndex, j];
      }
    }
  }
}
