/** The counting sorts of cpp/sort-range.cc and cpp/sort.cc, which fill an index array, against stable sorting. */
module CountSort {
  // ---------- stable order ----------

  ghost predicate Before(a: seq<int>, i: nat, j: nat)
    requires i < |a| && j < |a|
  {
    a[i] < a[j] || (a[i] == a[j] && i < j)
  }

  /** What std::stable_sort makes of the indices 0, 1, ... : by key, equal keys by index. */
  ghost predicate StableOrder(a: seq<int>, idx: seq<nat>) {
    && |idx| == |a|
    && (forall p :: 0 <= p < |idx| ==> idx[p] < |a|)
    && forall p, q :: 0 <= p < q < |idx| ==> Before(a, idx[p], idx[q])
  }

  function Range(n: nat): (s: set<nat>)
    ensures forall x :: x in s <==> 0 <= x < n
    ensures |s| == n
  {
    if n == 0 then {} else Range(n - 1) + {n - 1}
  }

  function Image(s: seq<nat>): (r: set<nat>)
    ensures forall x :: x in r <==> x in s
  {
    if s == [] then {} else Image(s[..|s| - 1]) + {s[|s| - 1]}
  }

  /** n distinct numbers below n are all of them. */
  lemma {:induction false} Pigeonhole(s: seq<nat>, n: nat)
    requires |s| == n && forall p :: 0 <= p < n ==> s[p] < n
    requires forall p, q :: 0 <= p < q < n ==> s[p] != s[q]
    ensures forall x :: 0 <= x < n ==> x in s
  {
    ImageSize(s);
    SubsetSize(Image(s), Range(n));
  }

  lemma {:induction false} ImageSize(s: seq<nat>)
    requires forall p, q :: 0 <= p < q < |s| ==> s[p] != s[q]
    ensures |Image(s)| == |s|
  {
    if s != [] {
      ImageSize(s[..|s| - 1]);
    }
  }

  lemma SubsetSize(s: set<nat>, t: set<nat>)
    requires s <= t && |s| == |t|
    ensures s == t
  {
    if x :| x in t && x !in s {
      SizeMonotone(s, t - {x});
    }
  }

  lemma {:induction false} SizeMonotone(s: set<nat>, t: set<nat>)
    requires s <= t
    ensures |s| <= |t|
    decreases s
  {
    if x :| x in s {
      SizeMonotone(s - {x}, t - {x});
    }
  }

  /** A stable order is a permutation of the indices. */
  lemma StableIsPermutation(a: seq<int>, idx: seq<nat>)
    requires StableOrder(a, idx)
    ensures forall i :: 0 <= i < |a| ==> i in idx
    ensures forall p, q :: 0 <= p < q < |idx| ==> idx[p] != idx[q]
  {
    Pigeonhole(idx, |a|);
  }

  /** There is one stable order only, so every stable sort gives the same indices. */
  lemma StableUnique(a: seq<int>, s: seq<nat>, t: seq<nat>)
    requires StableOrder(a, s) && StableOrder(a, t)
    ensures s == t
  {
    StablePrefix(a, s, t, |a|);
  }

  lemma {:induction false} StablePrefix(a: seq<int>, s: seq<nat>, t: seq<nat>, p: nat)
    requires StableOrder(a, s) && StableOrder(a, t) && p <= |a|
    ensures s[..p] == t[..p]
  {
    if p > 0 {
      StablePrefix(a, s, t, p - 1);
      StableIsPermutation(a, s);
      StableIsPermutation(a, t);
      forall k | 0 <= k < p - 1 ensures s[k] == t[k] {
        assert s[..p - 1][k] == t[..p - 1][k];
      }
      assert s[p - 1] in t && t[p - 1] in s;
      var q :| 0 <= q < |t| && t[q] == s[p - 1];
      var r :| 0 <= r < |s| && s[r] == t[p - 1];
    }
  }

  // ---------- ranks ----------

  /** How many of the keys are below v, and how many equal v. */
  function Below(a: seq<int>, v: int): (n: nat)
    ensures n <= |a|
  {
    if a == [] then 0 else Below(a[..|a| - 1], v) + if a[|a| - 1] < v then 1 else 0
  }

  function Equal(a: seq<int>, v: int): nat {
    if a == [] then 0 else Equal(a[..|a| - 1], v) + if a[|a| - 1] == v then 1 else 0
  }

  function Rank(a: seq<int>, i: nat): nat
    requires i < |a|
  {
    Below(a, a[i]) + Equal(a[..i], a[i])
  }

  lemma {:induction false} BelowNext(a: seq<int>, v: int)
    ensures Below(a, v + 1) == Below(a, v) + Equal(a, v)
  {
    if a != [] {
      BelowNext(a[..|a| - 1], v);
    }
  }

  lemma {:induction false} BelowMonotone(a: seq<int>, v: int, w: int)
    requires v <= w
    ensures Below(a, v) <= Below(a, w)
  {
    if a != [] {
      BelowMonotone(a[..|a| - 1], v, w);
    }
  }

  lemma {:induction false} EqualGrows(a: seq<int>, i: nat, j: nat)
    requires i < j <= |a|
    ensures Equal(a[..i], a[i]) < Equal(a[..j], a[i])
    decreases j
  {
    assert a[..j][..j - 1] == a[..j - 1];
    if i < j - 1 {
      EqualGrows(a, i, j - 1);
    }
  }

  /** Ranks are places, and ordered like the keys. */
  lemma RankOrder(a: seq<int>, i: nat, j: nat)
    requires i < |a| && j < |a|
    ensures Rank(a, i) < |a|
    ensures Before(a, i, j) ==> Rank(a, i) < Rank(a, j)
  {
    assert a[..|a|] == a;
    EqualGrows(a, i, |a|);
    BelowNext(a, a[i]);
    if a[i] < a[j] {
      BelowMonotone(a, a[i] + 1, a[j]);
    } else if i < j {
      EqualGrows(a, i, j);
    }
  }

  /** Putting every index at its rank gives the stable order. */
  lemma RanksSort(a: seq<int>, idx: seq<nat>)
    requires |idx| == |a|
    requires forall i :: 0 <= i < |a| ==> Rank(a, i) < |a| && idx[Rank(a, i)] == i
    ensures StableOrder(a, idx)
  {
    var ranks := seq(|a|, i requires 0 <= i < |a| => Rank(a, i));
    forall i, j | 0 <= i < j < |a| ensures ranks[i] != ranks[j] {
      assert idx[Rank(a, i)] == i && idx[Rank(a, j)] == j;
    }
    Pigeonhole(ranks, |a|);
    forall p | 0 <= p < |idx| ensures idx[p] < |a| && Rank(a, idx[p]) == p {
      assert p in ranks;
      var i :| 0 <= i < |ranks| && ranks[i] == p;
    }
    forall p, q | 0 <= p < q < |idx| ensures Before(a, idx[p], idx[q]) {
      RankOrder(a, idx[q], idx[p]);
      assert Rank(a, idx[p]) == p && Rank(a, idx[q]) == q;
    }
  }

  // ---------- the loop that both programs end with ----------

  ghost predicate Placed(a: seq<int>, idx: seq<nat>, i: nat)
    requires i <= |a|
  {
    forall k :: 0 <= k < i ==> Rank(a, k) < |idx| && idx[Rank(a, k)] == k
  }

  /** idx[cnt[array[i] - min]++] = i: all writes in bounds, and the result is the stable order. */
  method Place(a: seq<int>, cnt: array<nat>, min: int, idx: array<nat>)
    requires idx.Length == |a| && idx != cnt
    requires forall k :: 0 <= k < |a| ==> 0 <= a[k] - min < cnt.Length && cnt[a[k] - min] == Below(a, a[k])
    modifies cnt, idx
    ensures StableOrder(a, idx[..])
  {
    hide Below, Equal, Rank;
    EqualNone(a);
    for i := 0 to idx.Length
      invariant forall k :: 0 <= k < |a| ==> cnt[a[k] - min] == Below(a, a[k]) + Equal(a[..i], a[k])
      invariant Placed(a, idx[..], i)
    {
      RankIs(a, i);
      RankOrder(a, i, i);
      forall k | 0 <= k < |a|
        ensures Equal(a[..i + 1], a[k]) == Equal(a[..i], a[k]) + if a[i] == a[k] then 1 else 0
        ensures k < i ==> Rank(a, k) != Rank(a, i)
      {
        EqualSnoc(a, i, a[k]);
        RankOrder(a, i, k);
        RankOrder(a, k, i);
      }
      var place := cnt[a[i] - min];
      cnt[a[i] - min] := place + 1;
      idx[place] := i;
    }
    hide StableOrder;
    RanksSort(a, idx[..]);
  }

  lemma EqualNone(a: seq<int>)
    ensures forall v :: Equal(a[..0], v) == 0
  {
  }

  lemma EqualSnoc(a: seq<int>, i: nat, v: int)
    requires i < |a|
    ensures Equal(a[..i + 1], v) == Equal(a[..i], v) + if a[i] == v then 1 else 0
  {
    assert a[..i + 1][..i] == a[..i];
  }

  lemma RankIs(a: seq<int>, i: nat)
    requires i < |a|
    ensures Rank(a, i) == Below(a, a[i]) + Equal(a[..i], a[i])
  {
  }

  // ---------- cpp/sort-range.cc ----------

  const LONG_MAX := 0x7FFF_FFFF_FFFF_FFFF
  const LONG_MIN := -0x8000_0000_0000_0000

  /** The keys are of type long, and so is the size of their range: it must not overflow. */
  ghost predicate RangeFits(a: seq<int>) {
    && (forall i :: 0 <= i < |a| ==> LONG_MIN <= a[i] <= LONG_MAX)
    && forall i, j :: 0 <= i < |a| && 0 <= j < |a| ==> a[i] - a[j] < LONG_MAX
  }

  method CountSortRange(a: seq<int>, idx: array<nat>)
    requires a != [] && RangeFits(a) && idx.Length == |a|
    modifies idx
    ensures StableOrder(a, idx[..])
  {
    var min, max := Extremes(a);
    var valueRange := max - min + 1;
    assert 0 < valueRange <= LONG_MAX;
    var cnt := new nat[1 + valueRange](_ => 0);
    CountAndSum(a, min, cnt);
    Place(a, cnt, min, idx);
  }

  method Extremes(a: seq<int>) returns (min: int, max: int)
    requires a != [] && RangeFits(a)
    ensures min in a && max in a && forall k :: 0 <= k < |a| ==> min <= a[k] <= max
  {
    min, max := LONG_MAX, LONG_MIN;
    for i := 0 to |a|
      invariant forall k :: 0 <= k < i ==> min <= a[k] <= max
      invariant if i > 0 then min in a && max in a else min == LONG_MAX && max == LONG_MIN
    {
      min := if a[i] < min then a[i] else min;
      max := if max < a[i] then a[i] else max;
    }
  }

  /** the counts, one slot further than their keys, and the prefix sums */
  method CountAndSum(a: seq<int>, min: int, cnt: array<nat>)
    requires cnt.Length > 0 && forall v :: 0 <= v < cnt.Length ==> cnt[v] == 0
    requires forall k :: 0 <= k < |a| ==> 0 <= a[k] - min < cnt.Length - 1
    modifies cnt
    ensures forall v :: 0 <= v < cnt.Length ==> cnt[v] == Below(a, v + min)
  {
    hide Below, Equal;
    EqualNone(a);
    for i := 0 to |a|
      invariant cnt[0] == 0
      invariant forall v :: 1 <= v < cnt.Length ==> cnt[v] == Equal(a[..i], v - 1 + min)
    {
      EqualNext(a, i);
      cnt[a[i] - min + 1] := cnt[a[i] - min + 1] + 1;
    }
    assert a[..|a|] == a;
    BelowMin(a, min);
    for i := 1 to cnt.Length
      invariant forall v :: 0 <= v < i ==> cnt[v] == Below(a, v + min)
      invariant forall v :: i <= v < cnt.Length ==> cnt[v] == Equal(a, v - 1 + min)
    {
      BelowNext(a, i - 1 + min);
      cnt[i] := cnt[i] + cnt[i - 1];
    }
  }

  lemma EqualNext(a: seq<int>, i: nat)
    requires i < |a|
    ensures forall v :: Equal(a[..i + 1], v) == Equal(a[..i], v) + if a[i] == v then 1 else 0
  {
    forall v ensures Equal(a[..i + 1], v) == Equal(a[..i], v) + if a[i] == v then 1 else 0 {
      EqualSnoc(a, i, v);
    }
  }

  lemma {:induction false} BelowMin(a: seq<int>, min: int)
    requires forall k :: 0 <= k < |a| ==> min <= a[k]
    ensures Below(a, min) == 0
  {
    if a != [] {
      BelowMin(a[..|a| - 1], min);
    }
  }

  // ---------- cpp/sort.cc ----------

  /** Keys are bytes, and the exclusive prefix sums are made in place. The index type is 32 bits wide. */
  method CountSortBytes(a: seq<int>, idx: array<nat>)
    requires forall i :: 0 <= i < |a| ==> 0 <= a[i] < 256
    requires idx.Length == |a| < 0x1_0000_0000
    modifies idx
    ensures StableOrder(a, idx[..])
  {
    hide Below, Equal;
    var cnt := new nat[256](_ => 0);
    EqualNone(a);
    for i := 0 to |a|
      invariant forall v :: 0 <= v < 256 ==> cnt[v] == Equal(a[..i], v)
    {
      EqualNext(a, i);
      cnt[a[i]] := cnt[a[i]] + 1;
    }
    assert a[..|a|] == a;
    BelowMin(a, 0);
    var save, prev := cnt[0], 0;
    cnt[0] := 0;
    for i := 1 to 256
      invariant prev == Below(a, i - 1) && save == Equal(a, i - 1)
      invariant forall v :: 0 <= v < i ==> cnt[v] == Below(a, v)
      invariant forall v :: i <= v < 256 ==> cnt[v] == Equal(a, v)
    {
      BelowNext(a, i - 1);
      prev := prev + save;
      save := cnt[i];
      cnt[i] := prev;
    }
    Place(a, cnt, 0, idx);
  }
}
