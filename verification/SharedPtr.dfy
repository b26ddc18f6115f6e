/** The reference-counted pointer of cpp/shared-ptr.cc: handles that share a counter on the heap. Deletion is recorded
    in the object, so that deleting twice, or never, would show. */
module SharedPtr {
  class Object {
    ghost var deletions: nat

    constructor ()
      ensures deletions == 0
    {
      deletions := 0;
    }
  }

  class Counter {
    var value: int

    constructor (value: int)
      ensures this.value == value
    {
      this.value := value;
    }
  }

  class Handle {
    var ptr: Object?
    var refcnt: Counter?

    /** The normal constructor; without an object the handle is empty. */
    constructor (p: Object?)
      ensures ptr == p && (p == null ==> refcnt == null)
      ensures p != null ==> refcnt != null && fresh(refcnt) && refcnt.value == 1
    {
      ptr := p;
      refcnt := null;
      new;
      if p != null {
        refcnt := new Counter(1);
      }
    }

    /** The copy constructor. */
    constructor Copy(sptr: Handle)
      requires sptr.refcnt != null
      modifies sptr.refcnt
      ensures refcnt == sptr.refcnt && ptr == sptr.ptr && refcnt.value == old(sptr.refcnt.value) + 1
    {
      refcnt := sptr.refcnt;
      ptr := sptr.ptr;
      new;
      IncRef();
    }

    method IncRef()
      requires refcnt != null
      modifies refcnt
      ensures refcnt.value == old(refcnt.value) + 1
    {
      refcnt.value := refcnt.value + 1;
    }

    /** delete_ptr */
    method DeletePtr()
      requires refcnt != null ==> ptr != null
      modifies this, refcnt, ptr
      ensures old(refcnt) == null ==> ptr == old(ptr) && refcnt == null
      ensures old(refcnt) != null ==> old(refcnt).value == old(refcnt.value) - 1
      ensures old(refcnt) != null && old(refcnt.value) == 1 ==>
                ptr == null && refcnt == null && old(ptr).deletions == old(ptr.deletions) + 1
      ensures old(refcnt) != null && old(refcnt.value) != 1 ==>
                ptr == old(ptr) && refcnt == old(refcnt) && old(ptr).deletions == old(ptr.deletions)
    {
      if refcnt != null {
        refcnt.value := refcnt.value - 1;
        if refcnt.value == 0 {
          ptr.deletions := ptr.deletions + 1;
          ptr := null;
          refcnt := null;
        }
      }
    }

    /** operator= */
    method Assign(sptr: Handle)
      requires (refcnt != null ==> ptr != null) && (this != sptr ==> sptr.refcnt != null && sptr.ptr != null)
      requires this != sptr && refcnt == sptr.refcnt ==> refcnt.value > 1
      requires this != sptr && ptr == sptr.ptr ==> refcnt == sptr.refcnt
      modifies this, refcnt, ptr, sptr.refcnt
      ensures ptr == old(sptr.ptr) && refcnt == old(sptr.refcnt)
      ensures var same := old(refcnt) == old(sptr.refcnt);
              && (refcnt != null ==> refcnt.value == old(sptr.refcnt.value) + if same then 0 else 1)
              && (old(refcnt) != null && !same ==> old(refcnt).value == old(refcnt.value) - 1)
              && (old(ptr) != null && old(refcnt) != null ==>
                    old(ptr).deletions == old(ptr.deletions) + if !same && old(refcnt.value) == 1 then 1 else 0)
    {
      if this != sptr {
        DeletePtr();
        refcnt := sptr.refcnt;
        ptr := sptr.ptr;
        IncRef();
      }
    }
  }

  // ---------- what the handles and counters hold together ----------

  /** Of every live handle its counter and its object, of every counter its value, and of every object given to the
      normal constructor how often it has been deleted. */
  datatype State = State(refs: map<Handle, Counter?>, ptrs: map<Handle, Object?>, values: map<Counter, int>,
                         deletions: map<Object, nat>)

  ghost function Sharers(s: State, c: Counter): set<Handle> {
    set h | h in s.refs && s.refs[h] == c
  }

  /** The object has a live owner; it has one besides h. */
  ghost predicate Owned(s: State, o: Object) {
    exists h :: h in s.ptrs && s.ptrs[h] == o
  }

  ghost predicate Another(s: State, h: Handle, o: Object) {
    exists g :: g in s.ptrs && g != h && s.ptrs[g] == o
  }

  /** Handles share a counter exactly if they share an object. */
  ghost predicate Linked(s: State) {
    && s.refs.Keys == s.ptrs.Keys
    && (forall h :: h in s.refs ==> (s.refs[h] == null <==> s.ptrs[h] == null))
    && (forall h, g :: h in s.refs && g in s.refs ==> (s.refs[h] == s.refs[g] <==> s.ptrs[h] == s.ptrs[g]))
    && (forall h :: h in s.refs && s.refs[h] != null ==> s.refs[h] in s.values && s.ptrs[h] in s.deletions)
  }

  /** A counter is the number of the handles that share it. */
  ghost predicate Counted(s: State)
    requires Linked(s)
  {
    forall h :: h in s.refs && s.refs[h] != null ==> s.values[s.refs[h]] == |Sharers(s, s.refs[h])|
  }

  /** An object has been deleted once if no handle owns it, and not at all otherwise. */
  ghost predicate DeletedOnce(s: State) {
    forall o :: o in s.deletions ==> s.deletions[o] == if Owned(s, o) then 0 else 1
  }

  ghost predicate Inv(s: State) {
    Linked(s) && Counted(s) && DeletedOnce(s)
  }

  // ---------- what the operations do ----------

  ghost function New(s: State, h: Handle, c: Counter?, p: Object?): State {
    if c == null || p == null then s.(refs := s.refs[h := null], ptrs := s.ptrs[h := null])
    else State(s.refs[h := c], s.ptrs[h := p], s.values[c := 1], s.deletions[p := 0])
  }

  ghost function Share(s: State, h: Handle, g: Handle): State
    requires Linked(s) && g in s.refs && s.refs[g] != null
  {
    var c := s.refs[g];
    s.(refs := s.refs[h := c], ptrs := s.ptrs[h := s.ptrs[g]], values := s.values[c := s.values[c] + 1])
  }

  /** The handle is gone, and with the last one the object. */
  ghost function Drop(s: State, h: Handle): State
    requires Linked(s) && h in s.refs
  {
    var c, p := s.refs[h], s.ptrs[h];
    var rest := s.(refs := s.refs - {h}, ptrs := s.ptrs - {h});
    if c == null then rest
    else rest.(values := s.values[c := s.values[c] - 1],
               deletions := if s.values[c] == 1 then s.deletions[p := s.deletions[p] + 1] else s.deletions)
  }

  lemma OwnedUnless(s: State, h: Handle, o: Object)
    ensures Owned(s, o) <==> (h in s.ptrs && s.ptrs[h] == o) || Another(s, h, o)
  {
  }

  /** There is another owner unless the counter is one. */
  lemma LastOwner(s: State, h: Handle)
    requires Linked(s) && Counted(s) && h in s.refs && s.refs[h] != null
    ensures s.values[s.refs[h]] >= 1
    ensures s.values[s.refs[h]] == 1 <==> !Another(s, h, s.ptrs[h])
  {
    var others := Sharers(s, s.refs[h]) - {h};
    assert Sharers(s, s.refs[h]) == others + {h};
    if g :| g in s.ptrs && g != h && s.ptrs[g] == s.ptrs[h] {
      assert g in others;
    }
    if others != {} {
      var g :| g in others;
      assert s.ptrs[g] == s.ptrs[h];
    }
  }

  lemma NewKeeps(s: State, h: Handle, c: Counter?, p: Object?)
    requires Inv(s) && h !in s.refs && (c == null <==> p == null)
    requires c != null ==> c !in s.values
    requires p != null ==> p !in s.deletions
    ensures Inv(New(s, h, c, p))
  {
    var t := New(s, h, c, p);
    NewCounts(s, h, c, p);
    hide Linked, Counted, Owned;
    forall o | o in t.deletions ensures Owned(t, o) == (o == p || Owned(s, o)) {
      OwnedUnless(s, h, o);
      OwnedUnless(t, h, o);
      SameOthers(s, t, h, o);
    }
    if p != null {
      NotOwned(s, p);
    }
  }

  lemma NotOwned(s: State, o: Object)
    requires Linked(s) && o !in s.deletions
    ensures !Owned(s, o)
  {
  }

  lemma NewLinked(s: State, h: Handle, c: Counter?, p: Object?)
    requires Linked(s) && h !in s.refs && (c == null <==> p == null)
    requires c != null ==> c !in s.values
    requires p != null ==> p !in s.deletions
    ensures Linked(New(s, h, c, p))
  {
  }

  lemma NewCounts(s: State, h: Handle, c: Counter?, p: Object?)
    requires Linked(s) && Counted(s) && h !in s.refs && (c == null <==> p == null)
    requires c != null ==> c !in s.values
    requires p != null ==> p !in s.deletions
    ensures Linked(New(s, h, c, p)) && Counted(New(s, h, c, p))
  {
    NewLinked(s, h, c, p);
    var t := New(s, h, c, p);
    forall g | g in t.refs && t.refs[g] != null ensures t.values[t.refs[g]] == |Sharers(t, t.refs[g])| {
      if g == h {
        assert Sharers(t, c) == {h};
      } else {
        assert Sharers(t, t.refs[g]) == Sharers(s, s.refs[g]);
      }
    }
    hide Linked;
  }

  lemma SameOthers(s: State, t: State, h: Handle, o: Object)
    requires s.ptrs - {h} == t.ptrs - {h}
    ensures Another(s, h, o) == Another(t, h, o)
  {
    forall g | g != h ensures g in s.ptrs && s.ptrs[g] == o <==> g in t.ptrs && t.ptrs[g] == o {
      assert g in s.ptrs <==> g in s.ptrs - {h};
      assert g in t.ptrs <==> g in t.ptrs - {h};
      if g in s.ptrs {
        assert (s.ptrs - {h})[g] == s.ptrs[g] && (t.ptrs - {h})[g] == t.ptrs[g];
      }
    }
  }

  lemma ShareKeeps(s: State, h: Handle, g: Handle)
    requires Inv(s) && h !in s.refs && g in s.refs && s.refs[g] != null
    ensures Inv(Share(s, h, g))
  {
    var c, t := s.refs[g], Share(s, h, g);
    assert Linked(t);
    forall k | k in t.refs && t.refs[k] != null ensures t.values[t.refs[k]] == |Sharers(t, t.refs[k])| {
      if t.refs[k] == c {
        assert Sharers(t, c) == Sharers(s, c) + {h};
      } else {
        assert Sharers(t, t.refs[k]) == Sharers(s, t.refs[k]);
      }
    }
    forall o | o in t.deletions ensures Owned(t, o) == Owned(s, o) {
      OwnedUnless(s, h, o);
      OwnedUnless(t, h, o);
      SameOthers(s, t, h, o);
    }
  }

  lemma DropKeeps(s: State, h: Handle)
    requires Inv(s) && h in s.refs
    ensures Inv(Drop(s, h))
    ensures forall o :: o in s.deletions ==>
              Drop(s, h).deletions[o] == s.deletions[o] + if s.ptrs[h] == o && !Another(s, h, o) then 1 else 0
  {
    var c, t := s.refs[h], Drop(s, h);
    assert Linked(t);
    if c != null {
      LastOwner(s, h);
    }
    forall k | k in t.refs && t.refs[k] != null ensures t.values[t.refs[k]] == |Sharers(t, t.refs[k])| {
      assert Sharers(t, t.refs[k]) == Sharers(s, t.refs[k]) - {h};
      if t.refs[k] == c {
        assert h in Sharers(s, c);
      }
    }
    forall o | o in t.deletions ensures Owned(t, o) == Another(s, h, o) {
      OwnedUnless(s, h, o);
      OwnedUnless(t, h, o);
      SameOthers(s, t, h, o);
    }
    forall o | o in t.deletions ensures Owned(s, o) == (s.ptrs[h] == o || Another(s, h, o)) {
      OwnedUnless(s, h, o);
    }
  }

  /** operator=, as a step */
  ghost function Reassign(s: State, h: Handle, g: Handle): State
    requires Inv(s) && h in s.refs && g in s.refs && (h != g ==> s.refs[g] != null)
  {
    if h == g then s
    else
      DropKeeps(s, h);
      Share(Drop(s, h), h, g)
  }

  /** Assignment deletes the object that loses its last owner, and no other one: between owners of the same object
      nothing is deleted. */
  lemma ReassignKeeps(s: State, h: Handle, g: Handle)
    requires Inv(s) && h in s.refs && g in s.refs && (h != g ==> s.refs[g] != null)
    ensures Inv(Reassign(s, h, g))
    ensures s.ptrs[h] == s.ptrs[g] ==> Reassign(s, h, g).deletions == s.deletions
    ensures forall o :: o in s.deletions ==>
              Reassign(s, h, g).deletions[o]
              == s.deletions[o] + if s.ptrs[h] == o && h != g && !Another(s, h, o) then 1 else 0
  {
    if h != g {
      DropKeeps(s, h);
      ShareKeeps(Drop(s, h), h, g);
      if s.ptrs[h] == s.ptrs[g] {
        assert Another(s, h, s.ptrs[h]);
        assert Drop(s, h).deletions == s.deletions;
      }
    }
  }

  // ---------- programs ----------

  /** A program and everything it has made. The state records what the heap holds, which Matches says. */
  class Program {
    ghost var state: State

    ghost predicate Matches()
      reads this, state.refs.Keys, state.values.Keys, state.deletions.Keys
    {
      && (forall h :: h in state.refs ==> h in state.ptrs && h.refcnt == state.refs[h] && h.ptr == state.ptrs[h])
      && (forall c :: c in state.values ==> c.value == state.values[c])
      && (forall o :: o in state.deletions ==> o.deletions == state.deletions[o])
    }

    ghost predicate Valid()
      reads this, state.refs.Keys, state.values.Keys, state.deletions.Keys
    {
      Inv(state) && Matches()
    }

    constructor ()
      ensures Valid() && state == State(map[], map[], map[], map[])
    {
      state := State(map[], map[], map[], map[]);
    }

    method Construct(p: Object?) returns (h: Handle)
      requires Valid() && (p != null ==> p !in state.deletions && p.deletions == 0)
      modifies this
      ensures Valid() && fresh(h) && h.ptr == p && state == New(old(state), h, h.refcnt, p)
    {
      hide Inv;
      h := new Handle(p);
      NewKeeps(state, h, h.refcnt, p);
      state := New(state, h, h.refcnt, p);
    }

    method Copy(g: Handle) returns (h: Handle)
      requires Valid() && g in state.refs && g.refcnt != null
      modifies this, state.values.Keys
      ensures Valid() && fresh(h) && old(Linked(state)) && state == Share(old(state), h, g)
    {
      hide Inv, Linked;
      HandleFacts(state, g);
      h := new Handle.Copy(g);
      ShareKeeps(state, h, g);
      state := Share(state, h, g);
    }

    method Assign(h: Handle, g: Handle)
      requires Valid() && h in state.refs && g in state.refs && (h != g ==> g.refcnt != null)
      modifies this, h, state.values.Keys, state.deletions.Keys
      ensures Valid() && state == Reassign(old(state), h, g)
    {
      hide Inv, Linked, Reassign;
      ReassignKeeps(state, h, g);
      ReassignIs(state, h, g);
      HandleFacts(state, h);
      HandleFacts(state, g);
      if h == g || h.refcnt == g.refcnt {
        h.Assign(g);
      } else {
        AssignOther(h, g);
      }
    }

    /** assignment from a handle of another object: to an empty handle, to the last one of its object, or to one
        that shares its object with others */
    method AssignOther(h: Handle, g: Handle)
      requires Valid() && h in state.refs && g in state.refs && g.refcnt != null && h.refcnt != g.refcnt
      modifies this, h, state.values.Keys, state.deletions.Keys
      ensures Valid() && state == Reassign(old(state), h, g)
    {
      hide Inv, Linked, Reassign;
      HandleFacts(state, h);
      if h.refcnt == null {
        AssignEmpty(h, g);
      } else if h.refcnt.value == 1 {
        AssignLast(h, g);
      } else {
        AssignShared(h, g);
      }
    }

    method AssignEmpty(h: Handle, g: Handle)
      requires Valid() && h in state.refs && g in state.refs && g.refcnt != null && h.refcnt == null
      modifies this, h, state.values.Keys
      ensures Valid() && state == Reassign(old(state), h, g)
    {
      hide Inv, Linked, Reassign;
      ReassignKeeps(state, h, g);
      ReassignIs(state, h, g);
      HandleFacts(state, h);
      HandleFacts(state, g);
      h.Assign(g);
      state := Reassign(state, h, g);
    }

    method AssignLast(h: Handle, g: Handle)
      requires Valid() && h in state.refs && g in state.refs && g.refcnt != null && h.refcnt != g.refcnt
      requires h.refcnt != null && h.refcnt.value == 1
      modifies this, h, state.values.Keys, state.deletions.Keys
      ensures Valid() && state == Reassign(old(state), h, g)
    {
      hide Inv, Linked, Reassign;
      ReassignKeeps(state, h, g);
      ReassignIs(state, h, g);
      HandleFacts(state, h);
      HandleFacts(state, g);
      h.Assign(g);
      state := Reassign(state, h, g);
    }

    method AssignShared(h: Handle, g: Handle)
      requires Valid() && h in state.refs && g in state.refs && g.refcnt != null && h.refcnt != g.refcnt
      requires h.refcnt != null && h.refcnt.value != 1
      modifies this, h, state.values.Keys, state.deletions.Keys
      ensures Valid() && state == Reassign(old(state), h, g)
    {
      hide Inv, Linked, Reassign;
      ReassignKeeps(state, h, g);
      ReassignIs(state, h, g);
      HandleFacts(state, h);
      HandleFacts(state, g);
      h.Assign(g);
      state := Reassign(state, h, g);
    }

    /** The end of a handle's life. */
    method Destroy(h: Handle)
      requires Valid() && h in state.refs
      modifies this, h, state.values.Keys, state.deletions.Keys
      ensures Valid() && state == Drop(old(state), h)
    {
      hide Inv, Linked, Drop;
      HandleFacts(state, h);
      DropKeeps(state, h);
      DropIs(state, h);
      h.DeletePtr();
      state := Drop(state, h);
    }
  }

  lemma DropIs(s: State, h: Handle)
    requires Linked(s) && h in s.refs
    ensures Drop(s, h).refs == s.refs - {h} && Drop(s, h).ptrs == s.ptrs - {h}
    ensures s.refs[h] == null ==> Drop(s, h).values == s.values && Drop(s, h).deletions == s.deletions
    ensures s.refs[h] != null ==> Drop(s, h).values == s.values[s.refs[h] := s.values[s.refs[h]] - 1]
    ensures s.refs[h] != null && s.values[s.refs[h]] != 1 ==> Drop(s, h).deletions == s.deletions
    ensures s.refs[h] != null && s.values[s.refs[h]] == 1 ==>
              Drop(s, h).deletions == s.deletions[s.ptrs[h] := s.deletions[s.ptrs[h]] + 1]
  {
  }

  lemma HandleFacts(s: State, h: Handle)
    requires Inv(s) && h in s.refs
    ensures Linked(s) && h in s.ptrs && (s.refs[h] == null <==> s.ptrs[h] == null)
    ensures s.refs[h] != null ==> s.refs[h] in s.values && s.ptrs[h] in s.deletions && s.values[s.refs[h]] >= 1
    ensures forall g :: g in s.refs ==> g in s.ptrs && (s.refs[g] == s.refs[h] <==> s.ptrs[g] == s.ptrs[h])
    ensures forall g :: g in s.refs && g != h && s.refs[h] != null && s.refs[g] == s.refs[h] ==> s.values[s.refs[h]] > 1
  {
    if s.refs[h] != null {
      LastOwner(s, h);
    }
  }

  /** The state after an assignment, written out. */
  lemma ReassignIs(s: State, h: Handle, g: Handle)
    requires Inv(s) && h in s.refs && g in s.refs && (h != g ==> s.refs[g] != null)
    ensures var (c, t) := (s.refs[h], Reassign(s, h, g));
            h != g && c != s.refs[g] ==>
              && t.refs == s.refs[h := s.refs[g]] && t.ptrs == s.ptrs[h := s.ptrs[g]]
              && (c != null ==>
                    t.deletions == if s.values[c] == 1 then s.deletions[s.ptrs[h] := s.deletions[s.ptrs[h]] + 1]
                                   else s.deletions)
              && (c == null ==> t.deletions == s.deletions)
              && var left := if c == null then s.values else s.values[c := s.values[c] - 1];
                 t.values == left[s.refs[g] := s.values[s.refs[g]] + 1]
    ensures s.refs[h] == s.refs[g] ==> Reassign(s, h, g) == s
  {
    hide Inv, Linked, Drop;
    HandleFacts(s, h);
    HandleFacts(s, g);
    if h != g {
      DropKeeps(s, h);
      DropIs(s, h);
      HandleFacts(Drop(s, h), g);
      Put(s.refs, h, s.refs[g]);
      Put(s.ptrs, h, s.ptrs[g]);
      var t := Reassign(s, h, g);
      assert t.refs == s.refs[h := s.refs[g]];
      assert t.ptrs == s.ptrs[h := s.ptrs[g]];
      if s.refs[h] == s.refs[g] {
        assert t.refs == s.refs && t.ptrs == s.ptrs;
        assert t.values == s.values;
        assert t.deletions == s.deletions;
      }
    }
  }

  lemma Put<K, V>(m: map<K, V>, k: K, v: V)
    ensures (m - {k})[k := v] == m[k := v]
  {
  }
}
