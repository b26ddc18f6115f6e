/** A run in which the queue head sets the locked byte while the pending byte is set: against the comment of set_locked
    in qspinlock/qspinlock.c, the pending byte is still set afterwards. */
module QSpinlockExample {
  import opened Options
  import opened QSpinlock
  import opened QSpinlockInv
  import opened QSpinlockSteps
  import opened QSpinlockRuns

  // Thread 0 holds the lock first, thread 1 is pending after it, thread 2 queues, and thread 3 has seen the word
  // without contention and is about to set the pending bit.

  /** Thread 0 acquires; threads 3 and 1 see the lock held and go for the pending bit, and thread 1 gets it. */
  const FIRST := [Event(0, Lock), Event(0, Nothing), Event(3, Lock), Event(3, Nothing), Event(1, Lock),
                  Event(1, Nothing), Event(1, Nothing)]

  /** Thread 2 sees the pending bit and queues. */
  const SECOND := [Event(2, Lock), Event(2, Nothing), Event(2, Nothing), Event(2, Nothing), Event(2, Nothing),
                   Event(2, Nothing), Event(2, Nothing)]

  /** Threads 0 and 1 have had the lock; thread 2 finds it free; only then thread 3 sets the pending bit, and the head's
      exchange fails. */
  const THIRD := [Event(0, Nothing), Event(1, Nothing), Event(1, Nothing), Event(1, Nothing), Event(2, Nothing),
                  Event(3, Nothing), Event(2, Nothing)]

  lemma {:induction false} RunConcat(s: State, a: seq<Event>, b: seq<Event>)
    requires Inv(s) && Schedule(a, |s.pcs|) && Schedule(b, |s.pcs|)
    ensures Schedule(a + b, |s.pcs|) && Run(s, a + b) == Run(Run(s, a), b)
    decreases |a|
  {
    hide Inv, Next;
    if a == [] {
      assert a + b == b;
    } else {
      assert (a + b)[0] == a[0] && (a + b)[1..] == a[1..] + b;
      RunConcat(Next(s, a[0]), a[1..], b);
    }
  }

  /** The i-th step of a schedule: where it leads, and what is left. */
  lemma Go(s: State, sched: seq<Event>, i: nat, word: Word, pc: Pc) returns (s': State)
    requires Inv(s) && Schedule(sched, |s.pcs|) && i < |sched|
    requires Step(s, sched[i].tid, sched[i].call).word == word
    requires Step(s, sched[i].tid, sched[i].call).pcs == s.pcs[sched[i].tid := pc]
    ensures Inv(s') && s'.word == word && s'.pcs == s.pcs[sched[i].tid := pc]
    ensures Run(s, sched[i..]) == Run(s', sched[i + 1..])
  {
    hide Inv, Step;
    s' := Next(s, sched[i]);
    assert sched[i..][1..] == sched[i + 1..];
  }

  /** From s with the schedule's part from i on one comes to where r comes with the part from j on. */
  ghost predicate Leads(s: State, sched: seq<Event>, i: nat, r: State, j: nat) {
    && Inv(s) && Inv(r) && Schedule(sched, |s.pcs|) && Schedule(sched, |r.pcs|) && i <= |sched| && j <= |sched|
    && Run(s, sched[i..]) == Run(r, sched[j..])
  }

  lemma Begin(s: State, sched: seq<Event>)
    requires Inv(s) && Schedule(sched, |s.pcs|)
    ensures sched[0..] == sched && Run(s, sched[|sched|..]) == s
  {
  }

  lemma FirstPhase1(s: State, sched: seq<Event>) returns (r: State)
    requires |sched| == 7 && Schedule(sched, 4)
    requires sched[0] == Event(0, Lock) && sched[1] == Event(0, Nothing) && sched[2] == Event(3, Lock)
    requires Inv(s) && s.word == UNLOCKED && s.pcs == [Idle, Idle, Idle, Idle]
    ensures Inv(r) && r.word == LOCKED && r.pcs == [Crit, Idle, Idle, LockCas]
    ensures Leads(s, sched, 0, r, 3)
  {
    hide Mutex, PendingByte, QueueMembers, QueueShape, Nodes, Run;
    r := s;
    r := Go(r, sched, 0, UNLOCKED, LockCas);
    r := Go(r, sched, 1, LOCKED, Crit);
    r := Go(r, sched, 2, LOCKED, LockCas);
  }

  lemma FirstPhase2(s: State, sched: seq<Event>) returns (r: State)
    requires |sched| == 7 && Schedule(sched, 4) && sched[3] == Event(3, Nothing) && sched[4] == Event(1, Lock)
    requires Inv(s) && s.word == LOCKED && s.pcs == [Crit, Idle, Idle, LockCas]
    ensures Inv(r) && r.word == LOCKED && r.pcs == [Crit, LockCas, Idle, FetchOr]
    ensures Leads(s, sched, 3, r, 5)
  {
    hide Mutex, PendingByte, QueueMembers, QueueShape, Nodes, Run;
    r := s;
    r := Go(r, sched, 3, LOCKED, FetchOr);
    r := Go(r, sched, 4, LOCKED, LockCas);
  }

  lemma FirstPhase3(s: State, sched: seq<Event>) returns (r: State)
    requires |sched| == 7 && Schedule(sched, 4) && sched[5] == Event(1, Nothing) && sched[6] == Event(1, Nothing)
    requires Inv(s) && s.word == LOCKED && s.pcs == [Crit, LockCas, Idle, FetchOr]
    ensures Inv(r) && r.word == Word(None, true, true) && r.pcs == [Crit, PendWait, Idle, FetchOr]
    ensures Leads(s, sched, 5, r, 7)
  {
    hide Mutex, PendingByte, QueueMembers, QueueShape, Nodes, Run;
    r := s;
    r := Go(r, sched, 5, LOCKED, FetchOr);
    r := Go(r, sched, 6, Word(None, true, true), PendWait);
  }

  lemma FirstPhase(s: State) returns (r: State)
    requires Inv(s) && s.word == UNLOCKED && s.pcs == [Idle, Idle, Idle, Idle]
    ensures Schedule(FIRST, 4) && r == Run(s, FIRST) && Inv(r)
    ensures r.word == Word(None, true, true) && r.pcs == [Crit, PendWait, Idle, FetchOr]
  {
    hide Inv, Run;
    Begin(s, FIRST);
    r := FirstPhase1(s, FIRST);
    r := FirstPhase2(r, FIRST);
    r := FirstPhase3(r, FIRST);
    Begin(r, FIRST);
  }

  lemma NodeUnused(s: State, t: nat)
    requires Inv(s) && t < |s.pcs| && s.pcs[t].QCount?
    ensures s.nodes[t].count == 0
  {
    assert NodeOk(s, t);
  }

  lemma SecondPhase1(s: State, sched: seq<Event>) returns (r: State)
    requires |sched| == 7 && Schedule(sched, 4)
    requires sched[0] == Event(2, Lock) && sched[1] == Event(2, Nothing) && sched[2] == Event(2, Nothing)
    requires Inv(s) && s.word == Word(None, true, true) && s.pcs == [Crit, PendWait, Idle, FetchOr]
    ensures Inv(r) && r.word == Word(None, true, true) && r.pcs == [Crit, PendWait, QInitLocked, FetchOr]
    ensures Leads(s, sched, 0, r, 3)
  {
    hide Mutex, PendingByte, QueueMembers, QueueShape, Nodes, Run;
    r := s;
    r := Go(r, sched, 0, Word(None, true, true), LockCas);
    r := Go(r, sched, 1, Word(None, true, true), QCount);
    NodeUnused(r, 2);
    r := Go(r, sched, 2, Word(None, true, true), QInitLocked);
  }

  lemma SecondPhase2(s: State, sched: seq<Event>) returns (r: State)
    requires |sched| == 7 && Schedule(sched, 4) && sched[3] == Event(2, Nothing) && sched[4] == Event(2, Nothing)
    requires Inv(s) && s.word == Word(None, true, true) && s.pcs == [Crit, PendWait, QInitLocked, FetchOr]
    ensures Inv(r) && r.word == Word(None, true, true) && r.pcs == [Crit, PendWait, QTryRead, FetchOr]
    ensures Leads(s, sched, 3, r, 5)
  {
    hide Mutex, PendingByte, QueueMembers, QueueShape, Nodes, Run;
    r := s;
    r := Go(r, sched, 3, Word(None, true, true), QInitNext);
    r := Go(r, sched, 4, Word(None, true, true), QTryRead);
  }

  lemma SecondPhase3(s: State, sched: seq<Event>) returns (r: State)
    requires |sched| == 7 && Schedule(sched, 4) && sched[5] == Event(2, Nothing) && sched[6] == Event(2, Nothing)
    requires Inv(s) && s.word == Word(None, true, true) && s.pcs == [Crit, PendWait, QTryRead, FetchOr]
    ensures Inv(r) && r.word == Word(Some(2), true, true) && r.pcs == [Crit, PendWait, WaitHead(None), FetchOr]
    ensures Leads(s, sched, 5, r, 7)
  {
    hide Mutex, PendingByte, QueueMembers, QueueShape, Nodes, Run;
    r := s;
    r := Go(r, sched, 5, Word(None, true, true), QXchg);
    r := Go(r, sched, 6, Word(Some(2), true, true), WaitHead(None));
  }

  lemma SecondPhase(s: State) returns (r: State)
    requires Inv(s) && s.word == Word(None, true, true) && s.pcs == [Crit, PendWait, Idle, FetchOr]
    ensures Schedule(SECOND, 4) && r == Run(s, SECOND) && Inv(r)
    ensures r.word == Word(Some(2), true, true) && r.pcs == [Crit, PendWait, WaitHead(None), FetchOr]
  {
    hide Inv, Run;
    Begin(s, SECOND);
    r := SecondPhase1(s, SECOND);
    r := SecondPhase2(r, SECOND);
    r := SecondPhase3(r, SECOND);
    Begin(r, SECOND);
  }

  lemma ThirdPhase1(s: State, sched: seq<Event>) returns (r: State)
    requires |sched| == 7 && Schedule(sched, 4)
    requires sched[0] == Event(0, Nothing) && sched[1] == Event(1, Nothing) && sched[2] == Event(1, Nothing)
    requires Inv(s) && s.word == Word(Some(2), true, true) && s.pcs == [Crit, PendWait, WaitHead(None), FetchOr]
    ensures Inv(r) && r.word == Word(Some(2), false, true) && r.pcs == [Idle, Crit, WaitHead(None), FetchOr]
    ensures Leads(s, sched, 0, r, 3)
  {
    hide Mutex, PendingByte, QueueMembers, QueueShape, Nodes, Run;
    r := s;
    r := Go(r, sched, 0, Word(Some(2), true, false), Idle);
    r := Go(r, sched, 1, Word(Some(2), true, false), PendTake);
    r := Go(r, sched, 2, Word(Some(2), false, true), Crit);
  }

  lemma ThirdPhase2(s: State, sched: seq<Event>) returns (r: State)
    requires |sched| == 7 && Schedule(sched, 4) && sched[3] == Event(1, Nothing) && sched[4] == Event(2, Nothing)
    requires Inv(s) && s.word == Word(Some(2), false, true) && s.pcs == [Idle, Crit, WaitHead(None), FetchOr]
    ensures Inv(r) && r.word == Word(Some(2), false, false) && r.pcs == [Idle, Idle, ClaimCas(None), FetchOr]
    ensures Leads(s, sched, 3, r, 5)
  {
    hide Mutex, PendingByte, QueueMembers, QueueShape, Nodes, Run;
    r := s;
    r := Go(r, sched, 3, Word(Some(2), false, false), Idle);
    r := Go(r, sched, 4, Word(Some(2), false, false), ClaimCas(None));
  }

  lemma ThirdPhase3(s: State, sched: seq<Event>) returns (r: State)
    requires |sched| == 7 && Schedule(sched, 4) && sched[5] == Event(3, Nothing) && sched[6] == Event(2, Nothing)
    requires Inv(s) && s.word == Word(Some(2), false, false) && s.pcs == [Idle, Idle, ClaimCas(None), FetchOr]
    ensures Inv(r) && r.word == Word(Some(2), true, false) && r.pcs == [Idle, Idle, SetLocked(None), PendUndo]
    ensures Leads(s, sched, 5, r, 7)
  {
    hide Mutex, PendingByte, QueueMembers, QueueShape, Nodes, Run;
    r := s;
    r := Go(r, sched, 5, Word(Some(2), true, false), PendUndo);
    r := Go(r, sched, 6, Word(Some(2), true, false), SetLocked(None));
  }

  lemma ThirdPhase(s: State) returns (r: State)
    requires Inv(s) && s.word == Word(Some(2), true, true) && s.pcs == [Crit, PendWait, WaitHead(None), FetchOr]
    ensures Schedule(THIRD, 4) && r == Run(s, THIRD) && Inv(r)
    ensures r.word == Word(Some(2), true, false) && r.pcs == [Idle, Idle, SetLocked(None), PendUndo]
  {
    hide Inv, Run;
    Begin(s, THIRD);
    r := ThirdPhase1(s, THIRD);
    r := ThirdPhase2(r, THIRD);
    r := ThirdPhase3(r, THIRD);
    Begin(r, THIRD);
  }

  /** From the start, four threads reach a state in which the queue head is about to set the locked byte while the
      pending byte is set; after its step both are. */
  lemma SetLockedMeetsPending() returns (s: State)
    ensures Schedule(FIRST + SECOND + THIRD, 4) && s == Reached(4, FIRST + SECOND + THIRD)
    ensures s.pcs[2] == SetLocked(None) && s.word == Word(Some(2), true, false)
    ensures Step(s, 2, Nothing).word == Word(Some(2), true, true)
  {
    hide Mutex, PendingByte, QueueMembers, QueueShape, Nodes, Run;
    InitInv(4);
    var s0 := Init(4);
    assert s0.pcs == [Idle, Idle, Idle, Idle];
    var s1 := FirstPhase(s0);
    var s2 := SecondPhase(s1);
    s := ThirdPhase(s2);
    RunConcat(s0, FIRST, SECOND);
    RunConcat(s0, FIRST + SECOND, THIRD);
  }
}
