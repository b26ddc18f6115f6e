/** The calls of the queued spinlock one by one, whatever the other threads do between a thread's own accesses: which
    values of the lock word lead where, and what a call leaves. */
module QSpinlockCalls {
  import opened Options
  import opened QSpinlock
  import opened QSpinlockInv
  import opened QSpinlockSteps
  import opened QSpinlockRuns
  import opened QSpinlockFairness

  /** A schedule in which t has no step. */
  predicate Others(s: State, t: nat, sched: seq<Event>) {
    Schedule(sched, |s.pcs|) && forall i :: 0 <= i < |sched| ==> sched[i].tid != t
  }

  /** The state in which t makes its next access: the others come first. */
  ghost function Meets(s: State, t: nat, others: seq<Event>): (r: State)
    requires Inv(s) && t < |s.pcs| && Others(s, t, others)
    ensures Inv(r) && |r.pcs| == |s.pcs| && r.pcs[t] == s.pcs[t]
  {
    Undisturbed(s, t, others);
    Run(s, others)
  }

  /** The others, and then one step of t. */
  ghost function Turn(s: State, t: nat, others: seq<Event>): (r: State)
    requires Inv(s) && t < |s.pcs| && Others(s, t, others)
    ensures Inv(r) && |r.pcs| == |s.pcs|
  {
    Next(Meets(s, t, others), Event(t, Nothing))
  }

  /** Other threads' steps do not move t. */
  lemma {:induction false} Undisturbed(s: State, t: nat, sched: seq<Event>)
    requires Inv(s) && t < |s.pcs| && Others(s, t, sched)
    ensures Run(s, sched).pcs[t] == s.pcs[t]
    decreases |sched|
  {
    hide Inv, Next, Step;
    if sched != [] {
      NextIs(s, sched[0]);
      OthersKeepPc(s, sched[0].tid, sched[0].call);
      Undisturbed(Next(s, sched[0]), t, sched[1..]);
    }
  }

  lemma TurnIs(s: State, t: nat, others: seq<Event>)
    requires Inv(s) && t < |s.pcs| && Others(s, t, others)
    ensures var r := Meets(s, t, others); r.Wf() && Turn(s, t, others) == Step(r, t, Nothing)
  {
    hide Inv, Step, Meets;
    NextIs(Meets(s, t, others), Event(t, Nothing));
  }

  // ---------- queued_spin_trylock ----------

  /** A trylock takes the lock exactly if both its read and its exchange find the word 0; otherwise it returns without
      having written anything, and does not wait. */
  lemma TrylockOutcome(s: State, t: nat, a: seq<Event>, b: seq<Event>)
    requires Inv(s) && t < |s.pcs| && s.pcs[t] == Idle
    requires Others(s, t, a) && Others(s, t, b)
    ensures var called := Next(s, Event(t, TryLock));
            var read := Meets(called, t, a);
            var after := Turn(called, t, a);
            var exchange, done := Meets(after, t, b), Turn(after, t, b);
            && called.word == s.word && called.pcs[t] == TryRead
            && (read.word != Word(None, false, false) ==> after.pcs[t] == Idle && Unwritten(read, after))
            && (read.word == Word(None, false, false) ==>
                  && after.pcs[t] == TryCas && Unwritten(read, after)
                  && (exchange.word == Word(None, false, false) ==>
                        done.pcs[t] == Crit && done.owner == Some(t) && done.word == Word(None, false, true))
                  && (exchange.word != Word(None, false, false) ==>
                        done.pcs[t] == Idle && Unwritten(exchange, done)))
  {
    hide Inv, Run, Meets;
    CallIs(s, t, TryLock);
    var called := Next(s, Event(t, TryLock));
    ReadOutcome(called, t, a);
    var after := Turn(called, t, a);
    if Meets(called, t, a).word == UNLOCKED {
      ExchangeOutcome(after, t, b);
    }
  }

  /** Nothing shared has been written: word, nodes and history are as before. */
  ghost predicate Unwritten(s: State, s': State) {
    s' == s.(pcs := s'.pcs)
  }

  lemma CallIs(s: State, t: nat, call: Call)
    requires Inv(s) && t < |s.pcs| && s.pcs[t] == Idle && call != Nothing
    ensures var s' := Next(s, Event(t, call));
            s'.word == s.word && s'.pcs[t] == (if call == Lock then LockCas else TryRead) && Unwritten(s, s')
  {
    hide Inv;
    NextIs(s, Event(t, call));
  }

  lemma ReadOutcome(s: State, t: nat, a: seq<Event>)
    requires Inv(s) && t < |s.pcs| && s.pcs[t] == TryRead && Others(s, t, a)
    ensures var read, after := Meets(s, t, a), Turn(s, t, a);
            Unwritten(read, after) && after.pcs[t] == if read.word == Word(None, false, false) then TryCas else Idle
  {
    hide Inv, Run, Meets, Turn;
    TurnIs(s, t, a);
  }

  lemma ExchangeOutcome(s: State, t: nat, b: seq<Event>)
    requires Inv(s) && t < |s.pcs| && (s.pcs[t] == TryCas || s.pcs[t] == LockCas || s.pcs[t] == QTryCas)
    requires Others(s, t, b)
    ensures var exchange, done := Meets(s, t, b), Turn(s, t, b);
            && (exchange.word == Word(None, false, false) ==>
                  && done.owner == Some(t) && done.word == Word(None, false, true) && done.queue == exchange.queue
                  && done.pcs[t] == if s.pcs[t] == QTryCas then Release else Crit)
            && (exchange.word != Word(None, false, false) ==>
                  Unwritten(exchange, done) && (s.pcs[t] == TryCas ==> done.pcs[t] == Idle)
                  && (s.pcs[t] == QTryCas ==> done.pcs[t] == QXchg))
  {
    hide Inv, Run, Meets, Turn;
    TurnIs(s, t, b);
  }

  /** Nobody else between two steps. */
  lemma Undisputed(s: State, t: nat)
    requires Inv(s) && t < |s.pcs|
    ensures Meets(s, t, []) == s && Turn(s, t, []) == Next(s, Event(t, Nothing))
  {
    hide Inv, Next;
  }

  lemma RunOfTwo(s: State, e: Event, f: Event)
    requires Inv(s) && e.tid < |s.pcs| && f.tid < |s.pcs|
    ensures Schedule([e, f], |s.pcs|) && Run(s, [e, f]) == Next(Next(s, e), f)
  {
    hide Inv, Next;
    assert [e, f][1..] == [f] && [f][1..] == [];
    assert Run(Next(Next(s, e), f), []) == Next(Next(s, e), f);
  }

  lemma RunOfThree(s: State, e: Event, f: Event, g: Event)
    requires Inv(s) && e.tid < |s.pcs| && f.tid < |s.pcs| && g.tid < |s.pcs|
    ensures Schedule([e, f, g], |s.pcs|) && Run(s, [e, f, g]) == Next(Next(Next(s, e), f), g)
  {
    hide Inv, Next;
    RunOfTwo(Next(s, e), f, g);
    assert [e, f, g][1..] == [f, g];
  }

  /** Alone on a free lock a trylock has the lock after three steps. */
  lemma TrylockAlone(s: State, t: nat)
    requires Inv(s) && t < |s.pcs| && s.pcs[t] == Idle && s.word == Word(None, false, false)
    ensures Schedule([Event(t, TryLock), Event(t, Nothing), Event(t, Nothing)], |s.pcs|)
    ensures var r := Run(s, [Event(t, TryLock), Event(t, Nothing), Event(t, Nothing)]);
            r.pcs[t] == Crit && r.owner == Some(t) && r.word == Word(None, false, true)
  {
    hide Inv, Run, Next, Meets, Turn;
    RunOfThree(s, Event(t, TryLock), Event(t, Nothing), Event(t, Nothing));
    TrylockOutcome(s, t, [], []);
    var called := Next(s, Event(t, TryLock));
    Undisputed(called, t);
    Undisputed(Turn(called, t, []), t);
  }

  /** And a lock call after two. */
  lemma LockAlone(s: State, t: nat)
    requires Inv(s) && t < |s.pcs| && s.pcs[t] == Idle && s.word == Word(None, false, false)
    ensures Schedule([Event(t, Lock), Event(t, Nothing)], |s.pcs|)
    ensures var r := Run(s, [Event(t, Lock), Event(t, Nothing)]);
            r.pcs[t] == Crit && r.owner == Some(t) && r.word == Word(None, false, true)
  {
    hide Inv, Run, Next, Meets, Turn;
    CallIs(s, t, Lock);
    RunOfTwo(s, Event(t, Lock), Event(t, Nothing));
    var called := Next(s, Event(t, Lock));
    ExchangeOutcome(called, t, []);
    Undisputed(called, t);
  }

  // ---------- queued_spin_lock: the pending path ----------

  /** The word is held or free, with nobody waiting. */
  predicate Uncontended(w: Word) {
    w.tail == None && !w.pending
  }

  /** A lock call that finds the lock taken goes for the pending bit if nobody waits, waits for the hand-over if there
      is only a pending holder and nobody inside, and queues otherwise. It has written nothing. */
  lemma LockOutcome(s: State, t: nat, a: seq<Event>)
    requires Inv(s) && t < |s.pcs| && s.pcs[t] == LockCas && Others(s, t, a)
    ensures var w, done := Meets(s, t, a).word, Turn(s, t, a);
            && (w == Word(None, false, false) ==>
                  done.pcs[t] == Crit && done.owner == Some(t) && done.word == Word(None, false, true))
            && (w != Word(None, false, false) ==> Unwritten(Meets(s, t, a), done))
            && (w == Word(None, false, true) ==> done.pcs[t] == FetchOr)
            && (w == Word(None, true, false) ==> done.pcs[t] == PendSpin(PENDING_LOOPS))
            && (w == Word(None, true, true) || w.tail.Some? ==> done.pcs[t] == QCount)
  {
    hide Inv, Run, Meets, Turn;
    TurnIs(s, t, a);
  }

  /** Turns of t, each after what the others do before it, and each finding this lock word. */
  ghost predicate AllMeet(s: State, t: nat, rounds: seq<seq<Event>>, w: Word)
    requires Inv(s) && t < |s.pcs|
    decreases |rounds|
  {
    hide Inv, Run, Meets, Turn;
    rounds == [] ||
    (  Others(s, t, rounds[0])
    && Meets(s, t, rounds[0]).word == w
    && AllMeet(Turn(s, t, rounds[0]), t, rounds[1..], w))
  }

  /** The state after them. */
  ghost function Turns(s: State, t: nat, rounds: seq<seq<Event>>, w: Word): (r: State)
    requires Inv(s) && t < |s.pcs| && AllMeet(s, t, rounds, w)
    ensures Inv(r) && |r.pcs| == |s.pcs|
    decreases |rounds|
  {
    hide Inv, Run, Meets, Turn;
    if rounds == [] then s else Turns(Turn(s, t, rounds[0]), t, rounds[1..], w)
  }

  /** One read while waiting for the hand-over. */
  lemma SpinOutcome(s: State, t: nat, a: seq<Event>)
    requires Inv(s) && t < |s.pcs| && s.pcs[t].PendSpin? && Others(s, t, a)
    ensures var w, done := Meets(s, t, a).word, Turn(s, t, a);
            && Unwritten(Meets(s, t, a), done)
            && (w == Word(None, true, false) && s.pcs[t].cnt > 0 ==> done.pcs[t] == PendSpin(s.pcs[t].cnt - 1))
            && (w == Word(None, true, false) && s.pcs[t].cnt == 0 ==> done.pcs[t] == QCount)
            && (w != Word(None, true, false) ==> done.pcs[t] == if Uncontended(w) then FetchOr else QCount)
  {
    hide Inv, Run, Meets, Turn;
    TurnIs(s, t, a);
  }

  /** The wait for a hand-over is bounded: after cnt + 1 reads that all find the pending holder alone, the call
      queues. The first read after a finished hand-over goes for the pending bit. */
  lemma {:induction false} HandOverAwaited(s: State, t: nat, rounds: seq<seq<Event>>, last: seq<Event>)
    requires Inv(s) && t < |s.pcs| && s.pcs[t].PendSpin? && |rounds| <= s.pcs[t].cnt
    requires AllMeet(s, t, rounds, Word(None, true, false)) && Others(s, t, last)
    ensures var r := Turns(s, t, rounds, Word(None, true, false));
            var w := Meets(r, t, last).word;
            && r.pcs[t] == PendSpin(s.pcs[t].cnt - |rounds|)
            && (Uncontended(w) ==> Turn(r, t, last).pcs[t] == FetchOr)
            && (w == Word(None, true, false) && |rounds| == s.pcs[t].cnt ==> Turn(r, t, last).pcs[t] == QCount)
    decreases |rounds|
  {
    hide Inv, Run, Meets, Turn;
    if rounds == [] {
      SpinOutcome(s, t, last);
    } else {
      SpinOutcome(s, t, rounds[0]);
      HandOverAwaited(Turn(s, t, rounds[0]), t, rounds[1..], last);
    }
  }

  /** The fetch-or decides by the word it finds: it becomes the pending holder if the bit was clear and nobody was
      queued; if the bit was set it queues, having changed nothing; if the bit was clear but somebody queued, it will
      clear it. */
  lemma PendingOutcome(s: State, t: nat, a: seq<Event>)
    requires Inv(s) && t < |s.pcs| && s.pcs[t] == FetchOr && Others(s, t, a)
    ensures var r, done := Meets(s, t, a), Turn(s, t, a);
            && done.word == Word(r.word.tail, true, r.word.locked) && done.queue == r.queue && done.owner == r.owner
            && (r.word.pending ==> done.pcs[t] == QCount && Unwritten(r, done))
            && (!r.word.pending ==> done.pender == Some(t))
            && (r.word == Word(None, false, true) ==> done.pcs[t] == PendWait)
            && (r.word == Word(None, false, false) ==> done.pcs[t] == PendTake)
            && (!r.word.pending && r.word.tail.Some? ==> done.pcs[t] == PendUndo)
  {
    hide Inv, Run, Meets, Turn;
    TurnIs(s, t, a);
  }

  /** The undo clears the pending bit and nothing else, and the call queues. */
  lemma UndoOutcome(s: State, t: nat, a: seq<Event>)
    requires Inv(s) && t < |s.pcs| && s.pcs[t] == PendUndo && Others(s, t, a)
    ensures var r, done := Meets(s, t, a), Turn(s, t, a);
            && r.word.pending && done.word == Word(r.word.tail, false, r.word.locked)
            && done.queue == r.queue && done.owner == r.owner && done.pcs[t] == QCount
  {
    hide Inv, Run, Meets, Turn;
    PendingIsSet(s, t, a);
    TurnIs(s, t, a);
    ClearStep(Meets(s, t, a), t);
    hide Step;
  }

  lemma ClearStep(s: State, t: nat)
    requires s.Wf() && t < |s.pcs| && s.pcs[t] == PendUndo
    ensures Step(s, t, Nothing) == UndoStep(s, t)
  {
  }

  lemma PendingIsSet(s: State, t: nat, a: seq<Event>)
    requires Inv(s) && t < |s.pcs| && Pending(s.pcs[t]) && Others(s, t, a)
    ensures var r := Meets(s, t, a);
            r.word.pending && r.pender == Some(t) && (r.pcs[t] == PendTake ==> !r.word.locked)
  {
    hide Mutex, PendingByte, QueueMembers, QueueShape, Nodes, Run, Meets;
    Facts(Meets(s, t, a), t);
  }

  /** The pending holder waits while the lock is held, and then takes it, whatever happens between its two steps: it
      leaves the word locked, not pending, and with the tail it finds. */
  lemma PendingTakes(s: State, t: nat, a: seq<Event>, b: seq<Event>)
    requires Inv(s) && t < |s.pcs| && s.pcs[t] == PendWait && Others(s, t, a) && Others(s, t, b)
    ensures Meets(s, t, a).word.locked ==> Turn(s, t, a) == Meets(s, t, a)
    ensures !Meets(s, t, a).word.locked ==>
              var ready := Turn(s, t, a);
              var r, done := Meets(ready, t, b), Turn(ready, t, b);
              && Unwritten(Meets(s, t, a), ready) && r.word == Word(r.word.tail, true, false)
              && done.pcs[t] == Crit && done.owner == Some(t) && done.word == Word(r.word.tail, false, true)
  {
    hide Inv, Run, Meets, Turn;
    WaitOutcome(s, t, a);
    if !Meets(s, t, a).word.locked {
      PendingIsSet(Turn(s, t, a), t, b);
      TurnIs(Turn(s, t, a), t, b);
    }
  }

  lemma WaitOutcome(s: State, t: nat, a: seq<Event>)
    requires Inv(s) && t < |s.pcs| && s.pcs[t] == PendWait && Others(s, t, a)
    ensures var r, done := Meets(s, t, a), Turn(s, t, a);
            && Unwritten(r, done) && done.pcs[t] == (if r.word.locked then PendWait else PendTake)
            && (r.word.locked ==> done == r)
  {
    hide Inv, Run, Meets, Turn;
    TurnIs(s, t, a);
    var r := Meets(s, t, a);
    assert r.nodes[t := r.nodes[t]] == r.nodes && r.pcs[t := r.pcs[t]] == r.pcs;
  }

  // ---------- queued_spin_lock: the queue ----------

  /** Before it joins, a thread takes its node and prepares it; the word is not written. */
  lemma NodePrepared(s: State, t: nat, a: seq<Event>, b: seq<Event>, c: seq<Event>)
    requires Inv(s) && t < |s.pcs| && s.pcs[t] == QCount
    requires Others(s, t, a) && Others(s, t, b) && Others(s, t, c)
    ensures var s1 := Turn(s, t, a);
            var s2 := Turn(s1, t, b);
            var s3 := Turn(s2, t, c);
            && s1.word == Meets(s, t, a).word && s2.word == Meets(s1, t, b).word && s3.word == Meets(s2, t, c).word
            && s1.pcs[t] == QInitLocked && s2.pcs[t] == QInitNext && s3.pcs[t] == QTryRead
            && s3.nodes[t] == Node(None, false, 1)
  {
    hide Inv, Run, Meets, Turn;
    CountOutcome(s, t, a);
    var s1 := Turn(s, t, a);
    TurnIs(s1, t, b);
    var s2 := Turn(s1, t, b);
    TurnIs(s2, t, c);
    NodeReady(Turn(s2, t, c), t);
  }

  /** The nesting check: in any well-formed state, a call of a thread whose node is in use aborts, and no other does. */
  lemma NestingAborts(s: State, t: nat)
    requires s.Wf() && t < |s.pcs| && s.pcs[t] == QCount
    ensures Step(s, t, Nothing).pcs[t] == (if s.nodes[t].count >= 1 then Aborted else QInitLocked)
    ensures Step(s, t, Nothing).nodes[t].count == s.nodes[t].count + 1
  {
  }

  lemma CountOutcome(s: State, t: nat, a: seq<Event>)
    requires Inv(s) && t < |s.pcs| && s.pcs[t] == QCount && Others(s, t, a)
    ensures Turn(s, t, a).pcs[t] == QInitLocked && Turn(s, t, a).word == Meets(s, t, a).word
  {
    hide Mutex, PendingByte, QueueMembers, QueueShape, Nodes, Run, Meets, Turn;
    Facts(Meets(s, t, a), t);
    TurnIs(s, t, a);
  }

  lemma NodeReady(s: State, t: nat)
    requires Inv(s) && t < |s.pcs| && s.pcs[t] == QTryRead
    ensures s.Wf() && s.nodes[t] == Node(None, false, 1)
  {
    hide Mutex, PendingByte, QueueMembers, QueueShape;
    assert NodeOk(s, t);
  }

  /** With its node ready it tries once more: if both its read and its exchange find the word 0 it has the lock without
      having queued. Otherwise it goes on to the queue, and nothing has been written. */
  lemma RetryOutcome(s: State, t: nat, a: seq<Event>, b: seq<Event>)
    requires Inv(s) && t < |s.pcs| && s.pcs[t] == QTryRead && Others(s, t, a) && Others(s, t, b)
    ensures var read, after := Meets(s, t, a), Turn(s, t, a);
            var exchange, done := Meets(after, t, b), Turn(after, t, b);
            && Unwritten(read, after)
            && (read.word != Word(None, false, false) ==> after.pcs[t] == QXchg)
            && (read.word == Word(None, false, false) && exchange.word == Word(None, false, false) ==>
                  && done.pcs[t] == Release && done.owner == Some(t) && done.word == Word(None, false, true)
                  && done.queue == exchange.queue)
            && (read.word == Word(None, false, false) && exchange.word != Word(None, false, false) ==>
                  done.pcs[t] == QXchg && Unwritten(exchange, done))
  {
    hide Inv, Run, Meets, Turn;
    TurnIs(s, t, a);
    var r := Meets(s, t, a);
    assert r.nodes[t := r.nodes[t]] == r.nodes;
    if r.word == UNLOCKED {
      ExchangeOutcome(Turn(s, t, a), t, b);
    }
  }

  /** Joining: the word names t as its tail, with the other fields as found; t stands at the end of the queue, and goes
      on to link itself behind the old tail, or is at the head if there was none. */
  lemma JoinOutcome(s: State, t: nat, a: seq<Event>)
    requires Inv(s) && t < |s.pcs| && s.pcs[t] == QXchg && Others(s, t, a)
    ensures var r, done := Meets(s, t, a), Turn(s, t, a);
            && done.word == Word(Some(t), r.word.pending, r.word.locked) && done.queue == r.queue + [t]
            && (r.queue == [] ==> done.pcs[t] == WaitHead(None))
            && (r.queue != [] ==> done.pcs[t] == Link(r.queue[|r.queue| - 1]))
  {
    hide Inv, Run, Meets, Turn;
    QueueTail(Meets(s, t, a));
    TurnIs(s, t, a);
    JoinStep(Meets(s, t, a), t);
    hide Step;
  }

  lemma JoinStep(s: State, t: nat)
    requires s.Wf() && t < |s.pcs| && s.pcs[t] == QXchg
    ensures Step(s, t, Nothing) == XchgStep(s, t)
  {
  }

  lemma QueueTail(s: State)
    requires Inv(s)
    ensures s.word.tail == if s.queue == [] then None else Some(s.queue[|s.queue| - 1])
  {
    hide Mutex, PendingByte, QueueShape, Nodes;
  }

  /** Linking, and the wait for the predecessor: t goes on exactly when its node has been marked, and takes along what
      is linked behind it by then. */
  lemma LinkOutcome(s: State, t: nat, prev: nat, a: seq<Event>, b: seq<Event>, c: seq<Event>)
    requires Inv(s) && t < |s.pcs| && s.pcs[t] == Link(prev)
    requires Others(s, t, a) && Others(s, t, b) && Others(s, t, c)
    ensures var linked := Turn(s, t, a);
            && prev < |linked.nodes| == |linked.pcs| && linked.pcs[t] == WaitNode && linked.nodes[prev].next == Some(t)
            && var found, woken := Meets(linked, t, b), Turn(linked, t, b);
               && |found.nodes| == |found.pcs|
               && (!found.nodes[t].locked ==> woken == found)
               && (found.nodes[t].locked ==>
                     && woken.pcs[t] == ReadNext
                     && var r, done := Meets(woken, t, c), Turn(woken, t, c);
                        |r.nodes| == |r.pcs| && done.pcs[t] == WaitHead(r.nodes[t].next) && Unwritten(r, done))
  {
    hide Inv, Run, Meets, Turn;
    TurnIs(s, t, a);
    var linked := Turn(s, t, a);
    InvWf(linked);
    NodeWaitOutcome(linked, t, b);
    if Meets(linked, t, b).nodes[t].locked {
      NextOutcome(Turn(linked, t, b), t, c);
    }
  }

  lemma NodeWaitOutcome(s: State, t: nat, a: seq<Event>)
    requires Inv(s) && t < |s.pcs| && s.pcs[t] == WaitNode && Others(s, t, a)
    ensures var r, done := Meets(s, t, a), Turn(s, t, a);
            && |r.nodes| == |r.pcs| && (r.nodes[t].locked ==> done.pcs[t] == ReadNext)
            && (!r.nodes[t].locked ==> done == r)
  {
    hide Inv, Run, Meets, Turn;
    TurnIs(s, t, a);
    var r := Meets(s, t, a);
    assert r.nodes[t := r.nodes[t]] == r.nodes && r.pcs[t := r.pcs[t]] == r.pcs;
  }

  lemma NextOutcome(s: State, t: nat, a: seq<Event>)
    requires Inv(s) && t < |s.pcs| && s.pcs[t] == ReadNext && Others(s, t, a)
    ensures var r, done := Meets(s, t, a), Turn(s, t, a);
            |r.nodes| == |r.pcs| && done.pcs[t] == WaitHead(r.nodes[t].next) && Unwritten(r, done)
  {
    hide Inv, Run, Meets, Turn;
    TurnIs(s, t, a);
    var r := Meets(s, t, a);
    assert r.nodes[t := r.nodes[t]] == r.nodes;
  }

  /** The head waits while the lock is held or pending. Then, alone in the queue, it goes for the exchange that empties
      the queue, and otherwise it is to set the locked byte only. */
  lemma HeadOutcome(s: State, t: nat, next: Option<nat>, a: seq<Event>)
    requires Inv(s) && t < |s.pcs| && s.pcs[t] == WaitHead(next) && Others(s, t, a)
    ensures var read, after := Meets(s, t, a), Turn(s, t, a);
            if read.word.locked || read.word.pending then after == read
            else Unwritten(read, after) && after.pcs[t] == if read.queue == [t] then ClaimCas(next) else SetLocked(next)
  {
    var r := Meets(s, t, a);
    hide Inv, Run, Meets, Turn;
    QueueOfOne(r, t);
    TurnIs(s, t, a);
    HeadStep(r, t, next);
  }

  lemma HeadStep(s: State, t: nat, next: Option<nat>)
    requires s.Wf() && t < |s.pcs| && s.pcs[t] == WaitHead(next)
    ensures var after := Step(s, t, Nothing);
            if s.word.locked || s.word.pending then after == s
            else
              && Unwritten(s, after)
              && after.pcs[t] == if s.word.tail == Some(t) then ClaimCas(next) else SetLocked(next)
  {
    assert s.nodes[t := s.nodes[t]] == s.nodes && s.pcs[t := s.pcs[t]] == s.pcs;
  }

  lemma QueueOfOne(s: State, t: nat)
    requires Inv(s) && t < |s.pcs| && s.pcs[t].WaitHead?
    ensures s.word.tail == Some(t) <==> s.queue == [t]
  {
    HeadAt(s, t);
    QueueDistinct(s);
    hide Mutex, PendingByte, QueueShape, Nodes;
  }

  /** The head that was alone: if it still is, and nobody has the pending bit, the lock is its and the queue empty;
      otherwise the word is as it was, and it goes on to set the locked byte. */
  lemma ClaimOutcome(s: State, t: nat, next: Option<nat>, a: seq<Event>)
    requires Inv(s) && t < |s.pcs| && s.pcs[t] == ClaimCas(next) && Others(s, t, a)
    ensures var r, done := Meets(s, t, a), Turn(s, t, a);
            if r.word == Word(Some(t), false, false)
            then done.word == Word(None, false, true) && done.owner == Some(t) && done.queue == []
                 && done.pcs[t] == Release
            else Unwritten(r, done) && done.pcs[t] == SetLocked(next)
  {
    hide Inv, Run, Meets, Turn;
    TurnIs(s, t, a);
    var r := Meets(s, t, a);
    assert r.nodes[t := r.nodes[t]] == r.nodes;
  }

  /** set_locked, and the hand-over to the next head, for which the owner waits if it has not linked itself yet. */
  lemma SetLockedOutcome(s: State, t: nat, next: Option<nat>, a: seq<Event>)
    requires Inv(s) && t < |s.pcs| && s.pcs[t] == SetLocked(next) && Others(s, t, a)
    ensures var r, done := Meets(s, t, a), Turn(s, t, a);
            && !r.word.locked && done.word == Word(r.word.tail, r.word.pending, true) && done.owner == Some(t)
            && done.queue == r.queue
            && done.pcs[t] == if next.None? then WaitNext else Handoff(next.value)
  {
    hide Inv, Run, Meets, Turn;
    FreeForHead(Meets(s, t, a), t);
    TurnIs(s, t, a);
    SetStep(Meets(s, t, a), t, next);
    hide Step;
  }

  lemma SetStep(s: State, t: nat, next: Option<nat>)
    requires s.Wf() && t < |s.pcs| && s.pcs[t] == SetLocked(next)
    ensures Step(s, t, Nothing) == SetLockedStep(s, t, next)
  {
  }

  lemma FreeForHead(s: State, t: nat)
    requires Inv(s) && t < |s.pcs| && Claiming(s.pcs[t])
    ensures !s.word.locked
  {
    hide Mutex, PendingByte, QueueMembers, QueueShape, Nodes;
    ClaimingLine(s, t);
    Facts(s, t);
  }

  lemma SuccessorOutcome(s: State, t: nat, a: seq<Event>)
    requires Inv(s) && t < |s.pcs| && s.pcs[t] == WaitNext && Others(s, t, a)
    ensures var r, done := Meets(s, t, a), Turn(s, t, a);
            && |r.nodes| == |r.pcs|
            && (r.nodes[t].next.None? ==> done == r)
            && (r.nodes[t].next.Some? ==> done.pcs[t] == Handoff(r.nodes[t].next.value) && Unwritten(r, done))
  {
    hide Inv, Run, Meets, Turn;
    TurnIs(s, t, a);
    var r := Meets(s, t, a);
    assert r.nodes[t := r.nodes[t]] == r.nodes && r.pcs[t := r.pcs[t]] == r.pcs;
  }

  /** The hand-over marks the node of the second of the queue, which then is the first, and after giving back its own
      node the thread is inside. */
  lemma HandoffOutcome(s: State, t: nat, succ: nat, a: seq<Event>, b: seq<Event>)
    requires Inv(s) && t < |s.pcs| && s.pcs[t] == Handoff(succ) && Others(s, t, a) && Others(s, t, b)
    ensures var r, done := Meets(s, t, a), Turn(s, t, a);
            && |r.queue| > 1 && r.queue[0] == t && r.queue[1] == succ && done.queue == r.queue[1..]
            && done.word == r.word && succ < |done.nodes| && done.nodes[succ].locked && done.pcs[t] == Release
            && var inside := Turn(done, t, b);
               inside.pcs[t] == Crit && inside.word == Meets(done, t, b).word
  {
    hide Inv, Run, Meets, Turn;
    SecondInQueue(Meets(s, t, a), t);
    TurnIs(s, t, a);
    TurnIs(Turn(s, t, a), t, b);
  }

  lemma SecondInQueue(s: State, t: nat)
    requires Inv(s) && t < |s.pcs| && s.pcs[t].Handoff?
    ensures |s.queue| > 1 && s.queue[0] == t && s.queue[1] == s.pcs[t].succ
  {
    hide Mutex, PendingByte, QueueMembers, QueueShape, Nodes;
    HandoffKeeps(s, t);
    HeadAt(s, t);
  }

  /** The unlock frees the lock and changes nothing else. */
  lemma UnlockOutcome(s: State, t: nat, a: seq<Event>)
    requires Inv(s) && t < |s.pcs| && s.pcs[t] == Crit && Others(s, t, a)
    ensures var r, done := Meets(s, t, a), Turn(s, t, a);
            && r.owner == Some(t) && r.word.locked
            && done == r.(word := Word(r.word.tail, r.word.pending, false), owner := None, pcs := r.pcs[t := Idle])
  {
    hide Inv, Run, Meets, Turn;
    OwnerIs(Meets(s, t, a), t);
    TurnIs(s, t, a);
    ReleaseStep(Meets(s, t, a), t);
    hide Step;
  }

  lemma ReleaseStep(s: State, t: nat)
    requires s.Wf() && t < |s.pcs| && s.pcs[t] == Crit
    ensures Step(s, t, Nothing) == UnlockStep(s, t)
  {
  }

  lemma OwnerIs(s: State, t: nat)
    requires Inv(s) && t < |s.pcs| && s.pcs[t] == Crit
    ensures s.owner == Some(t) && s.word.locked
  {
    hide Mutex, PendingByte, QueueMembers, QueueShape, Nodes;
    Facts(s, t);
  }
}
