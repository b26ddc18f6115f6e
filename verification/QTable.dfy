/** The Q-table of rl-ttt/rl_ttt/agent.py as a value, over the reals, and what an update keeps. */
module QTable {
  import opened Options
  import opened TicTacToe

  /** A row has one entry for every cell; None stands for NaN, the mark of an illegal action. */
  type Row = seq<Option<real>>
  type Table = map<Board, Row>

  /** The lazily made row of a board. */
  function FreshRow(b: Board): (row: Row)
    ensures |row| == |b|
  {
    seq(|b|, i requires 0 <= i < |b| => if b[i] == EMPTY then Some(0.0) else None)
  }

  /** The stored row of a board, or the row it would get. */
  function Entry(t: Table, b: Board): Row {
    if b in t then t[b] else FreshRow(b)
  }

  /** A board that the table does not hold has the value 0 for its legal actions, and no value for the others. */
  lemma UnseenValues(t: Table, b: Board)
    requires b !in t
    ensures |Entry(t, b)| == |Ensure(t, b)[b]| == |b|
    ensures forall i :: 0 <= i < |b| && b[i] == EMPTY ==> Entry(t, b)[i] == Ensure(t, b)[b][i] == Some(0.0)
    ensures forall i :: 0 <= i < |b| && b[i] != EMPTY ==> Entry(t, b)[i] == Ensure(t, b)[b][i] == None
  {
  }

  function Ensure(t: Table, b: Board): Table {
    if b in t then t else t[b := FreshRow(b)]
  }

  /** Illegal actions are masked, and exactly those; all values lie in [-1, 1]. */
  ghost predicate RowOk(b: Board, row: Row) {
    && |row| == |b|
    && forall i :: 0 <= i < |b| ==> (row[i].Some? <==> b[i] == EMPTY) && (row[i].Some? ==> -1.0 <= row[i].value <= 1.0)
  }

  ghost predicate TableOk(cells: nat, t: Table) {
    forall b :: b in t ==> |b| == cells && RowOk(b, t[b])
  }

  /** nanmax; None if there is nothing but NaN. */
  function NanMax(row: Row): (m: Option<real>)
    ensures m.None? <==> forall i :: 0 <= i < |row| ==> row[i].None?
    ensures m.Some? ==> m in row && forall i :: 0 <= i < |row| && row[i].Some? ==> row[i].value <= m.value
  {
    if row == [] then None
    else
      var rest := NanMax(row[1..]);
      if row[0].None? then rest
      else if rest.Some? && rest.value > row[0].value then rest
      else row[0]
  }

  /** The table has the old one's rows unchanged, and new rows only as they are first made. */
  ghost predicate Extends(t: Table, old_t: Table) {
    && (forall b :: b in old_t ==> b in t && t[b] == old_t[b])
    && forall b :: b in t && b !in old_t ==> t[b] == FreshRow(b)
  }

  lemma EnsureKeeps(cells: nat, t: Table, b: Board)
    requires TableOk(cells, t) && |b| == cells
    ensures TableOk(cells, Ensure(t, b)) && b in Ensure(t, b) && Extends(Ensure(t, b), t)
  {
  }

  function Bootstrap(reward: real, gamma: real, best: real): real {
    reward + gamma * best
  }

  /** q, moved towards the target by the learning rate */
  function Nudge(q: real, alpha: real, target: real): real {
    q + alpha * (target - q)
  }

  /** What a transition aims at: the reward, and the discounted best value of the next board unless the game is over. */
  function Target(t: Table, gamma: real, reward: real, next: Option<Board>): real
    requires next.Some? ==> next.value in t && NanMax(t[next.value]).Some?
  {
    if next.None? then reward else Bootstrap(reward, gamma, NanMax(t[next.value]).value)
  }

  /** The rows an update looks at. */
  function Looked(t: Table, s: Board, next: Option<Board>): Table {
    if next.None? then Ensure(t, s) else Ensure(Ensure(t, s), next.value)
  }

  /** The learning rule. */
  function Updated(t: Table, alpha: real, gamma: real, s: Board, a: nat, reward: real, next: Option<Board>): Table
    requires Defined(Looked(t, s, next), s, a, next)
  {
    var u := Looked(t, s, next);
    Put(u, s, a, Learned(u, alpha, gamma, s, a, reward, next))
  }

  predicate Defined(u: Table, s: Board, a: nat, next: Option<Board>) {
    && s in u && a < |u[s]| && u[s][a].Some?
    && (next.Some? ==> next.value in u && NanMax(u[next.value]).Some?)
  }

  function Learned(u: Table, alpha: real, gamma: real, s: Board, a: nat, reward: real, next: Option<Board>): real
    requires Defined(u, s, a, next)
  {
    Nudge(u[s][a].value, alpha, Target(u, gamma, reward, next))
  }

  function Put(u: Table, s: Board, a: nat, v: real): Table
    requires s in u && a < |u[s]|
  {
    u[s := u[s][a := Some(v)]]
  }

  /** A transition that the episodes below make: the action is legal; a reward comes with the end of the game only,
      and the next board has a legal action. */
  ghost predicate Transition(cells: nat, s: Board, a: nat, reward: real, next: Option<Board>) {
    && |s| == cells && a < cells && s[a] == EMPTY
    && if next.None? then -1.0 <= reward <= 1.0
       else reward == 0.0 && |next.value| == cells && LegalMoves(next.value) != []
  }

  lemma BestNext(cells: nat, t: Table, b: Board)
    requires TableOk(cells, t) && b in t && LegalMoves(b) != []
    ensures NanMax(t[b]).Some? && -1.0 <= NanMax(t[b]).value <= 1.0
  {
    var i := LegalMoves(b)[0];
    assert i in LegalMoves(b);
    assert t[b][i].Some?;
    var k :| 0 <= k < |t[b]| && t[b][k] == NanMax(t[b]);
  }

  lemma Product(x: real, y: real)
    requires x >= 0.0 && y >= 0.0
    ensures x * y >= 0.0
  {
  }

  lemma Mix(alpha: real, q: real, target: real)
    requires 0.0 <= alpha <= 1.0 && -1.0 <= q <= 1.0 && -1.0 <= target <= 1.0
    ensures -1.0 <= q + alpha * (target - q) <= 1.0
  {
    Product(1.0 - alpha, 1.0 - q);
    Product(alpha, 1.0 - target);
    Product(1.0 - alpha, 1.0 + q);
    Product(alpha, 1.0 + target);
    assert (1.0 - alpha) * (1.0 - q) + alpha * (1.0 - target) == 1.0 - (q + alpha * (target - q));
    assert (1.0 - alpha) * (1.0 + q) + alpha * (1.0 + target) == 1.0 + (q + alpha * (target - q));
  }

  lemma Discount(gamma: real, m: real)
    requires 0.0 <= gamma <= 1.0 && -1.0 <= m <= 1.0
    ensures -1.0 <= gamma * m <= 1.0
  {
    Product(gamma, 1.0 - m);
    Product(gamma, 1.0 + m);
  }

  /** An update is possible for every such transition, and keeps values and masks as they should be. */
  lemma UpdateKeeps(cells: nat, t: Table, alpha: real, gamma: real, s: Board, a: nat, reward: real, next: Option<Board>)
    requires TableOk(cells, t) && 0.0 <= alpha <= 1.0 && 0.0 <= gamma <= 1.0 && Transition(cells, s, a, reward, next)
    ensures Defined(Looked(t, s, next), s, a, next)
    ensures TableOk(cells, Updated(t, alpha, gamma, s, a, reward, next))
  {
    hide TableOk, Looked, Put, Learned, Defined;
    var u := Looked(t, s, next);
    LookedKeeps(cells, t, s, next);
    LearnedRange(cells, u, alpha, gamma, s, a, reward, next);
    PutKeeps(cells, u, s, a, Learned(u, alpha, gamma, s, a, reward, next));
  }

  lemma LearnedRange(cells: nat, u: Table, alpha: real, gamma: real, s: Board, a: nat, reward: real,
                     next: Option<Board>)
    requires TableOk(cells, u) && 0.0 <= alpha <= 1.0 && 0.0 <= gamma <= 1.0 && Transition(cells, s, a, reward, next)
    requires s in u && (next.Some? ==> next.value in u)
    ensures Defined(u, s, a, next) && -1.0 <= Learned(u, alpha, gamma, s, a, reward, next) <= 1.0
  {
    hide TableOk, NanMax, LegalMoves;
    RowIsOk(cells, u, s);
    if next.Some? {
      BestNext(cells, u, next.value);
      Discount(gamma, NanMax(u[next.value]).value);
    }
    assert Defined(u, s, a, next);
    Mix(alpha, u[s][a].value, Target(u, gamma, reward, next));
  }

  lemma LookedKeeps(cells: nat, t: Table, s: Board, next: Option<Board>)
    requires TableOk(cells, t) && |s| == cells && (next.Some? ==> |next.value| == cells)
    ensures TableOk(cells, Looked(t, s, next)) && s in Looked(t, s, next)
    ensures next.Some? ==> next.value in Looked(t, s, next)
    ensures Extends(Looked(t, s, next), t)
  {
    EnsureKeeps(cells, t, s);
    if next.Some? {
      EnsureKeeps(cells, Ensure(t, s), next.value);
    }
  }

  lemma RowIsOk(cells: nat, t: Table, b: Board)
    requires TableOk(cells, t) && b in t
    ensures |b| == cells && RowOk(b, t[b])
  {
  }

  lemma PutKeeps(cells: nat, t: Table, b: Board, a: nat, v: real)
    requires TableOk(cells, t) && b in t && a < cells && |b| == cells && b[a] == EMPTY && -1.0 <= v <= 1.0
    ensures a < |t[b]| && TableOk(cells, Put(t, b, a, v))
  {
    assert RowOk(b, t[b]);
    assert RowOk(b, t[b][a := Some(v)]);
  }

  /** The one entry that an update changes keeps the part 1 - alpha of its distance to the target. */
  lemma LearnsTowards(t: Table, alpha: real, gamma: real, s: Board, a: nat, reward: real, next: Option<Board>)
    requires Defined(Looked(t, s, next), s, a, next)
    ensures var (u, v) := (Looked(t, s, next), Updated(t, alpha, gamma, s, a, reward, next));
            && v.Keys == u.Keys && |v[s]| == |u[s]| && v[s][a].Some?
            && v[s][a].value - Target(u, gamma, reward, next)
               == (1.0 - alpha) * (u[s][a].value - Target(u, gamma, reward, next))
            && (forall b :: b in u && b != s ==> v[b] == u[b])
            && forall i :: 0 <= i < |u[s]| && i != a ==> v[s][i] == u[s][i]
  {
    hide Looked, NanMax, Target;
    var u: Table := Looked(t, s, next);
    var row: Row := u[s];
    Remaining(row[a].value, alpha, Target(u, gamma, reward, next));
  }

  lemma Remaining(q: real, alpha: real, target: real)
    ensures Nudge(q, alpha, target) - target == (1.0 - alpha) * (q - target)
  {
  }

  /** Before the end of the game the target is the discounted value of an action that is legal on the next board and
      none is better. */
  lemma TargetIsBest(cells: nat, u: Table, gamma: real, next: Board) returns (best: nat)
    requires TableOk(cells, u) && next in u && LegalMoves(next) != []
    ensures |next| == |u[next]| == cells && NanMax(u[next]).Some?
    ensures best < cells && next[best] == EMPTY && u[next][best].Some?
    ensures Target(u, gamma, 0.0, Some(next)) == gamma * u[next][best].value
    ensures forall i :: 0 <= i < cells && next[i] == EMPTY ==>
              u[next][i].Some? && u[next][i].value <= u[next][best].value
  {
    hide TableOk, LegalMoves, NanMax;
    BestNext(cells, u, next);
    RowIsOk(cells, u, next);
    best := BestEntry(u[next]);
  }

  /** flatnonzero(q == m): the places of a value, in ascending order. */
  function PlacesFrom(q: Row, m: Option<real>, i: nat): (p: seq<nat>)
    requires i <= |q|
    ensures forall k :: 0 <= k < |p| ==> i <= p[k] < |q| && q[p[k]] == m
    ensures forall a :: i <= a < |q| && q[a] == m ==> a in p
    ensures forall j, k :: 0 <= j < k < |p| ==> p[j] < p[k]
    decreases |q| - i
  {
    if i == |q| then [] else if q[i] == m then [i] + PlacesFrom(q, m, i + 1) else PlacesFrom(q, m, i + 1)
  }

  /** The candidates of the greedy choice are exactly the legal actions that none beats. */
  lemma CandidatesAreMaximal(cells: nat, t: Table, b: Board)
    requires TableOk(cells, t) && |b| == cells && LegalMoves(b) != []
    ensures var q := Entry(t, b);
            var places := PlacesFrom(q, NanMax(q), 0);
            places != [] && forall a: nat :: a in places <==> Maximal(t, b, a)
  {
    var q := Entry(t, b);
    EntryOk(cells, t, b);
    EntryBest(cells, t, b);
    hide TableOk, Entry, Ensure, NanMax, PlacesFrom, LegalMoves;
    var k := BestEntry(q);
    forall a: nat ensures a < |q| && q[a] == NanMax(q) <==> Maximal(t, b, a) {
      if Maximal(t, b, a) {
        assert q[k].value <= q[a].value;
      }
    }
  }

  lemma EntryBest(cells: nat, t: Table, b: Board)
    requires TableOk(cells, t) && |b| == cells && LegalMoves(b) != []
    ensures NanMax(Entry(t, b)).Some?
  {
    EnsureKeeps(cells, t, b);
    BestNext(cells, Ensure(t, b), b);
    EntryOk(cells, t, b);
  }

  lemma EntryOk(cells: nat, t: Table, b: Board)
    requires TableOk(cells, t) && |b| == cells
    ensures RowOk(b, Entry(t, b)) && Ensure(t, b)[b] == Entry(t, b)
  {
  }

  /** The action is legal on the board, and no other has a greater value in the table. */
  ghost predicate Maximal(t: Table, b: Board, best: nat) {
    && best < |b| == |Entry(t, b)| && b[best] == EMPTY && Entry(t, b)[best].Some?
    && forall i :: 0 <= i < |b| && b[i] == EMPTY ==>
         Entry(t, b)[i].Some? && Entry(t, b)[i].value <= Entry(t, b)[best].value
  }

  /** The whole effect of an update: the one value becomes its mean, weighted by alpha, with the reward, to which before
      the end of the game the discounted value of a best action on the next board is added; no other value changes. */
  lemma UpdateMeans(cells: nat, t: Table, alpha: real, gamma: real, s: Board, a: nat, reward: real,
                    next: Option<Board>)
    returns (best: nat)
    requires TableOk(cells, t) && 0.0 <= alpha <= 1.0 && 0.0 <= gamma <= 1.0 && Transition(cells, s, a, reward, next)
    ensures Defined(Looked(t, s, next), s, a, next)
    ensures next.Some? ==> Maximal(t, next.value, best)
    ensures a < |Entry(t, s)| && Entry(t, s)[a].Some?
    ensures var v := Entry(Updated(t, alpha, gamma, s, a, reward, next), s);
            && a < |v| && v[a].Some? && v == Entry(t, s)[a := v[a]]
            && (next.None? ==> v[a].value == (1.0 - alpha) * Entry(t, s)[a].value + alpha * reward)
            && (next.Some? ==> v[a].value == (1.0 - alpha) * Entry(t, s)[a].value
                                             + alpha * (reward + gamma * Entry(t, next.value)[best].value))
    ensures forall b :: b != s ==> Entry(Updated(t, alpha, gamma, s, a, reward, next), b) == Entry(t, b)
  {
    hide TableOk, Looked, NanMax, LegalMoves, Target, Updated, Learned, Put, Defined, Maximal, FreshRow;
    best := UpdateGives(cells, t, alpha, gamma, s, a, reward, next);
  }

  lemma UpdateGives(cells: nat, t: Table, alpha: real, gamma: real, s: Board, a: nat, reward: real,
                    next: Option<Board>)
    returns (best: nat)
    requires TableOk(cells, t) && 0.0 <= alpha <= 1.0 && 0.0 <= gamma <= 1.0 && Transition(cells, s, a, reward, next)
    ensures Defined(Looked(t, s, next), s, a, next)
    ensures next.Some? ==> Maximal(t, next.value, best)
    ensures a < |Entry(t, s)| && Entry(t, s)[a].Some?
    ensures var v := Updated(t, alpha, gamma, s, a, reward, next);
            && s in v && v[s] == Entry(t, s)[a := Some(NewValue(t, alpha, gamma, s, a, reward, next, best))]
            && forall b :: b != s ==> Entry(v, b) == Entry(t, b)
  {
    hide TableOk, Looked, NanMax, LegalMoves, Target, Updated, Learned, Put, Defined, NewValue, Entry, Maximal;
    UpdateKeeps(cells, t, alpha, gamma, s, a, reward, next);
    LookedRows(cells, t, s, next);
    UpdateParts(t, alpha, gamma, s, a, reward, next);
    var u := Looked(t, s, next);
    best := 0;
    if next.Some? {
      best := BestNextValue(cells, t, alpha, gamma, s, a, next.value);
    } else {
      TerminalLearned(t, u, alpha, gamma, s, a, reward);
    }
    PutEntries(t, u, s, a, Learned(u, alpha, gamma, s, a, reward, next));
  }

  lemma BestNextValue(cells: nat, t: Table, alpha: real, gamma: real, s: Board, a: nat, next: Board)
    returns (best: nat)
    requires TableOk(cells, t) && Transition(cells, s, a, 0.0, Some(next))
    requires Defined(Looked(t, s, Some(next)), s, a, Some(next))
    ensures a < |Entry(t, s)| && Entry(t, s)[a].Some? && Maximal(t, next, best)
    ensures Learned(Looked(t, s, Some(next)), alpha, gamma, s, a, 0.0, Some(next))
         == NewValue(t, alpha, gamma, s, a, 0.0, Some(next), best)
  {
    hide TableOk, Looked, NanMax, LegalMoves, Target, Learned, NewValue, Entry;
    var u := Looked(t, s, Some(next));
    LookedRows(cells, t, s, Some(next));
    LookedKeeps(cells, t, s, Some(next));
    best := TargetIsBest(cells, u, gamma, next);
    LearnedBefore(t, u, alpha, gamma, s, a, next, best);
  }

  lemma LearnedBefore(t: Table, u: Table, alpha: real, gamma: real, s: Board, a: nat, next: Board, best: nat)
    requires Defined(u, s, a, Some(next)) && u[s] == Entry(t, s) && u[next] == Entry(t, next)
    requires best < |u[next]| && u[next][best].Some?
    requires Target(u, gamma, 0.0, Some(next)) == gamma * u[next][best].value
    requires Maximal(t, next, best)
    ensures Learned(u, alpha, gamma, s, a, 0.0, Some(next)) == NewValue(t, alpha, gamma, s, a, 0.0, Some(next), best)
  {
    hide Nudge, Target, Entry, NanMax;
    Mean(u[s][a].value, alpha, Target(u, gamma, 0.0, Some(next)));
  }

  lemma TerminalLearned(t: Table, u: Table, alpha: real, gamma: real, s: Board, a: nat, reward: real)
    requires Defined(u, s, a, None) && u[s] == Entry(t, s)
    ensures Learned(u, alpha, gamma, s, a, reward, None) == NewValue(t, alpha, gamma, s, a, reward, None, 0)
  {
    hide Nudge, Entry, NanMax;
    Mean(u[s][a].value, alpha, reward);
  }

  lemma PutEntries(t: Table, u: Table, s: Board, a: nat, v: real)
    requires forall b :: Entry(u, b) == Entry(t, b)
    requires s in u && a < |u[s]|
    ensures a < |Entry(t, s)| && s in Put(u, s, a, v) && Put(u, s, a, v)[s] == Entry(t, s)[a := Some(v)]
    ensures forall b :: b != s ==> Entry(Put(u, s, a, v), b) == Entry(t, b)
  {
    assert Entry(t, s) == u[s];
    forall b | b != s ensures Entry(Put(u, s, a, v), b) == Entry(t, b) {
      assert Entry(u, b) == Entry(t, b);
    }
  }

  lemma UpdateParts(t: Table, alpha: real, gamma: real, s: Board, a: nat, reward: real, next: Option<Board>)
    requires Defined(Looked(t, s, next), s, a, next)
    ensures var u := Looked(t, s, next);
            && s in u && a < |u[s]| && u[s][a].Some? && (next.Some? ==> next.value in u && NanMax(u[next.value]).Some?)
            && Updated(t, alpha, gamma, s, a, reward, next)
               == Put(u, s, a, Learned(u, alpha, gamma, s, a, reward, next))
            && Learned(u, alpha, gamma, s, a, reward, next)
               == Nudge(u[s][a].value, alpha, Target(u, gamma, reward, next))
  {
    hide Looked;
  }

  /** The mean of the old value and of what the transition promises. */
  ghost function NewValue(t: Table, alpha: real, gamma: real, s: Board, a: nat, reward: real, next: Option<Board>,
                          best: nat): real
    requires a < |Entry(t, s)| && Entry(t, s)[a].Some?
    requires next.Some? ==> Maximal(t, next.value, best)
  {
    if next.None? then (1.0 - alpha) * Entry(t, s)[a].value + alpha * reward
    else (1.0 - alpha) * Entry(t, s)[a].value + alpha * (reward + gamma * Entry(t, next.value)[best].value)
  }

  lemma Mean(q: real, alpha: real, target: real)
    ensures Nudge(q, alpha, target) == (1.0 - alpha) * q + alpha * target
  {
  }

  lemma LookedRows(cells: nat, t: Table, s: Board, next: Option<Board>)
    requires TableOk(cells, t) && |s| == cells && (next.Some? ==> |next.value| == cells)
    ensures forall b :: Entry(Looked(t, s, next), b) == Entry(t, b)
    ensures s in Looked(t, s, next) && Looked(t, s, next)[s] == Entry(t, s)
    ensures next.Some? ==> next.value in Looked(t, s, next) && Looked(t, s, next)[next.value] == Entry(t, next.value)
  {
    hide FreshRow;
  }

  lemma BestEntry(row: Row) returns (best: nat)
    requires NanMax(row).Some?
    ensures best < |row| && row[best] == NanMax(row)
    ensures forall i :: 0 <= i < |row| && row[i].Some? ==> row[i].value <= row[best].value
  {
    best :| 0 <= best < |row| && row[best] == NanMax(row);
  }
}
