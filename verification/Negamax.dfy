/** Perfect play: _negamax and minimax_player of rl-ttt/rl_ttt/opponents.py, and why the move they give is optimal
    against every opponent, however its moves depend on the course of the game. */
module Negamax {
  import opened Options
  import opened TicTacToe

  type Outcome = (int, Option<nat>)

  /** The plain recursion: value for the side to move, and the first best action. */
  function Plain(r: Rules, b: Board): Outcome
    requires ValidRules(r) && |b| == r.cells
    decreases Empties(b), r.cells + 1
  {
    var (done, reward) := IsTerminal(r, b);
    if done then (reward, None) else Scan(r, b, 0, -2, None)
  }

  /** The loop from the k-th legal move on, with best_value and best_action so far. */
  function Scan(r: Rules, b: Board, k: nat, bestValue: int, bestAction: Option<nat>): Outcome
    requires ValidRules(r) && |b| == r.cells && k <= |LegalMoves(b)|
    decreases Empties(b), 0, |LegalMoves(b)| - k
  {
    if k == |LegalMoves(b)| then (bestValue, bestAction)
    else
      var a := LegalMoves(b)[k];
      MoveFacts(b, k);
      var value := -Plain(r, Child(b, a)).0;
      if value > bestValue then Scan(r, b, k + 1, value, Some(a)) else Scan(r, b, k + 1, bestValue, bestAction)
  }

  lemma MoveFacts(b: Board, k: nat)
    requires k < |LegalMoves(b)|
    ensures var a := LegalMoves(b)[k];
            a < |b| && b[a] == EMPTY && |Child(b, a)| == |b| && Empties(Child(b, a)) < Empties(b)
  {
    ChildEmpties(b, LegalMoves(b)[k]);
  }

  /** The value of a position for the side to move. */
  function Value(r: Rules, b: Board): int
    requires ValidRules(r) && |b| == r.cells
  {
    Plain(r, b).0
  }

  /** What a move is worth to the side that makes it. */
  function Worth(r: Rules, b: Board, a: nat): int
    requires ValidRules(r) && |b| == r.cells && a < |b| && b[a] == EMPTY
  {
    -Value(r, Child(b, a))
  }

  /** The k-th legal move is worth this much. */
  ghost function WorthAt(r: Rules, b: Board, k: nat): int
    requires ValidRules(r) && |b| == r.cells && k < |LegalMoves(b)|
  {
    MoveFacts(b, k);
    Worth(r, b, LegalMoves(b)[k])
  }

  lemma ScanNext(r: Rules, b: Board, k: nat, bestValue: int, bestAction: Option<nat>)
    requires ValidRules(r) && |b| == r.cells && k < |LegalMoves(b)|
    ensures Scan(r, b, k, bestValue, bestAction)
         == if WorthAt(r, b, k) > bestValue then Scan(r, b, k + 1, WorthAt(r, b, k), Some(LegalMoves(b)[k]))
            else Scan(r, b, k + 1, bestValue, bestAction)
  {
  }

  lemma ScanEnd(r: Rules, b: Board, bestValue: int, bestAction: Option<nat>)
    requires ValidRules(r) && |b| == r.cells
    ensures Scan(r, b, |LegalMoves(b)|, bestValue, bestAction) == (bestValue, bestAction)
  {
  }

  lemma WorthIs(r: Rules, b: Board, k: nat)
    requires ValidRules(r) && |b| == r.cells && k < |LegalMoves(b)|
    ensures |Child(b, LegalMoves(b)[k])| == |b| && WorthAt(r, b, k) == -Plain(r, Child(b, LegalMoves(b)[k])).0
  {
  }

  /** The loop finds the first of the best moves, if one beats the best value it starts with. */
  lemma {:induction false} ScanBest(r: Rules, b: Board, k: nat, bestValue: int, bestAction: Option<nat>)
    returns (i: nat)
    requires ValidRules(r) && |b| == r.cells && k <= |LegalMoves(b)|
    ensures var (v, a) := Scan(r, b, k, bestValue, bestAction);
            && v >= bestValue
            && (forall j :: k <= j < |LegalMoves(b)| ==> WorthAt(r, b, j) <= v)
            && (v == bestValue ==> a == bestAction)
            && (v > bestValue ==> k <= i < |LegalMoves(b)| && a == Some(LegalMoves(b)[i]) && WorthAt(r, b, i) == v
                                  && forall j :: k <= j < i ==> WorthAt(r, b, j) < v)
    decreases |LegalMoves(b)| - k
  {
    hide Scan, LegalMoves, WorthAt;
    i := k;
    if k == |LegalMoves(b)| {
      ScanEnd(r, b, bestValue, bestAction);
    } else {
      ScanNext(r, b, k, bestValue, bestAction);
      if WorthAt(r, b, k) > bestValue {
        var n := ScanBest(r, b, k + 1, WorthAt(r, b, k), Some(LegalMoves(b)[k]));
        i := if Scan(r, b, k, bestValue, bestAction).0 == WorthAt(r, b, k) then k else n;
      } else {
        i := ScanBest(r, b, k + 1, bestValue, bestAction);
      }
    }
  }

  /** Values are -1, 0 or 1. */
  lemma {:induction false} ValueRange(r: Rules, b: Board)
    requires ValidRules(r) && |b| == r.cells
    ensures -1 <= Value(r, b) <= 1
    decreases Empties(b)
  {
    if !IsTerminal(r, b).0 {
      forall k | 0 <= k < |LegalMoves(b)| ensures -1 <= WorthAt(r, b, k) <= 1 {
        MoveFacts(b, k);
        ValueRange(r, Child(b, LegalMoves(b)[k]));
      }
      hide WorthAt;
      var i := ScanBest(r, b, 0, -2, None);
      assert -1 <= WorthAt(r, b, 0) <= Value(r, b);
    } else {
      WinnerRange(r, b, 0);
    }
  }

  /** While the game goes on, there is a best action: it is legal, worth the position's value, no legal move is
      worth more, and every lower-numbered one is worth less. */
  lemma BestAction(r: Rules, b: Board) returns (a: nat)
    requires ValidRules(r) && |b| == r.cells && !IsTerminal(r, b).0
    ensures Plain(r, b).1 == Some(a)
    ensures a < |b| && b[a] == EMPTY && Worth(r, b, a) == Value(r, b)
    ensures forall m :: 0 <= m < |b| && b[m] == EMPTY ==>
              Worth(r, b, m) <= Value(r, b) && (m < a ==> Worth(r, b, m) < Value(r, b))
  {
    var i := ScanBest(r, b, 0, -2, None);
    MoveFacts(b, 0);
    ValueRange(r, Child(b, LegalMoves(b)[0]));
    WorthIs(r, b, 0);
    a := LegalMoves(b)[i];
    hide Scan, LegalMoves;
    forall m | 0 <= m < |b| && b[m] == EMPTY
      ensures Worth(r, b, m) <= Value(r, b) && (m < a ==> Worth(r, b, m) < Value(r, b))
    {
      assert m in LegalMoves(b);
      var j :| 0 <= j < |LegalMoves(b)| && LegalMoves(b)[j] == m;
      assert WorthAt(r, b, j) == Worth(r, b, m);
    }
  }

  /** A move that completes a line is worth 1, and so then is every move that minimax_player makes. */
  lemma WinIsTaken(r: Rules, b: Board, m: nat) returns (a: nat)
    requires ValidRules(r) && ValidBoard(r, b) && !IsTerminal(r, b).0 && m < |b| && b[m] == EMPTY
    requires HasLine(r, b[m := ME], ME)
    ensures Worth(r, b, m) == 1
    ensures Plain(r, b).1 == Some(a) && a < |b| && b[a] == EMPTY && Worth(r, b, a) == 1
  {
    hide IsTerminal, Value, HasLine;
    EndingMove(r, b, m);
    ValueRange(r, b);
    a := BestAction(r, b);
  }

  lemma EndingMove(r: Rules, b: Board, m: nat)
    requires ValidRules(r) && ValidBoard(r, b) && !IsTerminal(r, b).0 && m < |b| && b[m] == EMPTY
    requires HasLine(r, b[m := ME], ME)
    ensures Worth(r, b, m) == 1
  {
    MoveReward(r, b, m);
    TerminalMeans(r, b[m := ME]);
    FlipTerminal(r, b[m := ME]);
    hide IsTerminal, HasLine;
    TerminalValue(r, Flip(b[m := ME]));
  }

  /** A move after which the opponent can complete a line is worth -1, so it is made only if all are. */
  lemma ThreatIsMet(r: Rules, b: Board, m: nat, reply: nat)
    requires ValidRules(r) && ValidBoard(r, b) && !IsTerminal(r, b).0 && m < |b| && b[m] == EMPTY
    requires !IsTerminal(r, Child(b, m)).0 && reply < |b| && Child(b, m)[reply] == EMPTY
    requires HasLine(r, b[m := ME][reply := OPP], OPP)
    ensures Worth(r, b, m) == -1
    ensures Plain(r, b).1 == Some(m) ==> forall a :: 0 <= a < |b| && b[a] == EMPTY ==> Worth(r, b, a) == -1
  {
    var c := Child(b, m);
    FlippedLine(r, b[m := ME][reply := OPP], c[reply := ME]);
    hide IsTerminal, Value, HasLine, Child;
    var best := WinIsTaken(r, c, reply);
    ValueRange(r, c);
    BestValue(r, c, reply);
    var a := BestAction(r, b);
    if Plain(r, b).1 == Some(m) {
      forall a | 0 <= a < |b| && b[a] == EMPTY ensures Worth(r, b, a) == -1 {
        ChildEmpties(b, a);
        ValueRange(r, Child(b, a));
      }
    }
  }

  lemma BestValue(r: Rules, b: Board, m: nat)
    requires ValidRules(r) && |b| == r.cells && !IsTerminal(r, b).0 && m < |b| && b[m] == EMPTY
    ensures Value(r, b) >= Worth(r, b, m)
  {
    hide IsTerminal, Value;
    var a := BestAction(r, b);
  }

  lemma FlippedLine(r: Rules, b: Board, f: Board)
    requires ValidRules(r) && |b| == |f| == r.cells && f == Flip(b) && HasLine(r, b, OPP)
    ensures HasLine(r, f, ME)
  {
    var i :| 0 <= i < |r.lines| && Owns(b, OPP, r.lines[i]);
    assert Owns(f, ME, r.lines[i]);
  }

  // ---------- the memoized search ----------

  ghost predicate Sound(r: Rules, cache: map<Board, Outcome>)
    requires ValidRules(r)
  {
    forall b :: b in cache ==> |b| == r.cells && cache[b] == Plain(r, b)
  }

  lemma SoundKept(r: Rules, cache: map<Board, Outcome>, b: Board)
    requires ValidRules(r) && Sound(r, cache) && |b| == r.cells
    ensures b in cache ==> cache[b] == Plain(r, b)
    ensures Sound(r, cache[b := Plain(r, b)])
  {
    hide Plain;
  }

  /** The search with the cache of lru_cache, which lives as long as the process. */
  class Solver {
    const rules: Rules
    var cache: map<Board, Outcome>

    ghost predicate Valid()
      reads this
    {
      ValidRules(rules) && Sound(rules, cache)
    }

    constructor (rules: Rules)
      requires ValidRules(rules)
      ensures Valid() && this.rules == rules && cache == map[]
    {
      this.rules := rules;
      cache := map[];
    }

    /** _negamax: whatever the cache holds from earlier searches, the result is that of the plain recursion. */
    method Search(b: Board) returns (o: Outcome)
      requires Valid() && |b| == rules.cells
      modifies this
      ensures Valid() && o == Plain(rules, b) && b in cache && old(cache.Keys) <= cache.Keys
      decreases Empties(b)
    {
      SoundKept(rules, cache, b);
      if b in cache {
        return cache[b];
      }
      if IsTerminal(rules, b).0 {
        o := (IsTerminal(rules, b).1, None);
      } else {
        o := SearchMoves(b);
      }
      SoundKept(rules, cache, b);
      cache := cache[b := o];
    }

    /** its loop over the legal moves */
    method SearchMoves(b: Board) returns (o: Outcome)
      requires Valid() && |b| == rules.cells
      modifies this
      ensures Valid() && o == Scan(rules, b, 0, -2, None) && old(cache.Keys) <= cache.Keys
      decreases Empties(b), 0
    {
      hide Plain, IsTerminal, LegalMoves, Empties, ValidRules, Sound, Child, WorthAt;
      var moves := LegalMoves(b);
      var bestValue, bestAction: Option<nat> := -2, None;
      for k := 0 to |moves|
        invariant Valid() && old(cache.Keys) <= cache.Keys
        invariant Scan(rules, b, k, bestValue, bestAction) == Scan(rules, b, 0, -2, None)
      {
        MoveFacts(b, k);
        ScanNext(rules, b, k, bestValue, bestAction);
        WorthIs(rules, b, k);
        var child := Search(Child(b, moves[k]));
        var value := -child.0;
        if value > bestValue {
          bestValue, bestAction := value, Some(moves[k]);
        }
      }
      o := (bestValue, bestAction);
    }

    /** minimax_player: None stands for the exceptions it raises. */
    method MinimaxPlayer(b: Board) returns (action: Option<nat>)
      requires Valid() && |b| == rules.cells
      modifies this
      ensures Valid()
      ensures action == Minimax(rules, b)
    {
      if LegalMoves(b) == [] {
        return None;
      }
      var o := Search(b);
      action := o.1;
    }
  }

  /** The move minimax_player gives; None on a board where the game is over. */
  function Minimax(r: Rules, b: Board): Option<nat>
    requires ValidRules(r) && |b| == r.cells
  {
    if LegalMoves(b) == [] then None else Plain(r, b).1
  }

  // ---------- optimality ----------

  /** A player: the boards it has seen, the present one last, to a move. */
  type Strategy = seq<Board> -> nat

  /** It moves legally wherever the game goes on. */
  ghost predicate Legal(r: Rules, p: Strategy)
    requires ValidRules(r)
  {
    forall h: seq<Board> :: h != [] && |h[|h| - 1]| == r.cells && !IsTerminal(r, h[|h| - 1]).0 ==>
      p(h) < r.cells && h[|h| - 1][p(h)] == EMPTY
  }

  /** The result for the side to move when `me` plays it against `other`, after the history h. */
  function Play(r: Rules, h: seq<Board>, b: Board, me: Strategy, other: Strategy): int
    requires ValidRules(r) && |b| == r.cells
    decreases Empties(b)
  {
    var (done, reward) := IsTerminal(r, b);
    if done then reward
    else
      var a := me(h + [b]);
      if a < |b| && b[a] == EMPTY then
        ChildEmpties(b, a);
        -Play(r, h + [b], Child(b, a), other, me)
      else -1 // an illegal move loses
  }

  /** minimax_player as a strategy: it looks at the present board only. */
  ghost function Perfect(r: Rules): Strategy
    requires ValidRules(r)
  {
    (h: seq<Board>) =>
      if h != [] && |h[|h| - 1]| == r.cells && Minimax(r, h[|h| - 1]).Some? then Minimax(r, h[|h| - 1]).value else 0
  }

  lemma PerfectIsLegal(r: Rules)
    requires ValidRules(r)
    ensures Legal(r, Perfect(r))
    ensures forall b: Board :: |b| == r.cells ==> (Minimax(r, b).Some? <==> !IsTerminal(r, b).0)
  {
    forall b: Board | |b| == r.cells && !IsTerminal(r, b).0
      ensures Minimax(r, b).Some? && Minimax(r, b).value < |b| && b[Minimax(r, b).value] == EMPTY
    {
      var a := BestAction(r, b);
    }
  }

  /** To move, minimax_player gets at least the value of the position, against any opponent; with the opponent to
      move, the opponent gets at most the value. The opponent may use the whole history of the game. */
  lemma {:induction false} Guarantee(r: Rules, h: seq<Board>, b: Board, other: Strategy)
    requires ValidRules(r) && |b| == r.cells && Legal(r, other)
    ensures Play(r, h, b, Perfect(r), other) >= Value(r, b)
    ensures Play(r, h, b, other, Perfect(r)) <= Value(r, b)
    decreases Empties(b)
  {
    PlayUnfolds(r, h, b, Perfect(r), other);
    PlayUnfolds(r, h, b, other, Perfect(r));
    hide Play, LegalMoves, IsTerminal, Child, Empties, ValidRules;
    if IsTerminal(r, b).0 {
      TerminalValue(r, b);
    } else {
      hide Plain;
      assert (h + [b])[|h + [b]| - 1] == b;
      var a := BestAction(r, b);
      PerfectMove(r, h, b, a);
      ChildEmpties(b, a);
      Guarantee(r, h + [b], Child(b, a), other);
      var m := other(h + [b]);
      ChildEmpties(b, m);
      Guarantee(r, h + [b], Child(b, m), other);
      assert Worth(r, b, m) <= Value(r, b);
    }
  }

  lemma PlayUnfolds(r: Rules, h: seq<Board>, b: Board, me: Strategy, other: Strategy)
    requires ValidRules(r) && |b| == r.cells
    ensures IsTerminal(r, b).0 ==> Play(r, h, b, me, other) == IsTerminal(r, b).1
    ensures var a := me(h + [b]);
            !IsTerminal(r, b).0 && a < |b| && b[a] == EMPTY ==>
              |Child(b, a)| == |b| && Play(r, h, b, me, other) == -Play(r, h + [b], Child(b, a), other, me)
  {
  }

  lemma TerminalValue(r: Rules, b: Board)
    requires ValidRules(r) && |b| == r.cells && IsTerminal(r, b).0
    ensures Value(r, b) == IsTerminal(r, b).1
  {
  }

  lemma PerfectMove(r: Rules, h: seq<Board>, b: Board, a: nat)
    requires ValidRules(r) && |b| == r.cells && LegalMoves(b) != [] && Plain(r, b).1 == Some(a)
    ensures Perfect(r)(h + [b]) == a
  {
    hide Plain;
    assert (h + [b])[|h + [b]| - 1] == b;
  }

  /** minimax_player is optimal: it guarantees the value of the position against every legal opponent, and no
      strategy guarantees more, for minimax_player as the opponent holds it down to the value. */
  lemma Optimal(r: Rules, b: Board, p: Strategy)
    requires ValidRules(r) && |b| == r.cells && Legal(r, p)
    ensures Play(r, [], b, Perfect(r), p) >= Value(r, b) >= Play(r, [], b, p, Perfect(r))
    ensures Play(r, [], b, Perfect(r), Perfect(r)) == Value(r, b)
  {
    Guarantee(r, [], b, p);
    PerfectIsLegal(r);
    Guarantee(r, [], b, Perfect(r));
  }
}
