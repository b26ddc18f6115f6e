/** One game of rl-ttt/rl_ttt/train.py as a value: its moves and who moves first. From these follow the boards, the
    outcome in the trainee's view, what the trainee experiences, and what a table has learned from it. */
module Episodes {
  import opened Options
  import opened TicTacToe
  import opened QTable
  import Negamax

  // ---------- games ----------

  /** The board after the moves, as the side to move sees it. */
  function Position(r: Rules, moves: seq<nat>): (b: Board)
    ensures |b| == r.cells
  {
    if moves == [] then InitialBoard(r)
    else
      var b, m := Position(r, moves[..|moves| - 1]), moves[|moves| - 1];
      if m < |b| && b[m] == EMPTY then Child(b, m) else b
  }

  /** Every move is legal, and made while the game goes on. */
  ghost predicate Moves(r: Rules, moves: seq<nat>)
    requires ValidRules(r)
  {
    forall k :: 0 <= k < |moves| ==> MovesAt(r, Position(r, moves[..k]), moves[k])
  }

  ghost predicate MovesAt(r: Rules, b: Board, m: nat)
    requires ValidRules(r) && |b| == r.cells
  {
    !IsTerminal(r, b).0 && m < r.cells && b[m] == EMPTY
  }

  /** The game is over after the last move. */
  ghost predicate Finished(r: Rules, moves: seq<nat>)
    requires ValidRules(r)
  {
    moves != [] && Moves(r, moves) && IsTerminal(r, Position(r, moves)).0
  }

  /** The trainee makes every other move. */
  predicate TraineeMoves(first: bool, k: nat) {
    (k % 2 == 0) == first
  }

  /** The index of the trainee's first move. */
  function Start(first: bool): nat {
    if first then 0 else 1
  }

  /** What the last move gives to the side that makes it. */
  function LastReward(r: Rules, moves: seq<nat>): int
    requires ValidRules(r) && moves != [] && moves[|moves| - 1] < r.cells
  {
    IsTerminal(r, Position(r, moves[..|moves| - 1])[moves[|moves| - 1] := ME]).1
  }

  /** The result in the trainee's view. */
  function Outcome(r: Rules, moves: seq<nat>, first: bool): int
    requires ValidRules(r) && moves != [] && moves[|moves| - 1] < r.cells
  {
    if TraineeMoves(first, |moves| - 1) then LastReward(r, moves) else -LastReward(r, moves)
  }

  lemma MovesSnoc(r: Rules, moves: seq<nat>, m: nat)
    requires ValidRules(r) && Moves(r, moves) && MovesAt(r, Position(r, moves), m)
    ensures Moves(r, moves + [m]) && Position(r, moves + [m]) == Child(Position(r, moves), m)
    ensures LastReward(r, moves + [m]) == IsTerminal(r, Position(r, moves)[m := ME]).1
  {
    hide IsTerminal, InitialBoard, Child;
    var more := moves + [m];
    assert more[..|moves|] == moves;
    forall k | 0 <= k < |more| ensures MovesAt(r, Position(r, more[..k]), more[k]) {
      if k < |moves| {
        assert more[..k] == moves[..k];
      }
    }
  }

  // ---------- the result of a game, from its moves alone ----------

  /** The cell was taken by the side that moves first (0) or second (1). */
  ghost predicate Played(moves: seq<nat>, side: nat, cell: nat) {
    exists k :: 0 <= k < |moves| && moves[k] == cell && k % 2 == side
  }

  /** The side has taken all the cells of a line. */
  ghost predicate HasPlayedLine(r: Rules, moves: seq<nat>, side: nat) {
    exists i :: 0 <= i < |r.lines| && PlayedLine(moves, side, r.lines[i])
  }

  ghost predicate PlayedLine(moves: seq<nat>, side: nat, line: Line) {
    Played(moves, side, line.a) && Played(moves, side, line.b) && Played(moves, side, line.c)
  }

  lemma PlayedSnoc(moves: seq<nat>, m: nat, side: nat, cell: nat)
    requires m !in moves
    ensures Played(moves + [m], side, cell)
       <==> if cell == m then side == |moves| % 2 else Played(moves, side, cell)
  {
    var more := moves + [m];
    if cell == m {
      assert more[|moves|] == cell;
    } else if k :| 0 <= k < |moves| && moves[k] == cell && k % 2 == side {
      assert more[k] == cell;
    }
  }

  /** The board shows who has taken which cell, and whose turn it is. */
  ghost predicate Shows(r: Rules, b: Board, moves: seq<nat>) {
    && ValidBoard(r, b)
    && forall c :: 0 <= c < r.cells ==>
         && (b[c] == ME <==> Played(moves, |moves| % 2, c))
         && (b[c] == OPP <==> Played(moves, 1 - |moves| % 2, c))
         && (b[c] == EMPTY <==> c !in moves)
  }

  lemma {:induction false} PositionShows(r: Rules, moves: seq<nat>)
    requires ValidRules(r) && Moves(r, moves)
    ensures Shows(r, Position(r, moves), moves)
  {
    hide IsTerminal;
    if moves != [] {
      var front, m := moves[..|moves| - 1], moves[|moves| - 1];
      assert front + [m] == moves;
      forall k | 0 <= k < |front| ensures front[..k] == moves[..k] && front[k] == moves[k] {
      }
      PositionShows(r, front);
      assert MovesAt(r, Position(r, front), m);
      ShowsNext(r, Position(r, front), front, m);
    }
  }

  lemma ShowsNext(r: Rules, b: Board, moves: seq<nat>, m: nat)
    requires Shows(r, b, moves) && m < r.cells && b[m] == EMPTY
    ensures Shows(r, Child(b, m), moves + [m])
  {
    hide Played;
    ChildIs(b, m);
    hide Child;
    forall c | 0 <= c < r.cells
      ensures Child(b, m)[c] == ME <==> Played(moves + [m], |moves + [m]| % 2, c)
      ensures Child(b, m)[c] == OPP <==> Played(moves + [m], 1 - |moves + [m]| % 2, c)
      ensures Child(b, m)[c] == EMPTY <==> c !in moves + [m]
    {
      PlayedSnoc(moves, m, 0, c);
      PlayedSnoc(moves, m, 1, c);
    }
  }

  /** The trainee is the side 0 or 1. */
  function Trainee(first: bool): nat {
    if first then 0 else 1
  }

  /** The outcome of a game is 1 exactly if the trainee has taken all the cells of a line, -1 exactly if the opponent
      has, never both, and otherwise 0 with every cell taken. */
  lemma GameResult(r: Rules, g: Game)
    requires ValidRules(r) && IsGame(r, g)
    ensures g.outcome == 1 <==> HasPlayedLine(r, g.moves, Trainee(g.first))
    ensures g.outcome == -1 <==> HasPlayedLine(r, g.moves, 1 - Trainee(g.first))
    ensures g.outcome == 1 || g.outcome == -1 ||
            (g.outcome == 0 && forall c :: 0 <= c < r.cells ==> c in g.moves)
  {
    hide IsTerminal, Child, Played, Position, HasLine, HasPlayedLine;
    var front, m := g.moves[..|g.moves| - 1], g.moves[|g.moves| - 1];
    assert front + [m] == g.moves;
    PositionShows(r, g.moves);
    LastMove(r, g.moves);
    PositionShows(r, front);
    var b := Position(r, front);
    MoveReward(r, b, m);
    ChildIs(b, m);
    FlipTerminal(r, b[m := ME]);
    LinesShown(r, b[m := ME], g.moves);
  }

  lemma LastMove(r: Rules, moves: seq<nat>)
    requires ValidRules(r) && Moves(r, moves) && moves != []
    ensures var (front, m) := (moves[..|moves| - 1], moves[|moves| - 1]);
            Moves(r, front) && MovesAt(r, Position(r, front), m) && Position(r, moves) == Child(Position(r, front), m)
  {
    hide IsTerminal, Child, InitialBoard;
    var front := moves[..|moves| - 1];
    forall k | 0 <= k < |front| ensures front[..k] == moves[..k] && front[k] == moves[k] {
    }
    assert MovesAt(r, Position(r, front), moves[|moves| - 1]);
  }

  lemma LinesShown(r: Rules, b: Board, moves: seq<nat>)
    requires ValidRules(r) && |b| == r.cells && moves != [] && Shows(r, Flip(b), moves)
    ensures HasLine(r, b, ME) <==> HasPlayedLine(r, moves, (|moves| - 1) % 2)
    ensures HasLine(r, b, OPP) <==> HasPlayedLine(r, moves, 1 - (|moves| - 1) % 2)
  {
    hide Played;
    forall i | 0 <= i < |r.lines|
      ensures Owns(b, ME, r.lines[i]) <==> PlayedLine(moves, (|moves| - 1) % 2, r.lines[i])
      ensures Owns(b, OPP, r.lines[i]) <==> PlayedLine(moves, 1 - (|moves| - 1) % 2, r.lines[i])
    {
    }
  }

  // ---------- what the trainee experiences ----------

  /** One call of update. */
  datatype Experience = Experience(s: Board, a: nat, reward: int, next: Option<Board>)

  /** The experience of a whole game from the trainee's move k on: at each of its moves the board, the move, and, unless
      the game ends with this move or the reply, the board after the reply; there is no reward before the end, and
      the outcome is the reward of the last of these. */
  function Experiences(r: Rules, moves: seq<nat>, k: nat, outcome: int): seq<Experience>
    decreases |moves| - k
  {
    if k >= |moves| then []
    else if k + 2 < |moves| then [Continues(r, moves, k)] + Experiences(r, moves, k + 2, outcome)
    else [Ends(r, moves, k, outcome)]
  }

  function Continues(r: Rules, moves: seq<nat>, k: nat): Experience
    requires k + 2 <= |moves|
  {
    Experience(Position(r, moves[..k]), moves[k], 0, Some(Position(r, moves[..k + 2])))
  }

  function Ends(r: Rules, moves: seq<nat>, k: nat, outcome: int): Experience
    requires k < |moves|
  {
    Experience(Position(r, moves[..k]), moves[k], outcome, None)
  }

  /** While the game goes on: the experience up to the last reply. */
  function Completed(r: Rules, moves: seq<nat>, k: nat): seq<Experience>
    decreases |moves| - k
  {
    if k + 2 > |moves| then [] else [Continues(r, moves, k)] + Completed(r, moves, k + 2)
  }

  /** A move completes an experience exactly if it is a reply. */
  lemma {:induction false} CompletedSnoc(r: Rules, moves: seq<nat>, m: nat, k: nat)
    ensures Completed(r, moves + [m], k)
         == Completed(r, moves, k)
            + if k < |moves| && (|moves| - k) % 2 == 1 then [Continues(r, moves + [m], |moves| - 1)] else []
    decreases |moves| - k
  {
    hide Position;
    var more := moves + [m];
    if k + 2 <= |moves| {
      assert more[..k] == moves[..k] && more[..k + 2] == moves[..k + 2];
      CompletedSnoc(r, moves, m, k + 2);
    } else if k + 2 == |more| {
      assert Completed(r, more, k + 2) == [];
    }
  }

  /** The whole game's experience is what was complete before the last move, and the end. */
  lemma {:induction false} ExperiencesEnd(r: Rules, moves: seq<nat>, m: nat, k: nat, outcome: int)
    ensures Experiences(r, moves + [m], k, outcome)
         == Completed(r, moves, k) + if k > |moves| then [] else [Ends(r, moves + [m], LastOwn(|moves|, k), outcome)]
    decreases |moves| - k
  {
    hide Position, Ends, Continues;
    if k + 2 <= |moves| {
      ContinuesEarlier(r, moves, m, k);
      ExperiencesEnd(r, moves, m, k + 2, outcome);
      var last := if k + 2 > |moves| then [] else [Ends(r, moves + [m], LastOwn(|moves|, k + 2), outcome)];
      assert [Continues(r, moves, k)] + (Completed(r, moves, k + 2) + last)
          == [Continues(r, moves, k)] + Completed(r, moves, k + 2) + last;
    }
  }

  /** The last of the indices k, k + 2, ... up to n. */
  function LastOwn(n: nat, k: nat): (i: nat)
    requires k <= n
    ensures i == n || i == n - 1
  {
    if (n - k) % 2 == 0 then n else n - 1
  }

  lemma ContinuesEarlier(r: Rules, moves: seq<nat>, m: nat, k: nat)
    requires k + 2 <= |moves|
    ensures Continues(r, moves + [m], k) == Continues(r, moves, k)
  {
    assert (moves + [m])[..k] == moves[..k] && (moves + [m])[..k + 2] == moves[..k + 2];
  }

  /** There is experience exactly if the trainee has moved. */
  lemma ExperienceExists(r: Rules, moves: seq<nat>, first: bool, outcome: int)
    ensures Experiences(r, moves, Start(first), outcome) != []
       <==> exists k :: 0 <= k < |moves| && TraineeMoves(first, k)
  {
    if |moves| > Start(first) {
      assert TraineeMoves(first, Start(first));
    }
  }

  // ---------- what a table has learned ----------

  /** Tables with the same values: rows that are only made, and never written, do not count. */
  ghost predicate Same(t: Table, u: Table) {
    forall b :: Entry(t, b) == Entry(u, b)
  }

  ghost function Learn(t: Table, alpha: real, gamma: real, e: Experience): Table {
    if Defined(Looked(t, e.s, e.next), e.s, e.a, e.next)
    then Updated(t, alpha, gamma, e.s, e.a, e.reward as real, e.next) else t
  }

  /** The table after learning from experience, one after the other. */
  ghost function LearnAll(t: Table, alpha: real, gamma: real, log: seq<Experience>): Table {
    if log == [] then t
    else Learn(LearnAll(t, alpha, gamma, log[..|log| - 1]), alpha, gamma, log[|log| - 1])
  }

  lemma LearnSnoc(t: Table, alpha: real, gamma: real, log: seq<Experience>, e: Experience)
    ensures LearnAll(t, alpha, gamma, log + [e]) == Learn(LearnAll(t, alpha, gamma, log), alpha, gamma, e)
  {
    hide Learn;
    assert (log + [e])[..|log|] == log;
  }

  lemma SameTrans(t: Table, u: Table, v: Table)
    ensures Same(t, u) && Same(u, v) ==> Same(t, v)
    ensures Same(t, u) ==> Same(u, t)
    ensures Same(t, t)
  {
  }

  lemma ExtendsIsSame(t: Table, u: Table)
    requires Extends(t, u)
    ensures Same(t, u)
  {
  }

  /** Learning the same from tables with the same values gives tables with the same values. */
  lemma LearnSame(cells: nat, t: Table, u: Table, alpha: real, gamma: real, e: Experience)
    requires TableOk(cells, t) && TableOk(cells, u) && Same(t, u) && 0.0 <= alpha <= 1.0 && 0.0 <= gamma <= 1.0
    requires Transition(cells, e.s, e.a, e.reward as real, e.next)
    ensures Defined(Looked(t, e.s, e.next), e.s, e.a, e.next)
    ensures Same(Updated(t, alpha, gamma, e.s, e.a, e.reward as real, e.next), Learn(u, alpha, gamma, e))
    ensures TableOk(cells, Learn(u, alpha, gamma, e))
  {
    var reward := e.reward as real;
    UpdateKeeps(cells, t, alpha, gamma, e.s, e.a, reward, e.next);
    UpdateKeeps(cells, u, alpha, gamma, e.s, e.a, reward, e.next);
    LookedRows(cells, t, e.s, e.next);
    LookedRows(cells, u, e.s, e.next);
    hide TableOk, Transition, Looked, FreshRow, NanMax, Nudge, Bootstrap, Defined;
    DefinedRows(Looked(t, e.s, e.next), e.s, e.a, e.next);
    DefinedRows(Looked(u, e.s, e.next), e.s, e.a, e.next);
    var t' := Updated(t, alpha, gamma, e.s, e.a, reward, e.next);
    var u' := Updated(u, alpha, gamma, e.s, e.a, reward, e.next);
    assert Learned(Looked(t, e.s, e.next), alpha, gamma, e.s, e.a, reward, e.next)
        == Learned(Looked(u, e.s, e.next), alpha, gamma, e.s, e.a, reward, e.next);
    forall b ensures Entry(t', b) == Entry(u', b) {
      if b != e.s {
        assert Entry(t', b) == Entry(Looked(t, e.s, e.next), b);
        assert Entry(u', b) == Entry(Looked(u, e.s, e.next), b);
      }
    }
  }

  lemma DefinedRows(u: Table, s: Board, a: nat, next: Option<Board>)
    requires Defined(u, s, a, next)
    ensures s in u && a < |u[s]| && u[s][a].Some?
    ensures next.Some? ==> next.value in u && NanMax(u[next.value]).Some?
  {
  }

  lemma {:induction false} LearnAllSame(cells: nat, t: Table, u: Table, alpha: real, gamma: real, log: seq<Experience>)
    requires TableOk(cells, t) && TableOk(cells, u) && Same(t, u) && 0.0 <= alpha <= 1.0 && 0.0 <= gamma <= 1.0
    requires forall k :: 0 <= k < |log| ==> Learnable(cells, log[k])
    ensures Same(LearnAll(t, alpha, gamma, log), LearnAll(u, alpha, gamma, log))
    ensures TableOk(cells, LearnAll(t, alpha, gamma, log)) && TableOk(cells, LearnAll(u, alpha, gamma, log))
  {
    hide TableOk, Same, Learn, Transition;
    if log != [] {
      var front, e := log[..|log| - 1], log[|log| - 1];
      LearnAllSame(cells, t, u, alpha, gamma, front);
      var t', u' := LearnAll(t, alpha, gamma, front), LearnAll(u, alpha, gamma, front);
      assert Learnable(cells, e);
      LearnSame(cells, t', u', alpha, gamma, e);
      SameTrans(t', t', t');
      LearnSame(cells, t', t', alpha, gamma, e);
      SameLearn(t', u', alpha, gamma, e);
    }
  }

  ghost predicate Learnable(cells: nat, e: Experience) {
    Transition(cells, e.s, e.a, e.reward as real, e.next)
  }

  lemma SameLearn(t: Table, u: Table, alpha: real, gamma: real, e: Experience)
    requires Defined(Looked(t, e.s, e.next), e.s, e.a, e.next)
    requires Same(Updated(t, alpha, gamma, e.s, e.a, e.reward as real, e.next), Learn(u, alpha, gamma, e))
    ensures Same(Learn(t, alpha, gamma, e), Learn(u, alpha, gamma, e))
  {
    hide Same, Defined, Looked, Updated;
  }

  // ---------- whole games ----------

  datatype Game = Game(moves: seq<nat>, first: bool, outcome: int)

  ghost predicate IsGame(r: Rules, g: Game)
    requires ValidRules(r)
  {
    Finished(r, g.moves) && g.outcome == Outcome(r, g.moves, g.first)
  }

  /** The trainee's experience of a game. */
  function GameLog(r: Rules, g: Game): seq<Experience> {
    Experiences(r, g.moves, Start(g.first), g.outcome)
  }

  /** All of it can be learned. */
  lemma {:induction false} GameIsLearnable(r: Rules, moves: seq<nat>, k: nat, outcome: int)
    requires ValidRules(r) && Moves(r, moves) && -1 <= outcome <= 1
    ensures forall i :: 0 <= i < |Experiences(r, moves, k, outcome)| ==>
              Learnable(r.cells, Experiences(r, moves, k, outcome)[i])
    decreases |moves| - k
  {
    hide Position, IsTerminal, LegalMoves;
    if k < |moves| {
      assert MovesAt(r, Position(r, moves[..k]), moves[k]);
      if k + 2 < |moves| {
        assert MovesAt(r, Position(r, moves[..k + 2]), moves[k + 2]);
        GoesOn(r, Position(r, moves[..k + 2]));
        GameIsLearnable(r, moves, k + 2, outcome);
        forall i | 0 <= i < |Experiences(r, moves, k, outcome)|
          ensures Learnable(r.cells, Experiences(r, moves, k, outcome)[i])
        {
          assert i > 0 ==> Experiences(r, moves, k, outcome)[i] == Experiences(r, moves, k + 2, outcome)[i - 1];
        }
      }
    }
  }

  lemma GoesOn(r: Rules, b: Board)
    requires ValidRules(r) && |b| == r.cells && !IsTerminal(r, b).0
    ensures LegalMoves(b) != []
  {
  }

  lemma OutcomeRange(r: Rules, moves: seq<nat>, first: bool)
    requires ValidRules(r) && moves != [] && moves[|moves| - 1] < r.cells
    ensures -1 <= Outcome(r, moves, first) <= 1
  {
    hide Position;
    WinnerRange(r, Position(r, moves[..|moves| - 1])[moves[|moves| - 1] := ME], 0);
  }

  /** The table after learning from games, one after the other. */
  ghost function LearnGames(r: Rules, t: Table, alpha: real, gamma: real, games: seq<Game>): Table {
    if games == [] then t
    else LearnAll(LearnGames(r, t, alpha, gamma, games[..|games| - 1]), alpha, gamma, GameLog(r, games[|games| - 1]))
  }

  lemma LearnGamesSnoc(r: Rules, t: Table, alpha: real, gamma: real, games: seq<Game>, g: Game)
    ensures LearnGames(r, t, alpha, gamma, games + [g])
         == LearnAll(LearnGames(r, t, alpha, gamma, games), alpha, gamma, GameLog(r, g))
  {
    hide LearnAll, GameLog;
    assert (games + [g])[..|games|] == games;
  }

  /** What the trainee learns from a game, from its moves alone: one transition for each of its own moves, in order.
      Each has the board that this move was made on, the move, and, unless the game ended with it or with the reply, no
      reward and the board of the trainee's next move; the last one has the outcome instead. */
  lemma ExperienceMeans(r: Rules, g: Game, i: nat)
    requires ValidRules(r) && IsGame(r, g) && i < |GameLog(r, g)|
    ensures var (e, k) := (GameLog(r, g)[i], Trainee(g.first) + 2 * i);
            && k < |g.moves| && e.a == g.moves[k] && Shows(r, e.s, g.moves[..k])
            && if k + 2 < |g.moves| then
                 e.reward == 0 && e.next.Some? && Shows(r, e.next.value, g.moves[..k + 2])
               else
                 e.reward == g.outcome && e.next.None?
    ensures var all := Trainee(g.first) + 2 * |GameLog(r, g)|; all == |g.moves| || all == |g.moves| + 1
  {
    hide IsTerminal, Position, Shows;
    ExperienceAt(r, g.moves, Trainee(g.first), g.outcome, i);
    var k := Trainee(g.first) + 2 * i;
    PrefixShows(r, g.moves, k);
    if k + 2 < |g.moves| {
      PrefixShows(r, g.moves, k + 2);
    }
  }

  lemma PrefixShows(r: Rules, moves: seq<nat>, k: nat)
    requires ValidRules(r) && Moves(r, moves) && k < |moves|
    ensures Shows(r, Position(r, moves[..k]), moves[..k])
  {
    hide IsTerminal, Position, Shows;
    MovesPrefix(r, moves, k);
    PositionShows(r, moves[..k]);
  }

  /** The experience made with the trainee's move j. */
  function Made(r: Rules, moves: seq<nat>, j: nat, outcome: int): Experience
    requires j < |moves|
  {
    if j + 2 < |moves| then Continues(r, moves, j) else Ends(r, moves, j, outcome)
  }

  lemma {:induction false} ExperienceAt(r: Rules, moves: seq<nat>, k: nat, outcome: int, i: nat)
    requires i < |Experiences(r, moves, k, outcome)|
    ensures k + 2 * i < |moves| && Experiences(r, moves, k, outcome)[i] == Made(r, moves, k + 2 * i, outcome)
    ensures var all := k + 2 * |Experiences(r, moves, k, outcome)|; all == |moves| || all == |moves| + 1
    decreases |moves| - k
  {
    hide Continues, Ends;
    if k + 2 < |moves| {
      ExperienceAt(r, moves, k + 2, outcome, if i > 0 then i - 1 else 0);
    }
  }

  // ---------- greedy play, and play against the perfect player ----------

  /** While a game goes on: the table as learning has left it by now. */
  ghost function Current(r: Rules, t: Table, alpha: real, gamma: real, train: bool, moves: seq<nat>,
                         first: bool): Table {
    if train then LearnAll(t, alpha, gamma, Completed(r, moves, Start(first))) else t
  }

  lemma CurrentAtStart(r: Rules, t: Table, alpha: real, gamma: real, train: bool, first: bool)
    ensures Current(r, t, alpha, gamma, train, [], first) == t
    ensures Greedy(r, t, alpha, gamma, train, [], first)
  {
  }

  lemma CurrentUntrained(r: Rules, t: Table, alpha: real, gamma: real, moves: seq<nat>, first: bool)
    ensures Current(r, t, alpha, gamma, false, moves, first) == t
  {
  }

  /** A move of the trainee teaches nothing yet. */
  lemma CurrentAfterMove(r: Rules, t: Table, alpha: real, gamma: real, train: bool, moves: seq<nat>, first: bool,
                         m: nat)
    requires TraineeMoves(first, |moves|)
    ensures Current(r, t, alpha, gamma, train, moves + [m], first) == Current(r, t, alpha, gamma, train, moves, first)
  {
    hide Position, LearnAll;
    CompletedSnoc(r, moves, m, Start(first));
    assert Completed(r, moves + [m], Start(first)) == Completed(r, moves, Start(first));
  }

  /** A reply after which the game goes on completes the experience of the trainee's last move. */
  lemma CurrentAfterReply(r: Rules, t: Table, alpha: real, gamma: real, train: bool, moves: seq<nat>, first: bool,
                          m: nat)
    requires !TraineeMoves(first, |moves|)
    ensures Current(r, t, alpha, gamma, train, moves + [m], first)
         == if train && moves != []
            then Learn(Current(r, t, alpha, gamma, train, moves, first), alpha, gamma,
                       Continues(r, moves + [m], |moves| - 1))
            else Current(r, t, alpha, gamma, train, moves, first)
    ensures moves != [] ==>
              Continues(r, moves + [m], |moves| - 1) ==
              Experience(Position(r, moves[..|moves| - 1]), moves[|moves| - 1], 0, Some(Position(r, moves + [m])))
  {
    hide Position, LearnAll, Learn;
    CompletedSnoc(r, moves, m, Start(first));
    if moves != [] {
      assert (moves + [m])[..|moves| - 1] == moves[..|moves| - 1] && (moves + [m])[..|moves| + 1] == moves + [m];
      LearnSnoc(t, alpha, gamma, Completed(r, moves, Start(first)), Continues(r, moves + [m], |moves| - 1));
    }
  }

  /** The last move teaches the outcome: to the trainee's own last move, or, if that is a reply, to the one before. */
  lemma LearnedAtEnd(r: Rules, t: Table, alpha: real, gamma: real, moves: seq<nat>, first: bool, m: nat, outcome: int)
    ensures var own := if TraineeMoves(first, |moves|) then |moves| else |moves| - 1;
            var so_far := Current(r, t, alpha, gamma, true, moves, first);
            LearnAll(t, alpha, gamma, GameLog(r, Game(moves + [m], first, outcome)))
            == if own < 0 then so_far else Learn(so_far, alpha, gamma, Ends(r, moves + [m], own, outcome))
    ensures TraineeMoves(first, |moves|) ==>
              Ends(r, moves + [m], |moves|, outcome) == Experience(Position(r, moves), m, outcome, None)
    ensures !TraineeMoves(first, |moves|) && moves != [] ==>
              Ends(r, moves + [m], |moves| - 1, outcome) ==
              Experience(Position(r, moves[..|moves| - 1]), moves[|moves| - 1], outcome, None)
  {
    hide Position, LearnAll, Learn;
    var more := moves + [m];
    assert more[..|moves|] == moves;
    ExperiencesEnd(r, moves, m, Start(first), outcome);
    if TraineeMoves(first, |moves|) {
      LearnSnoc(t, alpha, gamma, Completed(r, moves, Start(first)), Ends(r, more, |moves|, outcome));
    } else if moves != [] {
      assert more[..|moves| - 1] == moves[..|moves| - 1];
      LearnSnoc(t, alpha, gamma, Completed(r, moves, Start(first)), Ends(r, more, |moves| - 1, outcome));
    }
  }

  ghost predicate Best(t: Table, b: Board, a: nat) {
    a < |Entry(t, b)| && Entry(t, b)[a] == NanMax(Entry(t, b))
  }

  /** Every move of the trainee is a best one by the table it has then. */
  ghost predicate Greedy(r: Rules, t: Table, alpha: real, gamma: real, train: bool, moves: seq<nat>, first: bool) {
    forall k :: 0 <= k < |moves| && TraineeMoves(first, k) ==>
      Best(Current(r, t, alpha, gamma, train, moves[..k], first), Position(r, moves[..k]), moves[k])
  }

  lemma GreedySnoc(r: Rules, t: Table, alpha: real, gamma: real, train: bool, moves: seq<nat>, first: bool, m: nat)
    requires Greedy(r, t, alpha, gamma, train, moves, first)
    requires TraineeMoves(first, |moves|) ==>
               Best(Current(r, t, alpha, gamma, train, moves, first), Position(r, moves), m)
    ensures Greedy(r, t, alpha, gamma, train, moves + [m], first)
  {
    hide Position, Current, Best;
    var more := moves + [m];
    assert more[..|moves|] == moves;
    forall k | 0 <= k < |more| && TraineeMoves(first, k)
      ensures Best(Current(r, t, alpha, gamma, train, more[..k], first), Position(r, more[..k]), more[k])
    {
      if k < |moves| {
        assert more[..k] == moves[..k];
      }
    }
  }

  /** The same without learning. */
  ghost predicate GreedyBy(r: Rules, t: Table, moves: seq<nat>, first: bool) {
    forall k :: 0 <= k < |moves| && TraineeMoves(first, k) ==> Best(t, Position(r, moves[..k]), moves[k])
  }

  lemma GreedyUntrained(r: Rules, t: Table, u: Table, alpha: real, gamma: real, moves: seq<nat>, first: bool)
    requires Greedy(r, t, alpha, gamma, false, moves, first) && Same(t, u)
    ensures GreedyBy(r, u, moves, first)
  {
    hide Position, Best;
    forall k | 0 <= k < |moves| && TraineeMoves(first, k) ensures Best(u, Position(r, moves[..k]), moves[k]) {
      CurrentUntrained(r, t, alpha, gamma, moves[..k], first);
      BestSame(t, u, Position(r, moves[..k]), moves[k]);
    }
  }

  lemma BestSame(t: Table, u: Table, b: Board, a: nat)
    requires Same(t, u)
    ensures Best(t, b, a) == Best(u, b, a)
  {
    assert Entry(t, b) == Entry(u, b);
  }

  /** What is complete while the game goes on can be learned. */
  lemma {:induction false} CompletedIsLearnable(r: Rules, moves: seq<nat>, k: nat)
    requires ValidRules(r) && Moves(r, moves) && !IsTerminal(r, Position(r, moves)).0
    ensures forall i :: 0 <= i < |Completed(r, moves, k)| ==> Learnable(r.cells, Completed(r, moves, k)[i])
    decreases |moves| - k
  {
    hide Position, IsTerminal, LegalMoves;
    if k + 2 <= |moves| {
      assert MovesAt(r, Position(r, moves[..k]), moves[k]);
      assert k + 2 < |moves| ==> MovesAt(r, Position(r, moves[..k + 2]), moves[k + 2]);
      assert k + 2 == |moves| ==> moves[..k + 2] == moves;
      GoesOn(r, Position(r, moves[..k + 2]));
      CompletedIsLearnable(r, moves, k + 2);
      forall i | 0 <= i < |Completed(r, moves, k)| ensures Learnable(r.cells, Completed(r, moves, k)[i]) {
        assert i > 0 ==> Completed(r, moves, k)[i] == Completed(r, moves, k + 2)[i - 1];
      }
    }
  }

  /** Greedy play depends on the values of the table only. */
  lemma GreedySame(r: Rules, t: Table, u: Table, alpha: real, gamma: real, moves: seq<nat>, first: bool)
    requires ValidRules(r) && Moves(r, moves) && 0.0 <= alpha <= 1.0 && 0.0 <= gamma <= 1.0
    requires TableOk(r.cells, t) && TableOk(r.cells, u) && Same(t, u)
    requires Greedy(r, t, alpha, gamma, true, moves, first)
    ensures Greedy(r, u, alpha, gamma, true, moves, first)
  {
    hide Position, Best, TableOk, Same, IsTerminal;
    forall k | 0 <= k < |moves| && TraineeMoves(first, k)
      ensures Best(Current(r, u, alpha, gamma, true, moves[..k], first), Position(r, moves[..k]), moves[k])
    {
      MovesPrefix(r, moves, k);
      CompletedIsLearnable(r, moves[..k], Start(first));
      LearnAllSame(r.cells, t, u, alpha, gamma, Completed(r, moves[..k], Start(first)));
      BestSame(Current(r, t, alpha, gamma, true, moves[..k], first),
               Current(r, u, alpha, gamma, true, moves[..k], first),
               Position(r, moves[..k]), moves[k]);
    }
  }

  lemma MovesPrefix(r: Rules, moves: seq<nat>, k: nat)
    requires ValidRules(r) && Moves(r, moves) && k < |moves|
    ensures Moves(r, moves[..k]) && !IsTerminal(r, Position(r, moves[..k])).0
  {
    hide Position, IsTerminal;
    assert MovesAt(r, Position(r, moves[..k]), moves[k]);
    forall j | 0 <= j < k ensures moves[..k][..j] == moves[..j] && moves[..k][j] == moves[j] {
    }
  }

  /** The opponent plays as minimax_player. */
  ghost predicate AgainstMinimax(r: Rules, moves: seq<nat>, first: bool)
    requires ValidRules(r)
  {
    forall k :: 0 <= k < |moves| && !TraineeMoves(first, k) ==>
      Negamax.Minimax(r, Position(r, moves[..k])) == Some(moves[k])
  }

  lemma AgainstMinimaxSnoc(r: Rules, moves: seq<nat>, first: bool, m: nat)
    requires ValidRules(r) && AgainstMinimax(r, moves, first)
    requires !TraineeMoves(first, |moves|) ==> Negamax.Minimax(r, Position(r, moves)) == Some(m)
    ensures AgainstMinimax(r, moves + [m], first)
  {
    hide Position, Negamax.Minimax;
    var more := moves + [m];
    assert more[..|moves|] == moves;
    forall k | 0 <= k < |more| && !TraineeMoves(first, k)
      ensures Negamax.Minimax(r, Position(r, more[..k])) == Some(more[k])
    {
      if k < |moves| {
        assert more[..k] == moves[..k];
      }
    }
  }

  /** The value of the position after k moves, in the trainee's view. */
  ghost function TraineeValue(r: Rules, moves: seq<nat>, first: bool): int
    requires ValidRules(r)
  {
    if TraineeMoves(first, |moves|) then Negamax.Value(r, Position(r, moves)) else -Negamax.Value(r, Position(r, moves))
  }

  /** Against minimax_player the value never rises for the trainee. */
  lemma {:induction false} ValueNeverRises(r: Rules, moves: seq<nat>, first: bool)
    requires ValidRules(r) && Moves(r, moves) && AgainstMinimax(r, moves, first)
    ensures TraineeValue(r, moves, first) <= TraineeValue(r, [], first)
  {
    hide IsTerminal, Negamax.Value, Negamax.Minimax, LegalMoves, Child, Position, Moves, AgainstMinimax;
    if moves != [] {
      var front, m := moves[..|moves| - 1], moves[|moves| - 1];
      FrontOf(r, moves, first);
      ValueNeverRises(r, front, first);
      MoveWorth(r, Position(r, front), m);
    }
  }

  /** No move raises the value for the side that makes it, and minimax_player's keeps it. */
  lemma MoveWorth(r: Rules, b: Board, m: nat)
    requires ValidRules(r) && |b| == r.cells && MovesAt(r, b, m)
    ensures |Child(b, m)| == r.cells && -Negamax.Value(r, Child(b, m)) <= Negamax.Value(r, b)
    ensures Negamax.Minimax(r, b) == Some(m) ==> -Negamax.Value(r, Child(b, m)) == Negamax.Value(r, b)
  {
    hide IsTerminal, Negamax.Value, Negamax.Plain, LegalMoves, Child;
    GoesOn(r, b);
    ChildEmpties(b, m);
    var a := Negamax.BestAction(r, b);
    MinimaxIs(r, b);
  }

  lemma MinimaxIs(r: Rules, b: Board)
    requires ValidRules(r) && |b| == r.cells && LegalMoves(b) != []
    ensures Negamax.Minimax(r, b) == Negamax.Plain(r, b).1
  {
  }

  lemma FrontOf(r: Rules, moves: seq<nat>, first: bool)
    requires ValidRules(r) && Moves(r, moves) && AgainstMinimax(r, moves, first) && moves != []
    ensures var (front, m) := (moves[..|moves| - 1], moves[|moves| - 1]);
            && Moves(r, front) && AgainstMinimax(r, front, first) && MovesAt(r, Position(r, front), m)
            && Position(r, moves) == Child(Position(r, front), m)
            && (!TraineeMoves(first, |front|) ==> Negamax.Minimax(r, Position(r, front)) == Some(m))
  {
    hide IsTerminal, Negamax.Minimax, Child, InitialBoard;
    var front := moves[..|moves| - 1];
    forall k | 0 <= k < |front| ensures front[..k] == moves[..k] && front[k] == moves[k] {
    }
    assert MovesAt(r, Position(r, front), moves[|moves| - 1]);
  }

  /** Whoever plays minimax_player gets at most the value of the empty board: if it is a draw, no trainee wins. */
  lemma MinimaxConcedesNothing(r: Rules, g: Game)
    requires ValidRules(r) && IsGame(r, g) && AgainstMinimax(r, g.moves, g.first)
    ensures g.outcome <= if g.first then Negamax.Value(r, InitialBoard(r)) else -Negamax.Value(r, InitialBoard(r))
  {
    hide IsTerminal, LegalMoves, Negamax.Value, Negamax.Plain, Position, Moves, AgainstMinimax, Child, Flip;
    ValueNeverRises(r, g.moves, g.first);
    FrontOf(r, g.moves, g.first);
    StartPosition(r);
    var b, m := Position(r, g.moves[..|g.moves| - 1]), g.moves[|g.moves| - 1];
    FlipTerminal(r, b[m := ME]);
    ChildIs(b, m);
    Negamax.TerminalValue(r, Position(r, g.moves));
  }

  lemma StartPosition(r: Rules)
    ensures Position(r, []) == InitialBoard(r)
  {
  }

  lemma ChildIs(b: Board, m: nat)
    requires m < |b| && b[m] == EMPTY
    ensures Child(b, m) == Flip(b[m := ME])
  {
  }
}
