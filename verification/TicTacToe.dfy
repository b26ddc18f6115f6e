/** The rules of rl-ttt/rl_ttt/game.py: pure functions over an immutable board seen from the side to move. The board
    size and the winning lines are parameters; module constants give the 3 by 3 board. */
module TicTacToe {
  import opened Options

  const EMPTY := 0
  const ME := 1
  const OPP := -1

  type Board = seq<int>

  datatype Line = Line(a: nat, b: nat, c: nat)

  datatype Rules = Rules(cells: nat, lines: seq<Line>)

  ghost predicate ValidRules(r: Rules) {
    forall k :: 0 <= k < |r.lines| ==> r.lines[k].a < r.cells && r.lines[k].b < r.cells && r.lines[k].c < r.cells
  }

  ghost predicate ValidBoard(r: Rules, b: Board) {
    |b| == r.cells && forall i :: 0 <= i < |b| ==> b[i] == EMPTY || b[i] == ME || b[i] == OPP
  }

  /** The 3 by 3 board and its eight lines. */
  const CLASSIC := Rules(9, [Line(0, 1, 2), Line(3, 4, 5), Line(6, 7, 8), Line(0, 3, 6), Line(1, 4, 7), Line(2, 5, 8),
                             Line(0, 4, 8), Line(2, 4, 6)])

  lemma ClassicIsValid()
    ensures ValidRules(CLASSIC) && ValidBoard(CLASSIC, InitialBoard(CLASSIC))
  {
  }

  predicate SameRow(i: nat, j: nat) {
    i / 3 == j / 3
  }

  predicate SameColumn(i: nat, j: nat) {
    i % 3 == j % 3
  }

  /** The cell is on the diagonal from the upper left, or on the one from the upper right. */
  predicate OnFalling(i: nat) {
    i / 3 == i % 3
  }

  predicate OnRising(i: nat) {
    i / 3 + i % 3 == 2
  }

  /** The lines are exactly the rows, the columns and the diagonals of the 3 by 3 board. */
  lemma ClassicLines(a: nat, b: nat, c: nat)
    requires a < b < c < 9
    ensures Line(a, b, c) in CLASSIC.lines
       <==> || (SameRow(a, b) && SameRow(b, c))
            || (SameColumn(a, b) && SameColumn(b, c))
            || (OnFalling(a) && OnFalling(b) && OnFalling(c))
            || (OnRising(a) && OnRising(b) && OnRising(c))
    ensures forall l :: l in CLASSIC.lines ==> l.a < l.b < l.c < CLASSIC.cells
    ensures CLASSIC.cells == 9
  {
    Rows(a, b, c);
    Columns(a, b, c);
    Diagonals(a, b, c);
    TheLines();
    hide CLASSIC, SameRow, SameColumn, OnFalling, OnRising;
  }

  lemma Rows(a: nat, b: nat, c: nat)
    requires a < b < c < 9
    ensures SameRow(a, b) && SameRow(b, c) <==> Line(a, b, c) in [Line(0, 1, 2), Line(3, 4, 5), Line(6, 7, 8)]
  {
  }

  lemma Columns(a: nat, b: nat, c: nat)
    requires a < b < c < 9
    ensures SameColumn(a, b) && SameColumn(b, c) <==> Line(a, b, c) in [Line(0, 3, 6), Line(1, 4, 7), Line(2, 5, 8)]
  {
  }

  lemma Diagonals(a: nat, b: nat, c: nat)
    requires a < b < c < 9
    ensures OnFalling(a) && OnFalling(b) && OnFalling(c) <==> Line(a, b, c) == Line(0, 4, 8)
    ensures OnRising(a) && OnRising(b) && OnRising(c) <==> Line(a, b, c) == Line(2, 4, 6)
  {
    hide OnFalling, OnRising;
    DiagonalCell(a);
    DiagonalCell(b);
    DiagonalCell(c);
  }

  lemma DiagonalCell(i: nat)
    requires i < 9
    ensures OnFalling(i) <==> i == 0 || i == 4 || i == 8
    ensures OnRising(i) <==> i == 2 || i == 4 || i == 6
  {
  }

  lemma TheLines()
    ensures CLASSIC.lines == [Line(0, 1, 2), Line(3, 4, 5), Line(6, 7, 8)]
                             + [Line(0, 3, 6), Line(1, 4, 7), Line(2, 5, 8)]
                             + [Line(0, 4, 8), Line(2, 4, 6)]
    ensures CLASSIC.cells == 9
  {
  }

  function InitialBoard(r: Rules): Board {
    seq(r.cells, _ => EMPTY)
  }

  /** The empty cells from index i on, in ascending order. */
  function MovesFrom(b: Board, i: nat): (m: seq<nat>)
    requires i <= |b|
    ensures forall k :: 0 <= k < |m| ==> i <= m[k] < |b| && b[m[k]] == EMPTY
    ensures forall j, k :: 0 <= j < k < |m| ==> m[j] < m[k]
    ensures forall a :: i <= a < |b| && b[a] == EMPTY ==> a in m
    decreases |b| - i
  {
    if i == |b| then []
    else
      var rest := MovesFrom(b, i + 1);
      if b[i] == EMPTY then
        assert forall a :: a in rest ==> a in [i] + rest;
        [i] + rest
      else rest
  }

  function LegalMoves(b: Board): (m: seq<nat>)
    ensures forall a :: a in m <==> 0 <= a < |b| && b[a] == EMPTY
    ensures forall j, k :: 0 <= j < k < |m| ==> m[j] < m[k]
  {
    MovesFrom(b, 0)
  }

  /** apply_move: an action out of range or on an occupied cell is an error. */
  function ApplyMove(b: Board, action: int): Option<Board> {
    if 0 <= action < |b| && b[action] == EMPTY then Some(b[action := ME]) else None
  }

  function Flip(b: Board): (f: Board)
    ensures |f| == |b| && forall i :: 0 <= i < |b| ==> f[i] == -b[i]
  {
    seq(|b|, i requires 0 <= i < |b| => -b[i])
  }

  function WinnerFrom(r: Rules, b: Board, k: nat): int
    requires ValidRules(r) && |b| == r.cells && k <= |r.lines|
    decreases |r.lines| - k
  {
    if k == |r.lines| then 0
    else
      var sum := b[r.lines[k].a] + b[r.lines[k].b] + b[r.lines[k].c];
      if sum == 3 * ME then ME else if sum == 3 * OPP then OPP else WinnerFrom(r, b, k + 1)
  }

  /** The first line that one side owns decides. */
  function Winner(r: Rules, b: Board): int
    requires ValidRules(r) && |b| == r.cells
  {
    WinnerFrom(r, b, 0)
  }

  ghost predicate Owns(b: Board, side: int, line: Line)
    requires line.a < |b| && line.b < |b| && line.c < |b|
  {
    b[line.a] == side && b[line.b] == side && b[line.c] == side
  }

  /** On a board of marks, the winner owns a line, and there is none exactly if neither side owns a line. */
  lemma {:induction false} WinnerOwnsLine(r: Rules, b: Board, k: nat)
    requires ValidRules(r) && ValidBoard(r, b) && k <= |r.lines|
    ensures var w := WinnerFrom(r, b, k);
            && (w != 0 ==> exists i :: k <= i < |r.lines| && Owns(b, w, r.lines[i]))
            && (w == 0 <==> forall i :: k <= i < |r.lines| ==> !Owns(b, ME, r.lines[i]) && !Owns(b, OPP, r.lines[i]))
            && (w == 0 || w == ME || w == OPP)
    decreases |r.lines| - k
  {
    if k < |r.lines| {
      WinnerOwnsLine(r, b, k + 1);
      assert Owns(b, ME, r.lines[k]) <==> b[r.lines[k].a] + b[r.lines[k].b] + b[r.lines[k].c] == 3;
      assert Owns(b, OPP, r.lines[k]) <==> b[r.lines[k].a] + b[r.lines[k].b] + b[r.lines[k].c] == -3;
    }
  }

  /** done, and the reward from the view of the side to move */
  function IsTerminal(r: Rules, b: Board): (bool, int)
    requires ValidRules(r) && |b| == r.cells
  {
    var w := Winner(r, b);
    if w != 0 then (true, w) else (LegalMoves(b) == [], 0)
  }

  /** Some line belongs to the side. */
  ghost predicate HasLine(r: Rules, b: Board, side: int)
    requires ValidRules(r) && |b| == r.cells
  {
    exists i :: 0 <= i < |r.lines| && Owns(b, side, r.lines[i])
  }

  /** The game is over exactly if somebody owns a line or no cell is empty. The reward is 1 or -1 only for a line of the
      side to move or of the other one, and 0 exactly if nobody owns a line. */
  lemma TerminalMeans(r: Rules, b: Board)
    requires ValidRules(r) && ValidBoard(r, b)
    ensures var (done, reward) := IsTerminal(r, b);
            && (done <==> HasLine(r, b, ME) || HasLine(r, b, OPP) || forall c :: 0 <= c < |b| ==> b[c] != EMPTY)
            && (reward == 1 || reward == 0 || reward == -1)
            && (reward == 1 ==> HasLine(r, b, ME))
            && (reward == -1 ==> HasLine(r, b, OPP))
            && (reward == 0 <==> !HasLine(r, b, ME) && !HasLine(r, b, OPP))
  {
    WinnerOwnsLine(r, b, 0);
    if !IsTerminal(r, b).0 {
      assert LegalMoves(b)[0] in LegalMoves(b);
    } else if c :| 0 <= c < |b| && b[c] == EMPTY {
      assert c in LegalMoves(b);
    }
  }

  lemma MoveAddsNone(r: Rules, b: Board, m: nat)
    requires ValidRules(r) && |b| == r.cells && m < |b|
    ensures HasLine(r, b[m := ME], OPP) ==> HasLine(r, b, OPP)
  {
    if i :| 0 <= i < |r.lines| && Owns(b[m := ME], OPP, r.lines[i]) {
      assert Owns(b, OPP, r.lines[i]);
    }
  }

  /** A move while nobody owns a line: only the side that makes it can own one then, and if it does that is what it
      gets. */
  lemma MoveReward(r: Rules, b: Board, m: nat)
    requires ValidRules(r) && ValidBoard(r, b) && !IsTerminal(r, b).0 && m < |b| && b[m] == EMPTY
    ensures ValidBoard(r, b[m := ME]) && !HasLine(r, b[m := ME], OPP)
    ensures IsTerminal(r, b[m := ME]).1 == if HasLine(r, b[m := ME], ME) then 1 else 0
    ensures IsTerminal(r, b[m := ME]).0 && IsTerminal(r, b[m := ME]).1 == 0 ==>
              forall c :: 0 <= c < |b| && c != m ==> b[c] != EMPTY
  {
    hide IsTerminal;
    TerminalMeans(r, b);
    TerminalMeans(r, b[m := ME]);
    MoveAddsNone(r, b, m);
    assert forall c :: 0 <= c < |b| && c != m ==> b[m := ME][c] == b[c];
  }

  /** The board the opponent sees after a legal move. */
  function Child(b: Board, action: nat): Board
    requires action < |b| && b[action] == EMPTY
  {
    Flip(ApplyMove(b, action).value)
  }

  /** The number of empty cells. */
  function Empties(b: Board): nat {
    if b == [] then 0 else (if b[0] == EMPTY then 1 else 0) + Empties(b[1..])
  }

  lemma {:induction false} EmptiesSplit(b: Board, i: nat)
    requires i < |b|
    ensures Empties(b) == Empties(b[..i]) + (if b[i] == EMPTY then 1 else 0) + Empties(b[i + 1..])
  {
    if i > 0 {
      EmptiesSplit(b[1..], i - 1);
      assert b[1..][..i - 1] == b[..i][1..] && b[1..][i..] == b[i + 1..];
    }
  }

  lemma {:induction false} EmptiesFlip(b: Board)
    ensures Empties(Flip(b)) == Empties(b)
  {
    if b != [] {
      assert Flip(b)[1..] == Flip(b[1..]);
      EmptiesFlip(b[1..]);
    }
  }

  /** A move takes one empty cell: games end. */
  lemma ChildEmpties(b: Board, action: nat)
    requires action < |b| && b[action] == EMPTY
    ensures |Child(b, action)| == |b| && Empties(Child(b, action)) == Empties(b) - 1
  {
    var moved := b[action := ME];
    EmptiesSplit(b, action);
    EmptiesSplit(moved, action);
    assert moved[..action] == b[..action] && moved[action + 1..] == b[action + 1..];
    EmptiesFlip(moved);
  }

  lemma {:induction false} WinnerFlip(r: Rules, b: Board, k: nat)
    requires ValidRules(r) && |b| == r.cells && k <= |r.lines|
    ensures WinnerFrom(r, Flip(b), k) == -WinnerFrom(r, b, k)
    decreases |r.lines| - k
  {
    if k < |r.lines| {
      WinnerFlip(r, b, k + 1);
    }
  }

  /** Changing the perspective negates the reward and nothing else; twice is the identity. */
  lemma FlipTerminal(r: Rules, b: Board)
    requires ValidRules(r) && |b| == r.cells
    ensures IsTerminal(r, Flip(b)) == (IsTerminal(r, b).0, -IsTerminal(r, b).1)
    ensures Flip(Flip(b)) == b
  {
    WinnerFlip(r, b, 0);
    FlipMoves(b);
    hide LegalMoves, WinnerFrom;
  }

  lemma FlipMoves(b: Board)
    ensures LegalMoves(Flip(b)) == [] <==> LegalMoves(b) == []
  {
    hide MovesFrom, Flip;
    if LegalMoves(Flip(b)) != [] {
      assert LegalMoves(Flip(b))[0] in LegalMoves(b);
    }
    if LegalMoves(b) != [] {
      assert LegalMoves(b)[0] in LegalMoves(Flip(b));
    }
  }

  /** Rewards are -1, 0 or 1. */
  lemma {:induction false} WinnerRange(r: Rules, b: Board, k: nat)
    requires ValidRules(r) && |b| == r.cells && k <= |r.lines|
    ensures -1 <= WinnerFrom(r, b, k) <= 1
    decreases |r.lines| - k
  {
    if k < |r.lines| {
      WinnerRange(r, b, k + 1);
    }
  }
}
