/** Who moves first does not lose: an extra mark never harms its owner, so the first player can steal whatever the
    second one has. On every board and set of lines minimax_player never loses as first mover. */
module StrategyStealing {
  import opened TicTacToe
  import opened Negamax

  /** The value of a position for the side ME, whose marks are 1, whether it is to move or not. */
  ghost function MyWorth(r: Rules, b: Board, mine: bool): int
    requires ValidRules(r) && |b| == r.cells
  {
    if mine then Value(r, b) else -Value(r, Flip(b))
  }

  function Mark(mine: bool): int {
    if mine then ME else OPP
  }

  /** Not both sides own a line. */
  ghost predicate Proper(r: Rules, b: Board)
    requires ValidRules(r)
  {
    ValidBoard(r, b) && !(HasLine(r, b, ME) && HasLine(r, b, OPP))
  }

  ghost predicate GoesOn(r: Rules, b: Board)
    requires ValidRules(r) && |b| == r.cells
  {
    !HasLine(r, b, ME) && !HasLine(r, b, OPP) && exists c :: 0 <= c < |b| && b[c] == EMPTY
  }

  lemma EndWorth(r: Rules, b: Board, mine: bool)
    requires ValidRules(r) && Proper(r, b)
    ensures GoesOn(r, b) <==> !IsTerminal(r, b).0
    ensures !GoesOn(r, b) ==>
              MyWorth(r, b, mine) == if HasLine(r, b, ME) then 1 else if HasLine(r, b, OPP) then -1 else 0
  {
    TerminalMeans(r, b);
    FlipTerminal(r, b);
    hide IsTerminal, HasLine;
    if IsTerminal(r, b).0 {
      TerminalValue(r, b);
      TerminalValue(r, Flip(b));
    }
  }

  lemma WorthRange(r: Rules, b: Board, mine: bool)
    requires ValidRules(r) && |b| == r.cells
    ensures -1 <= MyWorth(r, b, mine) <= 1
  {
    hide Value;
    ValueRange(r, b);
    ValueRange(r, Flip(b));
  }

  /** Whoever is to move has a best move, and no move is better for it. */
  lemma BestMark(r: Rules, b: Board, mine: bool) returns (a: nat)
    requires ValidRules(r) && Proper(r, b) && GoesOn(r, b)
    ensures a < |b| && b[a] == EMPTY && MyWorth(r, b[a := Mark(mine)], !mine) == MyWorth(r, b, mine)
    ensures forall m :: 0 <= m < |b| && b[m] == EMPTY ==>
              if mine then MyWorth(r, b[m := ME], false) <= MyWorth(r, b, true)
              else MyWorth(r, b[m := OPP], true) >= MyWorth(r, b, false)
  {
    EndWorth(r, b, mine);
    FlipTerminal(r, b);
    hide IsTerminal, Value, GoesOn, HasLine;
    var view := if mine then b else Flip(b);
    a := BestAction(r, view);
    forall m | 0 <= m < |b| && b[m] == EMPTY
      ensures view[m] == EMPTY && Worth(r, view, m) ==
              if mine then MyWorth(r, b[m := ME], false) else -MyWorth(r, b[m := OPP], true)
    {
      MarkWorth(r, b, mine, m);
    }
  }

  lemma MarkWorth(r: Rules, b: Board, mine: bool, m: nat)
    requires ValidRules(r) && |b| == r.cells && m < |b| && b[m] == EMPTY
    ensures var view := if mine then b else Flip(b);
            Worth(r, view, m) == if mine then MyWorth(r, b[m := ME], false) else -MyWorth(r, b[m := OPP], true)
  {
    hide Value;
    if !mine {
      assert Child(Flip(b), m) == b[m := OPP];
    }
  }

  /** While the game goes on, a move of either side keeps the board proper, and gives a line to that side only. */
  lemma MarkKeeps(r: Rules, b: Board, m: nat, mark: int)
    requires ValidRules(r) && ValidBoard(r, b) && m < |b| && b[m] == EMPTY && (mark == ME || mark == OPP)
    ensures ValidBoard(r, b[m := mark]) && (HasLine(r, b[m := mark], -mark) ==> HasLine(r, b, -mark))
    ensures HasLine(r, b, mark) ==> HasLine(r, b[m := mark], mark)
    ensures GoesOn(r, b) ==> Proper(r, b[m := mark])
    ensures Empties(b[m := mark]) < Empties(b)
  {
    if i :| 0 <= i < |r.lines| && Owns(b[m := mark], -mark, r.lines[i]) {
      assert Owns(b, -mark, r.lines[i]);
    }
    if i :| 0 <= i < |r.lines| && Owns(b, mark, r.lines[i]) {
      assert Owns(b[m := mark], mark, r.lines[i]);
    }
    EmptiesSplit(b, m);
    EmptiesSplit(b[m := mark], m);
    assert b[m := mark][..m] == b[..m] && b[m := mark][m + 1..] == b[m + 1..];
  }

  /** An extra mark of one's own never harms, whoever is to move. */
  lemma {:induction false} ExtraMark(r: Rules, b: Board, c: nat, mine: bool)
    requires ValidRules(r) && Proper(r, b) && c < |b| && b[c] == EMPTY
    ensures MyWorth(r, b[c := ME], mine) >= MyWorth(r, b, mine)
    decreases Empties(b)
  {
    hide MyWorth, HasLine, Empties, GoesOn;
    var more := b[c := ME];
    MarkKeeps(r, b, c, ME);
    EndWorth(r, b, mine);
    WorthRange(r, more, mine);
    if HasLine(r, b, OPP) {
      OwnedEnds(r, b);
    } else {
      EndWorth(r, more, mine);
      if !GoesOn(r, b) {
        OneEmpty(r, b, c);
        OwnedEnds(r, more);
      } else if !GoesOn(r, more) {
        LastCell(r, b, c, mine);
      } else if mine {
        ExtraMarkMine(r, b, c);
      } else {
        var a := BestMark(r, more, false);
        MarkKeeps(r, b, a, OPP);
        var best := BestMark(r, b, false);
        ExtraMark(r, b[a := OPP], c, true);
        assert b[a := OPP][c := ME] == more[a := OPP];
      }
    }
  }

  /** Its case in which the owner of the extra mark is to move. */
  lemma {:induction false} ExtraMarkMine(r: Rules, b: Board, c: nat)
    requires ValidRules(r) && Proper(r, b) && c < |b| && b[c] == EMPTY
    requires GoesOn(r, b) && GoesOn(r, b[c := ME])
    ensures MyWorth(r, b[c := ME], true) >= MyWorth(r, b, true)
    decreases Empties(b), 0
  {
    hide MyWorth, HasLine, Empties;
    var more := b[c := ME];
    MarkKeeps(r, b, c, ME);
    var a := BestMark(r, b, true);
    var best := BestMark(r, more, true);
    if a == c {
      // The mark is there already: any other move will do.
      var d :| 0 <= d < |more| && more[d] == EMPTY;
      ExtraMark(r, more, d, false);
    } else {
      MarkKeeps(r, b, a, ME);
      ExtraMark(r, b[a := ME], c, false);
      assert b[a := ME][c := ME] == more[a := ME] && more[a] == EMPTY;
    }
  }

  lemma OwnedEnds(r: Rules, b: Board)
    requires ValidRules(r) && |b| == r.cells && (HasLine(r, b, ME) || HasLine(r, b, OPP))
    ensures !GoesOn(r, b)
  {
  }

  lemma OneEmpty(r: Rules, b: Board, c: nat)
    requires ValidRules(r) && |b| == r.cells && !GoesOn(r, b) && c < |b| && b[c] == EMPTY
    ensures HasLine(r, b, ME) || HasLine(r, b, OPP)
  {
  }

  /** The extra mark ends the game. */
  lemma LastCell(r: Rules, b: Board, c: nat, mine: bool)
    requires ValidRules(r) && Proper(r, b) && c < |b| && b[c] == EMPTY
    requires GoesOn(r, b) && !GoesOn(r, b[c := ME])
    ensures MyWorth(r, b[c := ME], mine) >= MyWorth(r, b, mine)
  {
    hide MyWorth, HasLine;
    MarkKeeps(r, b, c, ME);
    EndWorth(r, b[c := ME], mine);
    WorthRange(r, b, mine);
    if !HasLine(r, b[c := ME], ME) {
      OnlyEmpty(r, b, c);
      var a := BestMark(r, b, mine);
      MarkKeeps(r, b, c, OPP);
      EndWorth(r, b[c := OPP], true);
      EndWorth(r, b[c := ME], false);
    }
  }

  lemma OnlyEmpty(r: Rules, b: Board, c: nat)
    requires ValidRules(r) && |b| == r.cells && c < |b|
    requires !GoesOn(r, b[c := ME]) && !HasLine(r, b[c := ME], ME) && !HasLine(r, b[c := ME], OPP)
    ensures forall i :: 0 <= i < |b| && b[i] == EMPTY ==> i == c
    ensures !GoesOn(r, b[c := OPP])
  {
    hide HasLine;
    forall i | 0 <= i < |b| && i != c ensures b[i] != EMPTY {
      assert b[c := ME][i] == b[i];
    }
  }

  /** The empty board is worth at least a draw to the first player. */
  lemma FirstMoverIsSafe(r: Rules)
    requires ValidRules(r)
    ensures Value(r, InitialBoard(r)) >= 0
  {
    var b := InitialBoard(r);
    EmptyHasNoLine(r);
    assert Flip(b) == b;
    EndWorth(r, b, true);
    if GoesOn(r, b) {
      var a := BestMark(r, b, true);
      ExtraMark(r, b, a, false);
    }
  }

  lemma EmptyHasNoLine(r: Rules)
    requires ValidRules(r)
    ensures Proper(r, InitialBoard(r))
    ensures !HasLine(r, InitialBoard(r), ME) && !HasLine(r, InitialBoard(r), OPP)
  {
  }

  /** As first mover minimax_player never loses, against any legal opponent, whatever its moves depend on. */
  lemma PerfectNeverLosesFirst(r: Rules, other: Strategy)
    requires ValidRules(r) && Legal(r, other)
    ensures Play(r, [], InitialBoard(r), Perfect(r), other) >= 0
  {
    FirstMoverIsSafe(r);
    Guarantee(r, [], InitialBoard(r), other);
  }
}
