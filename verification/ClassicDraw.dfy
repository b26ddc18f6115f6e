/** The 3 by 3 board is a draw: the first player does not lose, and a strategy of the second player is given that holds
    it. So minimax_player never loses on it, as first or as second mover, and two of them always draw. */
module ClassicDraw {
  import opened TicTacToe
  import opened Negamax
  import opened StrategyStealing

  // The cells are a b c, d e f, g h i, row by row, with the first player's marks 1 and the second's -1.

  predicate Two(s: int, x: int, y: int) {
    x == s && y == s
  }

  predicate Three(s: int, x: int, y: int, z: int) {
    x == s && y == s && z == s
  }

  predicate HasRow(s: int, a: int, b: int, c: int, d: int, e: int, f: int, g: int, h: int, i: int) {
    || Three(s, a, b, c) || Three(s, d, e, f) || Three(s, g, h, i) || Three(s, a, d, g)
    || Three(s, b, e, h) || Three(s, c, f, i) || Three(s, a, e, i) || Three(s, c, e, g)
  }

  /** With the first player to move, and at most left moves of its own before it, the second holds the
      draw by the strategy of Answered. */
  predicate Held(left: nat, a: int, b: int, c: int, d: int, e: int, f: int, g: int, h: int, i: int)
    decreases left, 1
  {
    && left > 0
    && (a == 0 ==> Answered(left, 1, b, c, d, e, f, g, h, i))
    && (b == 0 ==> Answered(left, a, 1, c, d, e, f, g, h, i))
    && (c == 0 ==> Answered(left, a, b, 1, d, e, f, g, h, i))
    && (d == 0 ==> Answered(left, a, b, c, 1, e, f, g, h, i))
    && (e == 0 ==> Answered(left, a, b, c, d, 1, f, g, h, i))
    && (f == 0 ==> Answered(left, a, b, c, d, e, 1, g, h, i))
    && (g == 0 ==> Answered(left, a, b, c, d, e, f, 1, h, i))
    && (h == 0 ==> Answered(left, a, b, c, d, e, f, g, 1, i))
    && (i == 0 ==> Answered(left, a, b, c, d, e, f, g, h, 1))
  }

  /** The strategy: complete a line; else stop one; else take the center; else answer opposite corners at an edge, two
      edges at the corner between them; else take a corner, else any cell. */
  predicate Answered(left: nat, a: int, b: int, c: int, d: int, e: int, f: int, g: int, h: int, i: int)
    decreases left, 0
  {
    if left == 0 || HasRow(1, a, b, c, d, e, f, g, h, i) then false
    else if a == 0 && (Two(-1, b, c) || Two(-1, d, g) || Two(-1, e, i)) then true
    else if b == 0 && (Two(-1, a, c) || Two(-1, e, h)) then true
    else if c == 0 && (Two(-1, a, b) || Two(-1, f, i) || Two(-1, e, g)) then true
    else if d == 0 && (Two(-1, e, f) || Two(-1, a, g)) then true
    else if e == 0 && (Two(-1, d, f) || Two(-1, b, h) || Two(-1, a, i) || Two(-1, c, g)) then true
    else if f == 0 && (Two(-1, d, e) || Two(-1, c, i)) then true
    else if g == 0 && (Two(-1, h, i) || Two(-1, a, d) || Two(-1, c, e)) then true
    else if h == 0 && (Two(-1, g, i) || Two(-1, b, e)) then true
    else if i == 0 && (Two(-1, g, h) || Two(-1, c, f) || Two(-1, a, e)) then true
    else if a == 0 && (Two(1, b, c) || Two(1, d, g) || Two(1, e, i)) then Held(left - 1, -1, b, c, d, e, f, g, h, i)
    else if b == 0 && (Two(1, a, c) || Two(1, e, h)) then Held(left - 1, a, -1, c, d, e, f, g, h, i)
    else if c == 0 && (Two(1, a, b) || Two(1, f, i) || Two(1, e, g)) then Held(left - 1, a, b, -1, d, e, f, g, h, i)
    else if d == 0 && (Two(1, e, f) || Two(1, a, g)) then Held(left - 1, a, b, c, -1, e, f, g, h, i)
    else if e == 0 && (Two(1, d, f) || Two(1, b, h) || Two(1, a, i) || Two(1, c, g))
      then Held(left - 1, a, b, c, d, -1, f, g, h, i)
    else if f == 0 && (Two(1, d, e) || Two(1, c, i)) then Held(left - 1, a, b, c, d, e, -1, g, h, i)
    else if g == 0 && (Two(1, h, i) || Two(1, a, d) || Two(1, c, e)) then Held(left - 1, a, b, c, d, e, f, -1, h, i)
    else if h == 0 && (Two(1, g, i) || Two(1, b, e)) then Held(left - 1, a, b, c, d, e, f, g, -1, i)
    else if i == 0 && (Two(1, g, h) || Two(1, c, f) || Two(1, a, e)) then Held(left - 1, a, b, c, d, e, f, g, h, -1)
    else if e == 0 then Held(left - 1, a, b, c, d, -1, f, g, h, i)
    else if e == -1 && b == 0 && (Two(1, a, i) || Two(1, c, g)) then Held(left - 1, a, -1, c, d, e, f, g, h, i)
    else if a == 0 && b + c == 1 && d + g == 1 then Held(left - 1, -1, b, c, d, e, f, g, h, i)
    else if c == 0 && a + b == 1 && f + i == 1 then Held(left - 1, a, b, -1, d, e, f, g, h, i)
    else if g == 0 && a + d == 1 && h + i == 1 then Held(left - 1, a, b, c, d, e, f, -1, h, i)
    else if i == 0 && c + f == 1 && g + h == 1 then Held(left - 1, a, b, c, d, e, f, g, h, -1)
    else if a == 0 then Held(left - 1, -1, b, c, d, e, f, g, h, i)
    else if c == 0 then Held(left - 1, a, b, -1, d, e, f, g, h, i)
    else if g == 0 then Held(left - 1, a, b, c, d, e, f, -1, h, i)
    else if i == 0 then Held(left - 1, a, b, c, d, e, f, g, h, -1)
    else if b == 0 then Held(left - 1, a, -1, c, d, e, f, g, h, i)
    else if d == 0 then Held(left - 1, a, b, c, -1, e, f, g, h, i)
    else if f == 0 then Held(left - 1, a, b, c, d, e, -1, g, h, i)
    else if h == 0 then Held(left - 1, a, b, c, d, e, f, g, -1, i)
    else true
  }

  // The strategy is followed through, first move by first move.

  lemma AnswerA()
    ensures Answered(5, 1, 0, 0, 0, 0, 0, 0, 0, 0)
  {
  }

  lemma AnswerB()
    ensures Answered(5, 0, 1, 0, 0, 0, 0, 0, 0, 0)
  {
  }

  lemma AnswerC()
    ensures Answered(5, 0, 0, 1, 0, 0, 0, 0, 0, 0)
  {
  }

  lemma AnswerD()
    ensures Answered(5, 0, 0, 0, 1, 0, 0, 0, 0, 0)
  {
  }

  // Behind the center and the answer in the corner.

  lemma CenterFirst()
    ensures Answered(4, -1, 1, 0, 0, 1, 0, 0, 0, 0) && Answered(4, -1, 0, 1, 0, 1, 0, 0, 0, 0)
    ensures Answered(4, -1, 0, 0, 1, 1, 0, 0, 0, 0)
  {
  }

  lemma CenterLast()
    ensures Answered(4, -1, 0, 0, 0, 1, 1, 0, 0, 0) && Answered(4, -1, 0, 0, 0, 1, 0, 1, 0, 0)
    ensures Answered(4, -1, 0, 0, 0, 1, 0, 0, 1, 0) && Answered(4, -1, 0, 0, 0, 1, 0, 0, 0, 1)
  {
  }

  lemma AnswerE()
    ensures Answered(5, 0, 0, 0, 0, 1, 0, 0, 0, 0)
  {
    CenterFirst();
    CenterLast();
  }

  lemma AnswerF()
    ensures Answered(5, 0, 0, 0, 0, 0, 1, 0, 0, 0)
  {
  }

  lemma AnswerG()
    ensures Answered(5, 0, 0, 0, 0, 0, 0, 1, 0, 0)
  {
  }

  lemma AnswerH()
    ensures Answered(5, 0, 0, 0, 0, 0, 0, 0, 1, 0)
  {
  }

  lemma AnswerI()
    ensures Answered(5, 0, 0, 0, 0, 0, 0, 0, 0, 1)
  {
  }

  lemma StartHeld()
    ensures Held(5, 0, 0, 0, 0, 0, 0, 0, 0, 0)
  {
    AnswerA();
    AnswerB();
    AnswerC();
    AnswerD();
    AnswerE();
    AnswerF();
    AnswerG();
    AnswerH();
    AnswerI();
  }

  // ---------- boards ----------

  predicate HeldBoard(left: nat, b: Board)
    requires |b| == 9
  {
    Held(left, b[0], b[1], b[2], b[3], b[4], b[5], b[6], b[7], b[8])
  }

  predicate AnsweredBoard(left: nat, b: Board)
    requires |b| == 9
  {
    Answered(left, b[0], b[1], b[2], b[3], b[4], b[5], b[6], b[7], b[8])
  }

  predicate RowOn(s: int, b: Board)
    requires |b| == 9
  {
    HasRow(s, b[0], b[1], b[2], b[3], b[4], b[5], b[6], b[7], b[8])
  }

  lemma RowIsLine(s: int, b: Board)
    requires |b| == 9
    ensures RowOn(s, b) <==> HasLine(CLASSIC, b, s)
  {
    forall k | 0 <= k < 8 ensures Owns(b, s, CLASSIC.lines[k]) ==> RowOn(s, b) {
    }
    if RowOn(s, b) {
      assert exists k :: 0 <= k < 8 && Owns(b, s, CLASSIC.lines[k]) by {
        assert || Owns(b, s, CLASSIC.lines[0]) || Owns(b, s, CLASSIC.lines[1]) || Owns(b, s, CLASSIC.lines[2])
               || Owns(b, s, CLASSIC.lines[3]) || Owns(b, s, CLASSIC.lines[4]) || Owns(b, s, CLASSIC.lines[5])
               || Owns(b, s, CLASSIC.lines[6]) || Owns(b, s, CLASSIC.lines[7]);
      }
    }
  }

  /** There is an answer on some cell: it completes a line, or leaves a held board. */
  lemma AnswerCell(left: nat, a: int, b: int, c: int, d: int, e: int, f: int, g: int, h: int, i: int)
    requires left > 0 && Answered(left, a, b, c, d, e, f, g, h, i)
    requires a == 0 || b == 0 || c == 0 || d == 0 || e == 0 || f == 0 || g == 0 || h == 0 || i == 0
    ensures
      || (a == 0 && (HasRow(-1, -1, b, c, d, e, f, g, h, i) || Held(left - 1, -1, b, c, d, e, f, g, h, i)))
      || (b == 0 && (HasRow(-1, a, -1, c, d, e, f, g, h, i) || Held(left - 1, a, -1, c, d, e, f, g, h, i)))
      || (c == 0 && (HasRow(-1, a, b, -1, d, e, f, g, h, i) || Held(left - 1, a, b, -1, d, e, f, g, h, i)))
      || (d == 0 && (HasRow(-1, a, b, c, -1, e, f, g, h, i) || Held(left - 1, a, b, c, -1, e, f, g, h, i)))
      || (e == 0 && (HasRow(-1, a, b, c, d, -1, f, g, h, i) || Held(left - 1, a, b, c, d, -1, f, g, h, i)))
      || (f == 0 && (HasRow(-1, a, b, c, d, e, -1, g, h, i) || Held(left - 1, a, b, c, d, e, -1, g, h, i)))
      || (g == 0 && (HasRow(-1, a, b, c, d, e, f, -1, h, i) || Held(left - 1, a, b, c, d, e, f, -1, h, i)))
      || (h == 0 && (HasRow(-1, a, b, c, d, e, f, g, -1, i) || Held(left - 1, a, b, c, d, e, f, g, -1, i)))
      || (i == 0 && (HasRow(-1, a, b, c, d, e, f, g, h, -1) || Held(left - 1, a, b, c, d, e, f, g, h, -1)))
  {
    hide Held;
  }

  ghost predicate Answers(left: nat, b: Board, o: nat)
    requires |b| == 9
  {
    o < 9 && b[o] == 0 && left > 0 && (RowOn(-1, b[o := -1]) || HeldBoard(left - 1, b[o := -1]))
  }

  lemma Answer(left: nat, b: Board) returns (o: nat)
    requires |b| == 9 && left > 0 && AnsweredBoard(left, b) && exists k :: 0 <= k < 9 && b[k] == 0
    ensures Answers(left, b, o)
  {
    AnswerCell(left, b[0], b[1], b[2], b[3], b[4], b[5], b[6], b[7], b[8]);
    hide Held, Answered, HasRow;
    o := if Answers(left, b, 0) then 0 else if Answers(left, b, 1) then 1 else if Answers(left, b, 2) then 2
         else if Answers(left, b, 3) then 3 else if Answers(left, b, 4) then 4 else if Answers(left, b, 5) then 5
         else if Answers(left, b, 6) then 6 else if Answers(left, b, 7) then 7 else 8;
  }

  /** A held board answers every move. */
  lemma HeldMove(left: nat, b: Board, m: nat)
    requires |b| == 9 && HeldBoard(left, b) && m < 9 && b[m] == 0
    ensures left > 0 && AnsweredBoard(left, b[m := 1])
  {
    hide Answered;
  }

  /** On a held board the first player, to move, gets at most a draw. */
  lemma {:induction false} HeldIsSafe(left: nat, b: Board)
    requires ValidBoard(CLASSIC, b) && HeldBoard(left, b) && !RowOn(1, b)
    ensures MyWorth(CLASSIC, b, true) <= 0
    decreases left, 1
  {
    ClassicIsValid();
    hide MyWorth, HasLine, HasRow, Answered, Held, GoesOn, ValidRules;
    RowIsLine(1, b);
    EndWorth(CLASSIC, b, true);
    if GoesOn(CLASSIC, b) {
      GoesOnIs(b);
      var a := BestMark(CLASSIC, b, true);
      HeldMove(left, b, a);
      MarkKeeps(CLASSIC, b, a, ME);
      AnsweredIsSafe(left, b[a := ME]);
    }
  }

  lemma {:induction false} AnsweredIsSafe(left: nat, b: Board)
    requires ValidBoard(CLASSIC, b) && left > 0 && AnsweredBoard(left, b)
    ensures MyWorth(CLASSIC, b, false) <= 0
    decreases left, 0
  {
    ClassicIsValid();
    hide MyWorth, HasLine, HasRow, Answered, Held, GoesOn, ValidRules;
    AnsweredHasNoRow(left, b);
    RowIsLine(1, b);
    EndWorth(CLASSIC, b, false);
    if GoesOn(CLASSIC, b) {
      GoesOnIs(b);
      var o := Answer(left, b);
      var best := BestMark(CLASSIC, b, false);
      MarkKeeps(CLASSIC, b, o, OPP);
      AnswerIsSafe(left, b, o);
    }
  }

  lemma {:induction false} AnswerIsSafe(left: nat, b: Board, o: nat)
    requires ValidBoard(CLASSIC, b) && Answers(left, b, o) && !RowOn(1, b)
    ensures MyWorth(CLASSIC, b[o := OPP], true) <= 0
    decreases left - 1, 2
  {
    ClassicIsValid();
    hide MyWorth, HasLine, HasRow, Answered, Held, GoesOn, ValidRules;
    var answered := b[o := OPP];
    MarkKeeps(CLASSIC, b, o, OPP);
    RowIsLine(1, b);
    RowIsLine(1, answered);
    if HeldBoard(left - 1, answered) {
      HeldIsSafe(left - 1, answered);
    } else {
      RowIsLine(-1, answered);
      EndWorth(CLASSIC, answered, true);
      LineEnds(answered);
    }
  }

  lemma LineEnds(b: Board)
    requires |b| == 9 && HasLine(CLASSIC, b, OPP)
    ensures ValidRules(CLASSIC) && !GoesOn(CLASSIC, b)
  {
  }

  lemma GoesOnIs(b: Board)
    requires |b| == 9 && ValidRules(CLASSIC) && GoesOn(CLASSIC, b)
    ensures !HasLine(CLASSIC, b, ME) && !HasLine(CLASSIC, b, OPP) && exists k :: 0 <= k < 9 && b[k] == EMPTY
  {
  }

  lemma AnsweredHasNoRow(left: nat, b: Board)
    requires |b| == 9 && AnsweredBoard(left, b)
    ensures !RowOn(1, b)
  {
    hide HasRow, Held;
  }

  /** The 3 by 3 board is a draw. */
  lemma ClassicIsDraw()
    ensures ValidRules(CLASSIC) && Value(CLASSIC, InitialBoard(CLASSIC)) == 0
  {
    ClassicIsValid();
    StartHeld();
    hide Held, Answered, Value;
    EmptyHasNoLine(CLASSIC);
    RowIsLine(1, InitialBoard(CLASSIC));
    HeldIsSafe(5, InitialBoard(CLASSIC));
    FirstMoverIsSafe(CLASSIC);
  }

  /** On it minimax_player never loses, as first or as second mover, against any legal opponent, and two such players
      always draw. */
  lemma PerfectNeverLoses(other: Strategy)
    requires ValidRules(CLASSIC) && Legal(CLASSIC, other)
    ensures Play(CLASSIC, [], InitialBoard(CLASSIC), Perfect(CLASSIC), other) >= 0
    ensures Play(CLASSIC, [], InitialBoard(CLASSIC), other, Perfect(CLASSIC)) <= 0
    ensures Play(CLASSIC, [], InitialBoard(CLASSIC), Perfect(CLASSIC), Perfect(CLASSIC)) == 0
  {
    hide Value, Play;
    ClassicIsDraw();
    Optimal(CLASSIC, InitialBoard(CLASSIC), other);
  }
}
