/** The agent of rl-ttt/rl_ttt/agent.py and the loops of rl-ttt/rl_ttt/train.py. Random numbers are arbitrary choices,
    so what is proved holds for every run. */
module Training {
  import opened Options
  import opened TicTacToe
  import opened QTable
  import opened Episodes
  import Negamax

  class QLearningAgent {
    const rules: Rules
    var alpha: real
    var gamma: real
    var epsilon: real
    var qTable: Table

    ghost predicate Valid()
      reads this
    {
      ValidRules(rules) && 0.0 <= alpha <= 1.0 && 0.0 <= gamma <= 1.0 && TableOk(rules.cells, qTable)
    }

    constructor (rules: Rules, alpha: real, gamma: real, epsilon: real)
      requires ValidRules(rules) && 0.0 <= alpha <= 1.0 && 0.0 <= gamma <= 1.0
      ensures Valid() && this.rules == rules && qTable == map[] && this.epsilon == epsilon
    {
      this.rules, this.alpha, this.gamma, this.epsilon := rules, alpha, gamma, epsilon;
      qTable := map[];
    }

    method QValues(board: Board) returns (q: Row)
      requires Valid() && |board| == rules.cells
      modifies this`qTable
      ensures Valid() && qTable == Ensure(old(qTable), board) && q == qTable[board]
      ensures board !in old(qTable) ==> |q| == |board| && forall i :: 0 <= i < |q| ==>
                q[i] == if board[i] == EMPTY then Some(0.0) else None
    {
      EnsureKeeps(rules.cells, qTable, board);
      if board !in qTable {
        qTable := qTable[board := FreshRow(board)];
      }
      q := qTable[board];
    }

    /** None stands for the ValueError on a board without legal moves. The random numbers are parameters: draw decides
        between exploring and the best actions, pick among the choices. */
    method SelectAction(board: Board, draw: real, pick: nat) returns (action: Option<nat>)
      requires Valid() && |board| == rules.cells && 0.0 <= draw < 1.0
      modifies this`qTable
      ensures Valid() && Extends(qTable, old(qTable))
      ensures action.None? <==> LegalMoves(board) == []
      ensures action.Some? ==> action.value < |board| && board[action.value] == EMPTY
      ensures action.Some? && draw < epsilon ==> action == Some(LegalMoves(board)[pick % |LegalMoves(board)|])
      ensures action.Some? && draw >= epsilon ==>
                var best := PlacesFrom(Entry(old(qTable), board), NanMax(Entry(old(qTable), board)), 0);
                Maximal(old(qTable), board, action.value) && best != [] && action == Some(best[pick % |best|])
      ensures action.Some? && draw >= epsilon ==>
                board in qTable && qTable[board][action.value] == NanMax(qTable[board])
    {
      hide TableOk, NanMax, FreshRow, LegalMoves, PlacesFrom, Maximal;
      var legal := LegalMoves(board);
      if legal == [] {
        return None;
      }
      if draw < epsilon {
        assert legal[pick % |legal|] in legal;
        return Some(legal[pick % |legal|]);
      }
      EnsureKeeps(rules.cells, qTable, board);
      EntryOk(rules.cells, qTable, board);
      ghost var before := qTable;
      var q := QValues(board);
      var maxQ := NanMax(q);
      var candidates := PlacesFrom(q, maxQ, 0);
      CandidatesAreMaximal(rules.cells, before, board);
      var a := candidates[pick % |candidates|];
      assert a in candidates;
      MaximalIsLegal(before, board, a);
      return Some(a);
    }

    /** update: the one value becomes its mean, weighted by alpha, with the reward, to which before the end of the game
        the discounted value of a best action on the next board is added; no other value changes. */
    method Update(s: Board, a: nat, reward: real, next: Option<Board>) returns (ghost best: nat)
      requires Valid() && Transition(rules.cells, s, a, reward, next)
      requires |s| == rules.cells && (next.Some? ==> |next.value| == rules.cells)
      modifies this`qTable
      ensures Valid()
      ensures next.Some? ==> Maximal(old(qTable), next.value, best)
      ensures a < |Entry(old(qTable), s)| && Entry(old(qTable), s)[a].Some?
      ensures var v := Entry(qTable, s);
              && a < |v| && v[a].Some? && v == Entry(old(qTable), s)[a := v[a]]
              && (next.None? ==> v[a].value == (1.0 - alpha) * Entry(old(qTable), s)[a].value + alpha * reward)
              && (next.Some? ==> v[a].value == (1.0 - alpha) * Entry(old(qTable), s)[a].value
                                               + alpha * (reward + gamma * Entry(old(qTable), next.value)[best].value))
      ensures forall b :: b != s ==> Entry(qTable, b) == Entry(old(qTable), b)
      ensures Defined(Looked(old(qTable), s, next), s, a, next)
      ensures qTable == Updated(old(qTable), alpha, gamma, s, a, reward, next)
    {
      hide TableOk, NanMax, LegalMoves, Transition, Updated, Defined, FreshRow, Put, Nudge, Bootstrap, Maximal, Entry;
      ghost var u := Looked(qTable, s, next);
      UpdateKeeps(rules.cells, qTable, alpha, gamma, s, a, reward, next);
      UpdateParts(qTable, alpha, gamma, s, a, reward, next);
      best := UpdateMeans(rules.cells, qTable, alpha, gamma, s, a, reward, next);
      var qS := QValues(s);
      var target := reward;
      if next.Some? {
        var qNext := QValues(next.value);
        target := Bootstrap(reward, gamma, NanMax(qNext).value);
      }
      assert qTable == u;
      qTable := Put(qTable, s, a, Nudge(qTable[s][a].value, alpha, target));
    }
  }

  // ---------- episodes ----------

  /** random_player, minimax_player, and the agent itself in self-play. */
  datatype Opponent = RandomPlayer | MinimaxPlayer | SelfPlay

  /** Rules under which a game can begin. */
  ghost predicate Playable(r: Rules) {
    ValidRules(r) && !IsTerminal(r, InitialBoard(r)).0
  }

  lemma ClassicIsPlayable()
    ensures Playable(CLASSIC)
  {
    ClassicIsValid();
    assert 0 in LegalMoves(InitialBoard(CLASSIC));
    WinnerOfEmpty(CLASSIC, 0);
  }

  lemma {:induction false} WinnerOfEmpty(r: Rules, k: nat)
    requires ValidRules(r) && k <= |r.lines|
    ensures WinnerFrom(r, InitialBoard(r), k) == 0
    decreases |r.lines| - k
  {
    if k < |r.lines| {
      WinnerOfEmpty(r, k + 1);
    }
  }

  /** The board after a move, as both sides see it. */
  lemma MoveFacts(r: Rules, b: Board, a: nat)
    requires ValidRules(r) && |b| == r.cells && a < |b| && b[a] == EMPTY
    ensures var moved := ApplyMove(b, a);
            && moved == Some(b[a := ME]) && Flip(moved.value) == Child(b, a) && |Child(b, a)| == |b|
            && Empties(Child(b, a)) < Empties(b)
            && -1 <= IsTerminal(r, moved.value).1 <= 1
            && IsTerminal(r, Child(b, a)) == (IsTerminal(r, moved.value).0, -IsTerminal(r, moved.value).1)
            && (!IsTerminal(r, moved.value).0 ==> LegalMoves(Child(b, a)) != [])
  {
    ChildEmpties(b, a);
    FlipTerminal(r, ApplyMove(b, a).value);
    WinnerRange(r, ApplyMove(b, a).value, 0);
  }

  lemma MaximalIsLegal(t: Table, b: Board, a: nat)
    requires Maximal(t, b, a)
    ensures a < |b| && b[a] == EMPTY
  {
  }

  /** random_player: any legal action by the random number; None stands for its ValueError. */
  method RandomMove(board: Board, pick: nat) returns (action: Option<nat>)
    ensures action.None? <==> LegalMoves(board) == []
    ensures action.Some? ==> action.value < |board| && board[action.value] == EMPTY
    ensures action.Some? ==> action.value == LegalMoves(board)[pick % |LegalMoves(board)|]
  {
    var legal := LegalMoves(board);
    if legal == [] {
      return None;
    }
    assert legal[pick % |legal|] in legal;
    action := Some(legal[pick % |legal|]);
  }

  /** An opponent's move. */
  method OpponentMove(agent: QLearningAgent, solver: Negamax.Solver, opponent: Opponent, board: Board) returns (a: nat)
    requires agent.Valid() && solver.Valid() && solver.rules == agent.rules
    requires |board| == agent.rules.cells && !IsTerminal(agent.rules, board).0
    modifies agent`qTable, solver
    ensures agent.Valid() && solver.Valid() && Extends(agent.qTable, old(agent.qTable))
    ensures a < |board| && board[a] == EMPTY
    ensures opponent.MinimaxPlayer? ==> Negamax.Minimax(agent.rules, board) == Some(a)
  {
    hide IsTerminal, LegalMoves, Negamax.Plain, TableOk, Extends;
    GoesOn(agent.rules, board);
    NothingNew(agent.qTable);
    match opponent {
      case RandomPlayer =>
        var pick: nat := *;
        var action := RandomMove(board, pick);
        a := action.value;
      case MinimaxPlayer =>
        ghost var best := Negamax.BestAction(agent.rules, board);
        MinimaxIs(agent.rules, board);
        var action := solver.MinimaxPlayer(board);
        a := action.value;
      case SelfPlay =>
        var draw: real :| 0.0 <= draw < 1.0;
        var pick: nat := *;
        var action := agent.SelectAction(board, draw, pick);
        a := action.value;
    }
  }

  lemma NothingNew(t: Table)
    ensures Extends(t, t)
  {
  }

  lemma IsTransition(cells: nat, s: Board, a: nat, reward: int, next: Option<Board>)
    requires |s| == cells && a < cells && s[a] == EMPTY
    requires if next.None? then -1 <= reward <= 1
             else reward == 0 && |next.value| == cells && LegalMoves(next.value) != []
    ensures Transition(cells, s, a, reward as real, next)
  {
  }

  /** What learning leaves, for a table with the same values. */
  ghost predicate InStep(cells: nat, qTable: Table, expected: Table) {
    Same(qTable, expected) && TableOk(cells, expected)
  }

  lemma StillInStep(cells: nat, t: Table, u: Table, expected: Table)
    requires InStep(cells, t, expected) && Extends(u, t)
    ensures InStep(cells, u, expected)
  {
    ExtendsIsSame(u, t);
    SameTrans(u, t, expected);
  }

  lemma LearnInStep(cells: nat, t: Table, expected: Table, alpha: real, gamma: real, e: Experience)
    requires TableOk(cells, t) && InStep(cells, t, expected) && 0.0 <= alpha <= 1.0 && 0.0 <= gamma <= 1.0
    requires Transition(cells, e.s, e.a, e.reward as real, e.next)
    ensures Defined(Looked(t, e.s, e.next), e.s, e.a, e.next)
    ensures InStep(cells, Updated(t, alpha, gamma, e.s, e.a, e.reward as real, e.next),
                   Learn(expected, alpha, gamma, e))
  {
    LearnSame(cells, t, expected, alpha, gamma, e);
  }

  /** The agent learns from a transition, and stays in step. */
  method LearnFrom(agent: QLearningAgent, s: Board, a: nat, reward: int, next: Option<Board>, ghost expected: Table)
    requires agent.Valid() && InStep(agent.rules.cells, agent.qTable, expected)
    requires |s| == agent.rules.cells && a < |s| && s[a] == EMPTY
    requires if next.None? then -1 <= reward <= 1
             else reward == 0 && |next.value| == agent.rules.cells && LegalMoves(next.value) != []
    modifies agent`qTable
    ensures agent.Valid()
    ensures InStep(agent.rules.cells, agent.qTable,
                   Learn(expected, agent.alpha, agent.gamma, Experience(s, a, reward, next)))
  {
    hide TableOk, LegalMoves, Transition, InStep, Learn, Updated, Defined, ValidRules;
    IsTransition(agent.rules.cells, s, a, reward, next);
    LearnInStep(agent.rules.cells, agent.qTable, expected, agent.alpha, agent.gamma, Experience(s, a, reward, next));
    var _ := agent.Update(s, a, reward as real, next);
  }

  lemma BestInStep(cells: nat, t: Table, expected: Table, b: Board, a: nat)
    requires InStep(cells, t, expected) && TableOk(cells, t) && b in t && a < |b| && t[b][a] == NanMax(t[b])
    ensures Best(expected, b, a)
  {
    assert Entry(t, b) == Entry(expected, b);
  }

  /** The circumstances of an episode: the rules, the table and the rates it begins with, whether it trains, whether
      the trainee is first, whether it does not explore, and whether the opponent is minimax_player. */
  datatype Setup = Setup(r: Rules, t: Table, alpha: real, gamma: real, train: bool, first: bool, greedy: bool,
                         minimax: bool)

  /** The moves so far are as they should be. */
  ghost predicate Progress(u: Setup, moves: seq<nat>) {
    && ValidRules(u.r) && Moves(u.r, moves)
    && (u.greedy ==> Greedy(u.r, u.t, u.alpha, u.gamma, u.train, moves, u.first))
    && (u.minimax ==> AgainstMinimax(u.r, moves, u.first))
  }

  ghost function Expected(u: Setup, moves: seq<nat>): Table {
    Current(u.r, u.t, u.alpha, u.gamma, u.train, moves, u.first)
  }

  /** The table an episode leaves. */
  ghost function Taught(u: Setup, moves: seq<nat>, outcome: int): Table {
    if u.train then LearnAll(u.t, u.alpha, u.gamma, GameLog(u.r, Game(moves, u.first, outcome))) else u.t
  }

  lemma EpisodeStart(u: Setup)
    requires Playable(u.r) && TableOk(u.r.cells, u.t)
    ensures Progress(u, []) && InStep(u.r.cells, u.t, Expected(u, []))
    ensures ValidRules(u.r) && Position(u.r, []) == InitialBoard(u.r) && !IsTerminal(u.r, InitialBoard(u.r)).0
  {
    CurrentAtStart(u.r, u.t, u.alpha, u.gamma, u.train, u.first);
  }

  lemma TraineeMove(u: Setup, q: Table, moves: seq<nat>, m: nat)
    requires Progress(u, moves) && ValidRules(u.r) && MovesAt(u.r, Position(u.r, moves), m)
    requires TraineeMoves(u.first, |moves|)
    requires InStep(u.r.cells, q, Expected(u, moves)) && TableOk(u.r.cells, q)
    requires var b := Position(u.r, moves); u.greedy ==> b in q && m < |q[b]| && q[b][m] == NanMax(q[b])
    ensures Progress(u, moves + [m]) && Position(u.r, moves + [m]) == Child(Position(u.r, moves), m)
    ensures Expected(u, moves + [m]) == Expected(u, moves)
    ensures LastReward(u.r, moves + [m]) == IsTerminal(u.r, Position(u.r, moves)[m := ME]).1
  {
    hide TableOk, InStep, Position, IsTerminal, Moves, Greedy, AgainstMinimax, Current, Child;
    MovesSnoc(u.r, moves, m);
    CurrentAfterMove(u.r, u.t, u.alpha, u.gamma, u.train, moves, u.first, m);
    if u.greedy {
      BestInStep(u.r.cells, q, Expected(u, moves), Position(u.r, moves), m);
      GreedySnoc(u.r, u.t, u.alpha, u.gamma, u.train, moves, u.first, m);
    }
    if u.minimax {
      AgainstMinimaxSnoc(u.r, moves, u.first, m);
    }
  }

  lemma ReplyMove(u: Setup, moves: seq<nat>, m: nat)
    requires Progress(u, moves) && ValidRules(u.r) && MovesAt(u.r, Position(u.r, moves), m)
    requires !TraineeMoves(u.first, |moves|)
    requires u.minimax ==> Negamax.Minimax(u.r, Position(u.r, moves)) == Some(m)
    ensures Progress(u, moves + [m]) && Position(u.r, moves + [m]) == Child(Position(u.r, moves), m)
    ensures LastReward(u.r, moves + [m]) == IsTerminal(u.r, Position(u.r, moves)[m := ME]).1
  {
    hide Position, IsTerminal, Moves, Greedy, AgainstMinimax, Child, Negamax.Minimax;
    MovesSnoc(u.r, moves, m);
    if u.greedy {
      GreedySnoc(u.r, u.t, u.alpha, u.gamma, u.train, moves, u.first, m);
    }
    if u.minimax {
      AgainstMinimaxSnoc(u.r, moves, u.first, m);
    }
  }

  /** What the table is to be after a reply, by what the trainee then learns. */
  lemma ReplyTeaches(u: Setup, moves: seq<nat>, m: nat)
    requires !TraineeMoves(u.first, |moves|)
    ensures Expected(u, moves + [m])
         == if u.train && moves != []
            then Learn(Expected(u, moves), u.alpha, u.gamma,
                       Experience(Position(u.r, moves[..|moves| - 1]), moves[|moves| - 1], 0,
                                  Some(Position(u.r, moves + [m]))))
            else Expected(u, moves)
  {
    hide Position, Current, Learn;
    CurrentAfterReply(u.r, u.t, u.alpha, u.gamma, u.train, moves, u.first, m);
  }

  /** And at the end, when the outcome goes to the trainee's last move. */
  lemma EndTeaches(u: Setup, moves: seq<nat>, m: nat, outcome: int)
    ensures Taught(u, moves + [m], outcome)
         == if !u.train then Expected(u, moves)
            else if TraineeMoves(u.first, |moves|) then
              Learn(Expected(u, moves), u.alpha, u.gamma, Experience(Position(u.r, moves), m, outcome, None))
            else if moves != [] then
              Learn(Expected(u, moves), u.alpha, u.gamma,
                    Experience(Position(u.r, moves[..|moves| - 1]), moves[|moves| - 1], outcome, None))
            else Expected(u, moves)
  {
    hide Position, Current, Learn, LearnAll, GameLog;
    LearnedAtEnd(u.r, u.t, u.alpha, u.gamma, moves, u.first, m, outcome);
    CurrentUntrained(u.r, u.t, u.alpha, u.gamma, moves, u.first);
  }

  /** The game goes on, and the table is what learning has left. */
  ghost predicate Going(u: Setup, q: Table, moves: seq<nat>) {
    Progress(u, moves) && InStep(u.r.cells, q, Expected(u, moves)) && !IsTerminal(u.r, Position(u.r, moves)).0
  }

  /** It has ended so. */
  ghost predicate Over(u: Setup, q: Table, moves: seq<nat>, outcome: int) {
    && ValidRules(u.r) && IsGame(u.r, Game(moves, u.first, outcome))
    && Same(q, Taught(u, moves, outcome))
    && (u.greedy ==> Greedy(u.r, u.t, u.alpha, u.gamma, u.train, moves, u.first))
    && (u.minimax ==> AgainstMinimax(u.r, moves, u.first))
  }

  lemma GameOver(u: Setup, q: Table, moves: seq<nat>, outcome: int)
    requires Progress(u, moves) && ValidRules(u.r) && moves != [] && IsTerminal(u.r, Position(u.r, moves)).0
    requires moves[|moves| - 1] < u.r.cells && outcome == Outcome(u.r, moves, u.first)
    requires InStep(u.r.cells, q, Taught(u, moves, outcome))
    ensures Over(u, q, moves, outcome)
  {
    hide Position, IsTerminal, Moves, Greedy, AgainstMinimax, Taught, Outcome;
  }

  lemma GoingFacts(u: Setup, q: Table, moves: seq<nat>)
    requires Going(u, q, moves)
    ensures ValidRules(u.r) && Progress(u, moves) && InStep(u.r.cells, q, Expected(u, moves))
    ensures !IsTerminal(u.r, Position(u.r, moves)).0 && LegalMoves(Position(u.r, moves)) != []
  {
    GoesOn(u.r, Position(u.r, moves));
  }

  lemma StillGoing(u: Setup, q: Table, moves: seq<nat>)
    requires ValidRules(u.r) && Progress(u, moves) && InStep(u.r.cells, q, Expected(u, moves))
    requires !IsTerminal(u.r, Position(u.r, moves)).0
    ensures Going(u, q, moves)
  {
  }

  /** The agent's circumstances are those of the setup. */
  ghost predicate Agrees(agent: QLearningAgent, u: Setup)
    reads agent
  {
    u.r == agent.rules && u.alpha == agent.alpha && u.gamma == agent.gamma && u.greedy == (agent.epsilon <= 0.0)
  }

  /** The trainee's branch of the loop: its move and what follows from it. */
  method TraineeTurn(agent: QLearningAgent, board: Board, train: bool, ghost u: Setup, ghost moves: seq<nat>)
    returns (a: nat, done: bool, reward: int, next: Board)
    requires agent.Valid() && Agrees(agent, u) && u.train == train
    requires Going(u, agent.qTable, moves) && board == Position(u.r, moves) && TraineeMoves(u.first, |moves|)
    modifies agent`qTable
    ensures agent.Valid() && a < |board| && board[a] == EMPTY
    ensures done ==> Over(u, agent.qTable, moves + [a], reward)
    ensures !done ==> Going(u, agent.qTable, moves + [a]) && next == Position(u.r, moves + [a])
    ensures !done ==> Empties(next) < Empties(board)
  {
    hide TableOk, LegalMoves, IsTerminal, Extends, Child, Empties, Flip, ApplyMove, ValidRules;
    hide InStep, Progress, Expected, Position, LearnAll, Learn, Over, Taught, Going;
    GoingFacts(u, agent.qTable, moves);
    ghost var before := agent.qTable;
    var draw: real :| 0.0 <= draw < 1.0;
    var pick: nat := *;
    var action := agent.SelectAction(board, draw, pick);
    a := action.value;
    MoveFacts(u.r, board, a);
    StillInStep(u.r.cells, before, agent.qTable, Expected(u, moves));
    if u.greedy {
      RowIsOk(u.r.cells, agent.qTable, board);
    }
    TraineeMove(u, agent.qTable, moves, a);
    var newBoard := ApplyMove(board, a).value;
    next := Flip(newBoard);
    var (over, gain) := IsTerminal(agent.rules, newBoard);
    done, reward := over, gain;
    if done {
      EndTeaches(u, moves, a, reward);
      if train {
        LearnFrom(agent, board, a, reward, None, Expected(u, moves));
      }
      GameOver(u, agent.qTable, moves + [a], reward);
    } else {
      StillGoing(u, agent.qTable, moves + [a]);
    }
  }

  /** The trainee's last board and move, if it has moved. */
  ghost predicate IsLast(u: Setup, moves: seq<nat>, last: Option<(Board, nat)>) {
    if moves == [] then last.None?
    else
      && last == Some((Position(u.r, moves[..|moves| - 1]), moves[|moves| - 1]))
      && last.value.1 < u.r.cells && last.value.0[last.value.1] == EMPTY
  }

  /** The opponent's branch of the loop. */
  method OpponentTurn(agent: QLearningAgent, solver: Negamax.Solver, opponent: Opponent, board: Board,
                      last: Option<(Board, nat)>, train: bool, ghost u: Setup, ghost moves: seq<nat>)
    returns (a: nat, done: bool, traineeReward: int, next: Board)
    requires agent.Valid() && solver.Valid() && solver.rules == agent.rules && Agrees(agent, u)
    requires u.train == train && u.minimax == opponent.MinimaxPlayer?
    requires Going(u, agent.qTable, moves) && board == Position(u.r, moves) && !TraineeMoves(u.first, |moves|)
    requires IsLast(u, moves, last)
    modifies agent`qTable, solver
    ensures agent.Valid() && solver.Valid() && a < |board| && board[a] == EMPTY
    ensures done ==> Over(u, agent.qTable, moves + [a], traineeReward)
    ensures !done ==> Going(u, agent.qTable, moves + [a]) && next == Position(u.r, moves + [a])
    ensures !done ==> Empties(next) < Empties(board)
  {
    hide TableOk, LegalMoves, IsTerminal, Extends, Child, Empties, Flip, ApplyMove, ValidRules, Negamax.Minimax;
    hide InStep, Progress, Expected, Position, LearnAll, Learn, Over, Taught, Going;
    GoingFacts(u, agent.qTable, moves);
    ghost var before := agent.qTable;
    a := OpponentMove(agent, solver, opponent, board);
    MoveFacts(u.r, board, a);
    StillInStep(u.r.cells, before, agent.qTable, Expected(u, moves));
    ReplyMove(u, moves, a);
    var newBoard := ApplyMove(board, a).value;
    next := Flip(newBoard);
    var (over, rewardForOpp) := IsTerminal(agent.rules, newBoard);
    done, traineeReward := over, -rewardForOpp;
    if done {
      EndTeaches(u, moves, a, traineeReward);
      if train && last.Some? {
        LearnFrom(agent, last.value.0, last.value.1, traineeReward, None, Expected(u, moves));
      }
      GameOver(u, agent.qTable, moves + [a], traineeReward);
    } else {
      ReplyTeaches(u, moves, a);
      if train && last.Some? {
        LearnFrom(agent, last.value.0, last.value.1, 0, Some(next), Expected(u, moves));
      }
      StillGoing(u, agent.qTable, moves + [a]);
    }
  }

  /** _run_episode. What is played is a game, and the outcome is its result in the trainee's view. In training, what the
      agent has learned is the trainee's experience of this game, and otherwise nothing. At rate 0 the trainee plays
      its best moves, and minimax_player plays its own. */
  method RunEpisode(agent: QLearningAgent, solver: Negamax.Solver, opponent: Opponent, train: bool)
    returns (outcome: int, ghost moves: seq<nat>, ghost first: bool)
    requires agent.Valid() && solver.Valid() && solver.rules == agent.rules && Playable(agent.rules)
    modifies agent`qTable, solver
    ensures agent.Valid() && solver.Valid()
    ensures IsGame(agent.rules, Game(moves, first, outcome))
    ensures Same(agent.qTable,
                 if train then LearnAll(old(agent.qTable), agent.alpha, agent.gamma,
                                        GameLog(agent.rules, Game(moves, first, outcome)))
                 else old(agent.qTable))
    ensures agent.epsilon <= 0.0 ==>
              Greedy(agent.rules, old(agent.qTable), agent.alpha, agent.gamma, train, moves, first)
    ensures opponent.MinimaxPlayer? ==> AgainstMinimax(agent.rules, moves, first)
  {
    hide TableOk, IsTerminal, Empties, ValidRules, Going, Position, LearnAll, GameLog, Greedy, AgainstMinimax, Same,
         IsGame;
    var traineeToMove: bool := *;
    var board := InitialBoard(agent.rules);
    var last: Option<(Board, nat)> := None;
    moves, first := [], traineeToMove;
    ghost var u := Setup(agent.rules, agent.qTable, agent.alpha, agent.gamma, train, first, agent.epsilon <= 0.0,
                         opponent.MinimaxPlayer?);
    EpisodeStart(u);
    StartGoing(u);
    while true
      invariant agent.Valid() && solver.Valid() && Agrees(agent, u)
      invariant Going(u, agent.qTable, moves) && board == Position(u.r, moves)
      invariant traineeToMove == TraineeMoves(first, |moves|)
      invariant !traineeToMove ==> IsLast(u, moves, last)
      decreases Empties(board)
    {
      if traineeToMove {
        var a, done, reward, next := TraineeTurn(agent, board, train, u, moves);
        if done {
          return reward, moves + [a], first;
        }
        assert (moves + [a])[..|moves|] == moves;
        last := Some((board, a));
        moves, board, traineeToMove := moves + [a], next, false;
      } else {
        var a, done, traineeReward, next := OpponentTurn(agent, solver, opponent, board, last, train, u, moves);
        if done {
          return traineeReward, moves + [a], first;
        }
        moves, board, traineeToMove := moves + [a], next, true;
      }
    }
  }

  lemma StartGoing(u: Setup)
    requires Playable(u.r) && TableOk(u.r.cells, u.t)
    ensures Going(u, u.t, []) && Position(u.r, []) == InitialBoard(u.r)
  {
    EpisodeStart(u);
  }
}
