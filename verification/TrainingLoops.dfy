/** Evaluation and training, the loops over episodes of rl-ttt/rl_ttt/train.py. */
module TrainingLoops {
  import opened Options
  import opened TicTacToe
  import opened QTable
  import opened Episodes
  import opened Training
  import Negamax
  import StrategyStealing
  import ClassicDraw

  // ---------- evaluation ----------

  /** Games that are played and not learned from: the trainee plays its best moves by the table. */
  ghost predicate Evaluation(r: Rules, t: Table, minimax: bool, games: seq<Game>)
    requires ValidRules(r)
  {
    forall k :: 0 <= k < |games| ==> Evaluates(r, t, minimax, games[k])
  }

  ghost predicate Evaluates(r: Rules, t: Table, minimax: bool, g: Game)
    requires ValidRules(r)
  {
    && IsGame(r, g) && GreedyBy(r, t, g.moves, g.first)
    && (minimax ==> AgainstMinimax(r, g.moves, g.first))
  }

  /** How many games have this outcome. */
  function Count(games: seq<Game>, outcome: int): nat {
    if games == [] then 0
    else Count(games[..|games| - 1], outcome) + if games[|games| - 1].outcome == outcome then 1 else 0
  }

  lemma CountNone()
    ensures forall outcome :: Count([], outcome) == 0
  {
  }

  lemma CountSnoc(games: seq<Game>, g: Game)
    ensures forall outcome ::
              Count(games + [g], outcome) == Count(games, outcome) + if g.outcome == outcome then 1 else 0
  {
    assert (games + [g])[..|games|] == games;
  }

  datatype EvalResult = EvalResult(win: real, draw: real, loss: real)

  /** The shares of the games won, drawn and lost. */
  function Shares(games: seq<Game>): EvalResult
    requires games != []
  {
    var n := |games| as real;
    EvalResult(Count(games, 1) as real / n, Count(games, 0) as real / n, Count(games, -1) as real / n)
  }

  lemma {:induction false} CountAll(r: Rules, games: seq<Game>)
    requires ValidRules(r) && forall k :: 0 <= k < |games| ==> IsGame(r, games[k])
    ensures Count(games, 1) + Count(games, 0) + Count(games, -1) == |games|
  {
    if games != [] {
      var g := games[|games| - 1];
      CountAll(r, games[..|games| - 1]);
      GameOutcome(r, g);
    }
  }

  lemma GameOutcome(r: Rules, g: Game)
    requires ValidRules(r) && IsGame(r, g)
    ensures g.outcome == 1 || g.outcome == 0 || g.outcome == -1
  {
    hide Position, IsTerminal;
    assert MovesAt(r, Position(r, g.moves[..|g.moves| - 1]), g.moves[|g.moves| - 1]);
    OutcomeRange(r, g.moves, g.first);
  }

  /** The three shares make up the whole. */
  lemma SharesAddUp(r: Rules, games: seq<Game>)
    requires ValidRules(r) && games != [] && forall k :: 0 <= k < |games| ==> IsGame(r, games[k])
    ensures var s := Shares(games); s.win + s.draw + s.loss == 1.0 && s.win >= 0.0 && s.draw >= 0.0 && s.loss >= 0.0
  {
    hide Count, IsGame;
    CountAll(r, games);
    Fractions(Count(games, 1) as real, Count(games, 0) as real, Count(games, -1) as real, |games| as real);
  }

  lemma Fractions(a: real, b: real, c: real, n: real)
    requires n > 0.0 && a + b + c == n && a >= 0.0 && b >= 0.0 && c >= 0.0
    ensures a / n + b / n + c / n == 1.0 && a / n >= 0.0 && b / n >= 0.0 && c / n >= 0.0
  {
    assert a / n + b / n + c / n == (a + b + c) / n;
  }

  /** Where the empty board is a draw, evaluation against minimax_player finds no win. */
  lemma {:induction false} NoWinAgainstMinimax(r: Rules, t: Table, games: seq<Game>)
    requires ValidRules(r) && Negamax.Value(r, InitialBoard(r)) == 0 && Evaluation(r, t, true, games)
    ensures Count(games, 1) == 0
  {
    hide Negamax.Value, IsGame, GreedyBy, AgainstMinimax;
    if games != [] {
      var g := games[|games| - 1];
      NoWinAgainstMinimax(r, t, games[..|games| - 1]);
      assert Evaluates(r, t, true, g);
      MinimaxConcedesNothing(r, g);
    }
  }

  /** On any board, an evaluation game that minimax_player began is not won. */
  lemma NoWinAsSecond(r: Rules, t: Table, games: seq<Game>, k: nat)
    requires ValidRules(r) && Evaluation(r, t, true, games) && k < |games| && !games[k].first
    ensures games[k].outcome <= 0
  {
    hide IsGame, GreedyBy, AgainstMinimax, Negamax.Value;
    assert Evaluates(r, t, true, games[k]);
    MinimaxConcedesNothing(r, games[k]);
    StrategyStealing.FirstMoverIsSafe(r);
  }

  /** On the 3 by 3 board, whatever the table has learned, evaluation against minimax_player finds no win. */
  lemma ClassicNoWin(t: Table, games: seq<Game>)
    requires ValidRules(CLASSIC) && Evaluation(CLASSIC, t, true, games)
    ensures Count(games, 1) == 0
  {
    hide Negamax.Value, IsGame, GreedyBy, AgainstMinimax, Count;
    ClassicDraw.ClassicIsDraw();
    NoWinAgainstMinimax(CLASSIC, t, games);
  }

  /** The shares times the number of games are the numbers of games. */
  lemma SharesTimes(games: seq<Game>)
    requires games != []
    ensures Shares(games).win * |games| as real == Count(games, 1) as real
    ensures Shares(games).draw * |games| as real == Count(games, 0) as real
    ensures Shares(games).loss * |games| as real == Count(games, -1) as real
    ensures Count(games, 1) == 0 ==> Shares(games).win == 0.0
  {
    hide Count;
    ShareTimes(Count(games, 1), |games|);
    ShareTimes(Count(games, 0), |games|);
    ShareTimes(Count(games, -1), |games|);
  }

  lemma ShareTimes(k: nat, n: nat)
    requires n > 0
    ensures k as real / n as real * n as real == k as real
    ensures k == 0 ==> k as real / n as real == 0.0
  {
  }

  lemma SharesAre(games: seq<Game>, win: nat, draw: nat, loss: nat)
    requires games != [] && win == Count(games, 1) && draw == Count(games, 0) && loss == Count(games, -1)
    ensures var n := |games| as real; Shares(games) == EvalResult(win as real / n, draw as real / n, loss as real / n)
  {
  }

  /** evaluate: it plays the games and gives the shares of their outcomes; the exploration rate and every value of the
      table are as before. */
  method Evaluate(agent: QLearningAgent, solver: Negamax.Solver, opponent: Opponent, nGames: nat)
    returns (result: EvalResult, ghost games: seq<Game>)
    requires agent.Valid() && solver.Valid() && solver.rules == agent.rules && Playable(agent.rules) && nGames > 0
    modifies agent`qTable, agent`epsilon, solver
    ensures agent.Valid() && solver.Valid()
    ensures agent.epsilon == old(agent.epsilon) && Same(agent.qTable, old(agent.qTable))
    ensures |games| == nGames && Evaluation(agent.rules, old(agent.qTable), opponent.MinimaxPlayer?, games)
    ensures result == Shares(games)
    ensures result.win * nGames as real == Count(games, 1) as real
    ensures result.draw * nGames as real == Count(games, 0) as real
    ensures result.loss * nGames as real == Count(games, -1) as real
    ensures opponent.MinimaxPlayer? && Negamax.Value(agent.rules, InitialBoard(agent.rules)) == 0 ==> result.win == 0.0
  {
    hide TableOk, ValidRules, Same, Evaluation, Negamax.Value, Shares, Count, Playable;
    var originalEps := agent.epsilon;
    agent.epsilon := 0.0;
    ghost var before := agent.qTable;
    var win, draw, loss;
    win, draw, loss, games := PlayAll(agent, solver, opponent, nGames);
    agent.epsilon := originalEps;
    var n := nGames as real;
    result := EvalResult(win as real / n, draw as real / n, loss as real / n);
    SharesAre(games, win, draw, loss);
    SharesTimes(games);
    if opponent.MinimaxPlayer? && Negamax.Value(agent.rules, InitialBoard(agent.rules)) == 0 {
      NoWinAgainstMinimax(agent.rules, before, games);
    }
  }

  /** its loop */
  method PlayAll(agent: QLearningAgent, solver: Negamax.Solver, opponent: Opponent, nGames: nat)
    returns (win: nat, draw: nat, loss: nat, ghost games: seq<Game>)
    requires agent.Valid() && solver.Valid() && solver.rules == agent.rules && Playable(agent.rules)
    requires agent.epsilon == 0.0
    modifies agent`qTable, solver
    ensures agent.Valid() && solver.Valid() && Same(agent.qTable, old(agent.qTable))
    ensures |games| == nGames && Evaluation(agent.rules, old(agent.qTable), opponent.MinimaxPlayer?, games)
    ensures win == Count(games, 1) && draw == Count(games, 0) && loss == Count(games, -1)
  {
    hide TableOk, ValidRules, Same, IsGame, Greedy, GreedyBy, AgainstMinimax, LearnAll, Count, Playable;
    win, draw, loss, games := 0, 0, 0, [];
    ghost var before := agent.qTable;
    CountNone();
    SameTrans(before, before, before);
    for i := 0 to nGames
      invariant agent.Valid() && solver.Valid() && Same(agent.qTable, before)
      invariant |games| == i && Evaluation(agent.rules, before, opponent.MinimaxPlayer?, games)
      invariant win == Count(games, 1) && draw == Count(games, 0) && loss == Count(games, -1)
    {
      ghost var t := agent.qTable;
      var r, moves, first := RunEpisode(agent, solver, opponent, false);
      ghost var g := Game(moves, first, r);
      GreedyUntrained(agent.rules, t, before, agent.alpha, agent.gamma, moves, first);
      SameTrans(agent.qTable, t, before);
      GameOutcome(agent.rules, g);
      CountSnoc(games, g);
      games := games + [g];
      if r > 0 {
        win := win + 1;
      } else if r < 0 {
        loss := loss + 1;
      } else {
        draw := draw + 1;
      }
    }
  }

  // ---------- training ----------

  datatype TrainConfig = TrainConfig(episodes: nat, epsStart: real, epsEnd: real, epsDecayEpisodes: int, evalEvery: int,
                                     evalGamesPerOpponent: nat)

  /** epsilon_schedule */
  function EpsilonSchedule(cfg: TrainConfig, episode: nat): real {
    if cfg.epsDecayEpisodes <= 0 || episode >= cfg.epsDecayEpisodes then cfg.epsEnd
    else cfg.epsStart + (cfg.epsEnd - cfg.epsStart) * (episode as real / cfg.epsDecayEpisodes as real)
  }

  /** The schedule begins at epsStart, goes on in equal steps, and ends at epsEnd, where it stays. */
  lemma ScheduleSteps(cfg: TrainConfig, episode: nat)
    ensures cfg.epsDecayEpisodes > 0 ==> EpsilonSchedule(cfg, 0) == cfg.epsStart
    ensures episode >= cfg.epsDecayEpisodes ==> EpsilonSchedule(cfg, episode) == cfg.epsEnd
    ensures episode < cfg.epsDecayEpisodes ==>
              EpsilonSchedule(cfg, episode + 1) - EpsilonSchedule(cfg, episode)
              == (cfg.epsEnd - cfg.epsStart) / cfg.epsDecayEpisodes as real
  {
    if episode < cfg.epsDecayEpisodes {
      FractionStep(cfg.epsEnd - cfg.epsStart, episode as real, cfg.epsDecayEpisodes as real);
    }
  }

  lemma FractionStep(x: real, k: real, n: real)
    requires n > 0.0
    ensures x * ((k + 1.0) / n) - x * (k / n) == x / n
    ensures x * (n / n) == x
  {
    assert (k + 1.0) / n == k / n + 1.0 / n;
    assert x * (k / n + 1.0 / n) == x * (k / n) + x * (1.0 / n);
    assert x * (1.0 / n) == x / n;
  }

  /** The rate in effect when so many episodes have been played. */
  function RateAfter(cfg: TrainConfig, initial: real, episodes: nat): real {
    if episodes == 0 then initial else EpsilonSchedule(cfg, episodes - 1)
  }

  /** One entry of the history. */
  datatype Cycle = Cycle(episode: nat, epsilon: real, qtableSize: nat, vsRandom: EvalResult, vsMinimax: EvalResult)

  /** The games behind it. */
  datatype Matches = Matches(random: seq<Game>, minimax: seq<Game>)

  /** The cycle reports these games, played by this table at this rate. */
  ghost predicate Reports(r: Rules, t: Table, rate: real, nGames: nat, c: Cycle, m: Matches)
    requires ValidRules(r) && nGames > 0
  {
    && c.epsilon == rate
    && |m.random| == |m.minimax| == nGames
    && Evaluation(r, t, false, m.random) && c.vsRandom == Shares(m.random)
    && Evaluation(r, t, true, m.minimax) && c.vsMinimax == Shares(m.minimax)
  }

  lemma EvaluationSame(r: Rules, t: Table, u: Table, minimax: bool, games: seq<Game>)
    requires ValidRules(r) && Evaluation(r, t, minimax, games) && Same(t, u)
    ensures Evaluation(r, u, minimax, games)
  {
    hide IsGame, AgainstMinimax, Position, Best, Same;
    forall k | 0 <= k < |games| ensures Evaluates(r, u, minimax, games[k]) {
      assert Evaluates(r, t, minimax, games[k]);
      forall i | 0 <= i < |games[k].moves| && TraineeMoves(games[k].first, i)
        ensures Best(u, Position(r, games[k].moves[..i]), games[k].moves[i])
      {
        BestSame(t, u, Position(r, games[k].moves[..i]), games[k].moves[i]);
      }
    }
  }

  /** _eval_cycle: against random_player and against minimax_player. */
  method EvalCycle(agent: QLearningAgent, solver: Negamax.Solver, episode: nat, nGames: nat)
    returns (c: Cycle, ghost m: Matches)
    requires agent.Valid() && solver.Valid() && solver.rules == agent.rules && Playable(agent.rules) && nGames > 0
    modifies agent`qTable, agent`epsilon, solver
    ensures agent.Valid() && solver.Valid()
    ensures agent.epsilon == old(agent.epsilon) && Same(agent.qTable, old(agent.qTable))
    ensures c.episode == episode && c.qtableSize == |agent.qTable|
    ensures Reports(agent.rules, old(agent.qTable), agent.epsilon, nGames, c, m)
  {
    hide TableOk, ValidRules, Same, Evaluation, Shares;
    ghost var before := agent.qTable;
    var vsRandom, random := Evaluate(agent, solver, RandomPlayer, nGames);
    ghost var between := agent.qTable;
    var vsMinimax, minimax := Evaluate(agent, solver, MinimaxPlayer, nGames);
    EvaluationSame(agent.rules, between, before, true, minimax);
    SameTrans(agent.qTable, between, before);
    c := Cycle(episode, agent.epsilon, |agent.qTable|, vsRandom, vsMinimax);
    m := Matches(random, minimax);
  }

  /** The circumstances of a training: the rules, the table, the learning rate, the discount and the exploration rate it
      begins with, and the configuration. */
  datatype Plan = Plan(r: Rules, t: Table, alpha: real, gamma: real, epsilon: real, cfg: TrainConfig)

  /** The table after some games. */
  ghost function After(p: Plan, games: seq<Game>): Table {
    LearnGames(p.r, p.t, p.alpha, p.gamma, games)
  }

  /** The episodes of a training: games, each played at the rate scheduled for it, which shows where the rate is 0: then
      the trainee makes its best moves by the table it has at that point. */
  ghost predicate Trained(p: Plan, games: seq<Game>, rates: seq<real>)
    requires ValidRules(p.r)
  {
    && |rates| == |games|
    && forall k :: 0 <= k < |games| ==> TrainedAt(p, games[..k], games[k], rates[k])
  }

  ghost predicate TrainedAt(p: Plan, earlier: seq<Game>, g: Game, rate: real)
    requires ValidRules(p.r)
  {
    && IsGame(p.r, g) && rate == EpsilonSchedule(p.cfg, |earlier|)
    && (rate <= 0.0 ==> Greedy(p.r, After(p, earlier), p.alpha, p.gamma, true, g.moves, g.first))
  }

  /** An episode after which there is an evaluation cycle, apart from the last one. */
  predicate Due(cfg: TrainConfig, episode: nat) {
    0 < episode <= cfg.episodes && cfg.evalEvery != 0 && episode % cfg.evalEvery == 0
  }

  /** The history: cycles in order, each reporting games played by the table after its episode. */
  ghost predicate Recorded(p: Plan, games: seq<Game>, history: seq<Cycle>, matches: seq<Matches>)
    requires ValidRules(p.r) && p.cfg.evalGamesPerOpponent > 0
  {
    && |matches| == |history|
    && (forall i, j :: 0 <= i < j < |history| ==> history[i].episode < history[j].episode)
    && forall i :: 0 <= i < |history| ==> RecordedAt(p, games, history[i], matches[i])
  }

  ghost predicate RecordedAt(p: Plan, games: seq<Game>, c: Cycle, m: Matches)
    requires ValidRules(p.r) && p.cfg.evalGamesPerOpponent > 0
  {
    && c.episode <= |games|
    && Reports(p.r, After(p, games[..c.episode]), RateAfter(p.cfg, p.epsilon, c.episode), p.cfg.evalGamesPerOpponent,
               c, m)
  }

  ghost predicate HasCycle(history: seq<Cycle>, episode: nat) {
    exists i :: 0 <= i < |history| && history[i].episode == episode
  }

  lemma TrainedSnoc(p: Plan, games: seq<Game>, rates: seq<real>, g: Game, rate: real)
    requires ValidRules(p.r) && Trained(p, games, rates) && TrainedAt(p, games, g, rate)
    ensures Trained(p, games + [g], rates + [rate])
  {
    hide TrainedAt;
    var more := games + [g];
    assert more[..|games|] == games;
    forall k | 0 <= k < |more| ensures TrainedAt(p, more[..k], more[k], (rates + [rate])[k]) {
      if k < |games| {
        assert more[..k] == games[..k];
      }
    }
  }

  lemma RecordedLater(p: Plan, games: seq<Game>, g: Game, history: seq<Cycle>, matches: seq<Matches>)
    requires ValidRules(p.r) && p.cfg.evalGamesPerOpponent > 0 && Recorded(p, games, history, matches)
    ensures Recorded(p, games + [g], history, matches)
  {
    hide Reports, After;
    forall i | 0 <= i < |history| ensures RecordedAt(p, games + [g], history[i], matches[i]) {
      assert RecordedAt(p, games, history[i], matches[i]);
      assert (games + [g])[..history[i].episode] == games[..history[i].episode];
    }
  }

  lemma RecordedSnoc(p: Plan, games: seq<Game>, history: seq<Cycle>, matches: seq<Matches>, c: Cycle, m: Matches)
    requires ValidRules(p.r) && p.cfg.evalGamesPerOpponent > 0 && Recorded(p, games, history, matches)
    requires RecordedAt(p, games, c, m) && forall i :: 0 <= i < |history| ==> history[i].episode < c.episode
    ensures Recorded(p, games, history + [c], matches + [m])
    ensures forall x: nat :: HasCycle(history + [c], x) <==> HasCycle(history, x) || x == c.episode
  {
    hide RecordedAt;
    forall x: nat | HasCycle(history, x) || x == c.episode ensures HasCycle(history + [c], x) {
      if HasCycle(history, x) {
        var i :| 0 <= i < |history| && history[i].episode == x;
        assert (history + [c])[i].episode == x;
      } else {
        assert (history + [c])[|history|].episode == x;
      }
    }
    forall x: nat | HasCycle(history + [c], x) ensures HasCycle(history, x) || x == c.episode {
      var i :| 0 <= i < |history + [c]| && (history + [c])[i].episode == x;
      assert i < |history| ==> history[i].episode == x;
    }
  }

  lemma ReportsSame(p: Plan, t: Table, u: Table, rate: real, nGames: nat, c: Cycle, m: Matches)
    requires ValidRules(p.r) && nGames > 0 && Reports(p.r, t, rate, nGames, c, m) && Same(t, u)
    ensures Reports(p.r, u, rate, nGames, c, m)
  {
    hide Same, Evaluation;
    EvaluationSame(p.r, t, u, false, m.random);
    EvaluationSame(p.r, t, u, true, m.minimax);
  }

  /** Learning from one more game keeps the table in step with the games played. */
  lemma GameInStep(p: Plan, q: Table, games: seq<Game>, g: Game)
    requires ValidRules(p.r) && 0.0 <= p.alpha <= 1.0 && 0.0 <= p.gamma <= 1.0 && IsGame(p.r, g)
    requires TableOk(p.r.cells, q) && InStep(p.r.cells, q, After(p, games))
    ensures Same(LearnAll(q, p.alpha, p.gamma, GameLog(p.r, g)), After(p, games + [g]))
    ensures TableOk(p.r.cells, After(p, games + [g]))
  {
    hide TableOk, Same, LearnAll, Position, IsTerminal;
    GameOutcome(p.r, g);
    GameIsLearnable(p.r, g.moves, Start(g.first), g.outcome);
    LearnAllSame(p.r.cells, q, After(p, games), p.alpha, p.gamma, GameLog(p.r, g));
    LearnGamesSnoc(p.r, p.t, p.alpha, p.gamma, games, g);
  }

  /** The agent is at this point of the training. */
  ghost predicate At(agent: QLearningAgent, solver: Negamax.Solver, p: Plan, games: seq<Game>)
    reads agent, solver
  {
    && agent.Valid() && solver.Valid() && solver.rules == agent.rules && Playable(agent.rules)
    && p.r == agent.rules && p.alpha == agent.alpha && p.gamma == agent.gamma
    && InStep(p.r.cells, agent.qTable, After(p, games))
    && agent.epsilon == RateAfter(p.cfg, p.epsilon, |games|)
  }

  /** One turn of the loop: the scheduled rate, and an episode. */
  method TrainEpisode(agent: QLearningAgent, solver: Negamax.Solver, opponent: Opponent, cfg: TrainConfig, ep: nat,
                      ghost p: Plan, ghost games: seq<Game>)
    returns (ghost g: Game)
    requires At(agent, solver, p, games) && |games| == ep && p.cfg == cfg
    modifies agent`qTable, agent`epsilon, solver
    ensures ValidRules(p.r) && At(agent, solver, p, games + [g]) && TrainedAt(p, games, g, agent.epsilon)
  {
    hide TableOk, ValidRules, Same, IsGame, Greedy, LearnAll, GameLog, After;
    ghost var before := agent.qTable;
    InStepParts(p.r.cells, before, After(p, games));
    agent.epsilon := EpsilonSchedule(cfg, ep);
    var outcome, moves, first := RunEpisode(agent, solver, opponent, true);
    g := Game(moves, first, outcome);
    GameInStep(p, before, games, g);
    SameTrans(agent.qTable, LearnAll(before, p.alpha, p.gamma, GameLog(p.r, g)), After(p, games + [g]));
    if agent.epsilon <= 0.0 {
      GameMoves(p.r, g);
      GreedySame(p.r, before, After(p, games), p.alpha, p.gamma, moves, first);
    }
  }

  lemma InStepParts(cells: nat, t: Table, expected: Table)
    requires InStep(cells, t, expected)
    ensures Same(t, expected) && TableOk(cells, expected)
  {
  }

  lemma GameMoves(r: Rules, g: Game)
    requires ValidRules(r) && IsGame(r, g)
    ensures Moves(r, g.moves)
  {
  }

  /** An evaluation cycle on the way. */
  method RecordCycle(agent: QLearningAgent, solver: Negamax.Solver, cfg: TrainConfig, episode: nat, ghost p: Plan,
                     ghost games: seq<Game>)
    returns (c: Cycle, ghost m: Matches)
    requires At(agent, solver, p, games) && |games| == episode && p.cfg == cfg && cfg.evalGamesPerOpponent > 0
    modifies agent`qTable, agent`epsilon, solver
    ensures ValidRules(p.r) && At(agent, solver, p, games)
    ensures c.episode == episode && c.qtableSize == |agent.qTable| && RecordedAt(p, games, c, m)
  {
    hide TableOk, ValidRules, Same, After, Reports;
    ghost var before, expected := agent.qTable, After(p, games);
    InStepParts(p.r.cells, before, expected);
    c, m := EvalCycle(agent, solver, episode, cfg.evalGamesPerOpponent);
    SameTrans(agent.qTable, before, expected);
    ReportsSame(p, before, expected, agent.epsilon, cfg.evalGamesPerOpponent, c, m);
    assert games[..episode] == games;
  }

  /** _training_loop. It plays the configured number of episodes, each at its scheduled rate; the table is what these
      games teach, one after the other. The history has a cycle after every multiple of evalEvery and after the last
      episode, and no other, in order, each reporting games played by the table at that point. */
  method TrainingLoop(agent: QLearningAgent, solver: Negamax.Solver, opponent: Opponent, cfg: TrainConfig)
    returns (history: seq<Cycle>, ghost games: seq<Game>, ghost rates: seq<real>, ghost matches: seq<Matches>)
    requires agent.Valid() && solver.Valid() && solver.rules == agent.rules && Playable(agent.rules)
    requires (cfg.episodes > 0 ==> cfg.evalEvery != 0) && cfg.evalGamesPerOpponent > 0
    modifies agent`qTable, agent`epsilon, solver
    ensures agent.Valid() && solver.Valid()
    ensures var p := Plan(agent.rules, old(agent.qTable), agent.alpha, agent.gamma, old(agent.epsilon), cfg);
            && |games| == cfg.episodes && Trained(p, games, rates)
            && Same(agent.qTable, After(p, games))
            && agent.epsilon == RateAfter(cfg, p.epsilon, cfg.episodes)
            && Recorded(p, games, history, matches)
    ensures forall x: nat :: HasCycle(history, x) <==> Due(cfg, x) || x == cfg.episodes
  {
    hide TableOk, ValidRules, Same, After, Trained, TrainedAt, Recorded, RecordedAt, Playable;
    history, games, rates, matches := [], [], [], [];
    ghost var p := Plan(agent.rules, agent.qTable, agent.alpha, agent.gamma, agent.epsilon, cfg);
    TrainingStart(p);
    for ep := 0 to cfg.episodes
      invariant At(agent, solver, p, games) && |games| == ep && ValidRules(p.r)
      invariant Trained(p, games, rates) && Recorded(p, games, history, matches)
      invariant forall x: nat :: HasCycle(history, x) <==> Due(cfg, x) && x <= ep
    {
      ghost var g := TrainEpisode(agent, solver, opponent, cfg, ep, p, games);
      TrainedSnoc(p, games, rates, g, agent.epsilon);
      RecordedLater(p, games, g, history, matches);
      games, rates := games + [g], rates + [agent.epsilon];
      if (ep + 1) % cfg.evalEvery == 0 {
        var c, m := RecordCycle(agent, solver, cfg, ep + 1, p, games);
        EarlierCycles(history, ep + 1);
        RecordedSnoc(p, games, history, matches, c, m);
        history, matches := history + [c], matches + [m];
      }
    }
    LastCycle(p, games, history, matches, cfg.episodes);
    if history == [] || history[|history| - 1].episode != cfg.episodes {
      var c, m := RecordCycle(agent, solver, cfg, cfg.episodes, p, games);
      EarlierCycles(history, cfg.episodes);
      RecordedSnoc(p, games, history, matches, c, m);
      history, matches := history + [c], matches + [m];
    }
    InStepParts(p.r.cells, agent.qTable, After(p, games));
  }

  lemma TrainingStart(p: Plan)
    requires Playable(p.r) && TableOk(p.r.cells, p.t) && p.cfg.evalGamesPerOpponent > 0
    ensures ValidRules(p.r) && InStep(p.r.cells, p.t, After(p, [])) && Trained(p, [], []) && Recorded(p, [], [], [])
  {
    hide TableOk;
    SameTrans(p.t, p.t, p.t);
  }

  lemma EarlierCycles(history: seq<Cycle>, episode: nat)
    requires forall x: nat :: HasCycle(history, x) ==> x < episode
    ensures forall i :: 0 <= i < |history| ==> history[i].episode < episode
  {
    forall i | 0 <= i < |history| ensures history[i].episode < episode {
      assert HasCycle(history, history[i].episode);
    }
  }

  /** If there is a cycle after the last episode, it is the last. */
  lemma LastCycle(p: Plan, games: seq<Game>, history: seq<Cycle>, matches: seq<Matches>, last: nat)
    requires ValidRules(p.r) && p.cfg.evalGamesPerOpponent > 0 && Recorded(p, games, history, matches)
    requires |games| == last
    ensures HasCycle(history, last) <==> history != [] && history[|history| - 1].episode == last
  {
    hide RecordedAt, Reports, After;
    if HasCycle(history, last) {
      var i :| 0 <= i < |history| && history[i].episode == last;
      CycleInRange(p, games, history[|history| - 1], matches[|history| - 1]);
    }
  }

  lemma CycleInRange(p: Plan, games: seq<Game>, c: Cycle, m: Matches)
    requires ValidRules(p.r) && p.cfg.evalGamesPerOpponent > 0 && RecordedAt(p, games, c, m)
    ensures c.episode <= |games|
  {
  }
}
