/**
 * What the reducer keeps true: the well-formedness of the state is preserved by
 * every action, whole runs of actions included; END_GAME's summary holds each
 * sheet's total; scoring rotates the turn round the roster; and the reducer's
 * own unit tests, restated as lemmas.
 */
module GameInvariants {
  import opened Wrappers
  import opened OrderedDict
  import opened GameContext

  // ---------------------------------------------------------------------------
  // Well-formed states

  /** Game ids strictly increase along the list (creation order). */
  predicate IdsIncreasing(games: seq<Game>) {
    forall i, j :: 0 <= i < j < |games| ==> games[i].id < games[j].id
  }

  /** A game as the reducer creates and keeps it. */
  predicate GameWf(g: Game) {
    && g.id >= 1
    && g.currentPlayerIndex >= 0
    && 1 <= g.currentRound <= MaxRound
    && Valid(g.scores)
    && forall p :: p in g.scores.values ==> Valid(g.scores.values[p])
  }

  /**
   * The state's invariant: roster names are unique, game ids increase (so they are
   * distinct), every game is well formed, and every summary belongs to a listed game.
   */
  predicate Wf(s: GameState) {
    && UniqueNames(s.players)
    && IdsIncreasing(s.games)
    && (forall g :: g in s.games ==> GameWf(g))
    && (forall id :: id in s.gameSummaries ==> HasGame(s.games, id))
  }

  lemma InitialStateWf()
    ensures Wf(InitialState)
  {
  }

  /** In a state with increasing ids, the game found by id is the only one with that id. */
  lemma {:induction false} FindGameUnique(games: seq<Game>, i: int)
    requires IdsIncreasing(games) && 0 <= i < |games|
    ensures FindGame(games, games[i].id) == Some(games[i])
  {
    var r := FindGame(games, games[i].id);
    var k :| 0 <= k < |games| && games[k] == r.value && forall j :: 0 <= j < k ==> games[j].id != games[i].id;
    assert games[k].id == games[i].id;
    assert k == i;
  }

  /** Every game kept after the first has a larger id than the first. */
  lemma LaterIdsExceedFirst(games: seq<Game>, id: int)
    requires IdsIncreasing(games) && |games| > 0
    ensures forall g :: g in DropGames(games[1..], id) ==> games[0].id < g.id
  {
    forall g | g in DropGames(games[1..], id) ensures games[0].id < g.id {
      assert g in games[1..];
      var k :| 0 <= k < |games| - 1 && games[1..][k] == g;
      assert games[k + 1] == g;
    }
  }

  lemma {:induction false} DropGamesKeepsIdsIncreasing(games: seq<Game>, id: int)
    requires IdsIncreasing(games)
    ensures IdsIncreasing(DropGames(games, id))
  {
    if |games| > 0 {
      TailIdsIncreasing(games);
      DropGamesKeepsIdsIncreasing(games[1..], id);
      var rest := DropGames(games[1..], id);
      assert DropGames(games, id) == (if games[0].id == id then [] else [games[0]]) + rest;
      if games[0].id != id {
        LaterIdsExceedFirst(games, id);
        ConsIdsIncreasing(games[0], rest);
      }
    }
  }

  lemma TailIdsIncreasing(games: seq<Game>)
    requires IdsIncreasing(games) && |games| > 0
    ensures IdsIncreasing(games[1..])
  {
    var tail := games[1..];
    forall i, j | 0 <= i < j < |tail| ensures tail[i].id < tail[j].id {
      assert tail[i] == games[i + 1] && tail[j] == games[j + 1];
    }
  }

  lemma ConsIdsIncreasing(g: Game, rest: seq<Game>)
    requires IdsIncreasing(rest) && forall h <- rest :: g.id < h.id
    ensures IdsIncreasing([g] + rest)
  {
    var r := [g] + rest;
    forall i, j | 0 <= i < j < |r| ensures r[i].id < r[j].id {
      if i == 0 {
        assert r[j] == rest[j - 1];
      } else {
        assert r[i] == rest[i - 1] && r[j] == rest[j - 1];
      }
    }
  }

  lemma StartNewGameKeepsWf(s: GameState)
    requires Wf(s)
    ensures Wf(ReduceStartNewGame(s))
  {
    var r := ReduceStartNewGame(s);
    var g := Game(NextGameId(s.games), NewSheets(s.players), 0, 1);
    assert r.games == s.games + [g];
    NewGameWf(s.games, s.players);
    AppendIdsIncreasing(s.games, g);
    forall id | id in r.gameSummaries ensures HasGame(r.games, id) {
      var k :| 0 <= k < |s.games| && s.games[k].id == id;
      assert r.games[k] == s.games[k];
    }
    assert forall h :: h in r.games ==> h in s.games || h == g;
  }

  /** The game START_NEW_GAME appends is well formed. */
  lemma NewGameWf(games: seq<Game>, players: seq<Player>)
    requires UniqueNames(players) && forall g <- games :: g.id >= 1
    ensures GameWf(Game(NextGameId(games), NewSheets(players), 0, 1))
  {
    NewSheetsFollowRoster(players);
    if |games| > 0 {
      var k :| 0 <= k < |games| && games[k].id == NextGameId(games) - 1;
      assert games[k] in games;
    }
  }

  lemma AppendIdsIncreasing(games: seq<Game>, g: Game)
    requires IdsIncreasing(games) && forall h <- games :: h.id < g.id
    ensures IdsIncreasing(games + [g])
  {
    var r := games + [g];
    forall i, j | 0 <= i < j < |r| ensures r[i].id < r[j].id {
      assert r[i] == games[i];
      if j == |games| { assert games[i] in games; } else { assert r[j] == games[j]; }
    }
  }

  lemma ScoreGameKeepsWf(g: Game, playerName: string, category: string, value: int, n: int)
    requires GameWf(g) && n > 0
    ensures GameWf(ScoreGame(g, playerName, category, value, n))
  {
    var h := ScoreGame(g, playerName, category, value, n);
    ScoreGameWrites(g, playerName, category, value, n);
    assert Valid(Get(g.scores, playerName).GetOr(Empty()));
    forall p | p in h.scores.values ensures Valid(h.scores.values[p]) {
      assert Get(h.scores, p) == Some(h.scores.values[p]);
    }
  }

  lemma UpdateScoreKeepsWf(s: GameState, gameId: int, playerName: string, category: string, value: int)
    requires Wf(s) && (|s.players| > 0 || !HasGame(s.games, gameId))
    ensures Wf(ReduceUpdateScore(s, gameId, playerName, category, value))
  {
    var r := ReduceUpdateScore(s, gameId, playerName, category, value);
    forall i | 0 <= i < |s.games| ensures GameWf(r.games[i]) && r.games[i].id == s.games[i].id {
      var g := s.games[i];
      assert g in s.games;
      if g.id == gameId {
        ScoreGameKeepsWf(g, playerName, category, value, |s.players|);
      }
    }
    forall id | id in r.gameSummaries ensures HasGame(r.games, id) {
      var k :| 0 <= k < |s.games| && s.games[k].id == id;
      assert r.games[k].id == id;
    }
    forall h | h in r.games ensures GameWf(h) {
      var k :| 0 <= k < |r.games| && r.games[k] == h;
    }
  }

  lemma NextTurnKeepsWf(s: GameState, gameId: int)
    requires Wf(s) && (|s.players| > 0 || !HasGame(s.games, gameId))
    ensures Wf(ReduceNextTurn(s, gameId))
  {
    var r := ReduceNextTurn(s, gameId);
    forall i | 0 <= i < |s.games| ensures GameWf(r.games[i]) && r.games[i].id == s.games[i].id {
      assert s.games[i] in s.games;
    }
    forall id | id in r.gameSummaries ensures HasGame(r.games, id) {
      var k :| 0 <= k < |s.games| && s.games[k].id == id;
      assert r.games[k].id == id;
    }
    forall h | h in r.games ensures GameWf(h) {
      var k :| 0 <= k < |r.games| && r.games[k] == h;
    }
  }

  lemma NextRoundKeepsWf(s: GameState, gameId: int)
    requires Wf(s)
    ensures Wf(ReduceNextRound(s, gameId))
  {
    var r := ReduceNextRound(s, gameId);
    forall i | 0 <= i < |s.games| ensures GameWf(r.games[i]) && r.games[i].id == s.games[i].id {
      assert s.games[i] in s.games;
    }
    forall id | id in r.gameSummaries ensures HasGame(r.games, id) {
      var k :| 0 <= k < |s.games| && s.games[k].id == id;
      assert r.games[k].id == id;
    }
    forall h | h in r.games ensures GameWf(h) {
      var k :| 0 <= k < |r.games| && r.games[k] == h;
    }
  }

  lemma DeleteGameKeepsWf(s: GameState, gameId: int)
    requires Wf(s)
    ensures Wf(ReduceDeleteGame(s, gameId))
  {
    var r := ReduceDeleteGame(s, gameId);
    DropGamesKeepsIdsIncreasing(s.games, gameId);
    forall id | id in r.gameSummaries ensures HasGame(r.games, id) {
      var k :| 0 <= k < |s.games| && s.games[k].id == id;
      assert s.games[k] in r.games;
      var j :| 0 <= j < |r.games| && r.games[j] == s.games[k];
    }
  }

  /** Every action keeps a well-formed state well formed. */
  lemma ReducePreservesWf(s: GameState, a: Action)
    requires Wf(s) && Defined(s, a)
    ensures Wf(Reduce(s, a))
  {
    match a
    case StartNewGame => StartNewGameKeepsWf(s);
    case UpdateScore(gameId, playerName, category, value) =>
      UpdateScoreKeepsWf(s, gameId, playerName, category, value);
    case NextTurn(gameId) => NextTurnKeepsWf(s, gameId);
    case NextRound(gameId) => NextRoundKeepsWf(s, gameId);
    case DeleteGame(gameId) => DeleteGameKeepsWf(s, gameId);
    case EndGame(gameId) =>
    case _ =>
  }

  // ---------------------------------------------------------------------------
  // Runs of actions, as the provider dispatches them one after another

  /** Every step of the run is defined in the state it is applied to. */
  predicate RunDefined(s: GameState, actions: seq<Action>)
    decreases |actions|
  {
    |actions| == 0 || (Defined(s, actions[0]) && RunDefined(Reduce(s, actions[0]), actions[1..]))
  }

  /** The state after dispatching `actions` in order. */
  function Run(s: GameState, actions: seq<Action>): GameState
    requires RunDefined(s, actions)
    decreases |actions|
  {
    if |actions| == 0 then s else Run(Reduce(s, actions[0]), actions[1..])
  }

  /** Any run of actions from a well-formed state ends in a well-formed state. */
  lemma {:induction false} RunPreservesWf(s: GameState, actions: seq<Action>)
    requires Wf(s) && RunDefined(s, actions)
    ensures Wf(Run(s, actions))
    decreases |actions|
  {
    if |actions| > 0 {
      ReducePreservesWf(s, actions[0]);
      RunPreservesWf(Reduce(s, actions[0]), actions[1..]);
    }
  }

  /** However often players are added, and whatever else happens, no name is listed twice. */
  lemma RunKeepsNamesUnique(actions: seq<Action>)
    requires RunDefined(InitialState, actions)
    ensures UniqueNames(Run(InitialState, actions).players)
  {
    InitialStateWf();
    RunPreservesWf(InitialState, actions);
  }

  /** An UPDATE_SCORE action is dispatched to its own case of the reducer. */
  lemma UpdateScoreDispatch(s: GameState, a: Action)
    requires a.UpdateScore? && |s.players| > 0
    ensures Defined(s, a)
    ensures Reduce(s, a) == ReduceUpdateScore(s, a.gameId, a.playerName, a.category, a.value)
  {
  }

  /** One UPDATE_SCORE on a listed game applies `ScoreGame` to it and keeps the roster and the list's length. */
  lemma ScoreStep(s: GameState, i: int, gameId: int, playerName: string, category: string, value: int)
    requires 0 <= i < |s.games| && |s.players| > 0 && gameId == s.games[i].id
    ensures var t := ReduceUpdateScore(s, gameId, playerName, category, value);
      && |t.games| == |s.games| && t.players == s.players
      && t.games[i] == ScoreGame(s.games[i], playerName, category, value, |s.players|)
  {
  }

  /** All of `scores` are UPDATE_SCORE actions for the game with id `gameId`. */
  predicate ScoresFor(scores: seq<Action>, gameId: int) {
    forall a <- scores :: a.UpdateScore? && a.gameId == gameId
  }

  /** The state after a run of UPDATE_SCORE actions, each handled by its own case of the reducer. */
  function ScoreRun(s: GameState, scores: seq<Action>): (r: GameState)
    requires |s.players| > 0 && forall a <- scores :: a.UpdateScore?
    ensures r.players == s.players
    decreases |scores|
  {
    if |scores| == 0 then s
    else
      var a := scores[0];
      ScoreRun(ReduceUpdateScore(s, a.gameId, a.playerName, a.category, a.value), scores[1..])
  }

  /** Dispatching a run of UPDATE_SCORE actions through the reducer is the same as `ScoreRun`. */
  lemma {:induction false} ScoreRunIsRun(s: GameState, scores: seq<Action>)
    requires |s.players| > 0 && forall a <- scores :: a.UpdateScore?
    ensures RunDefined(s, scores) && Run(s, scores) == ScoreRun(s, scores)
    decreases |scores|
  {
    if |scores| > 0 {
      UpdateScoreDispatch(s, scores[0]);
      ScoreRunIsRun(Reduce(s, scores[0]), scores[1..]);
    }
  }

  /** The same run of scores seen from one game with `n` players on the roster. */
  function GameScores(g: Game, scores: seq<Action>, n: int): (r: Game)
    requires n > 0 && forall a <- scores :: a.UpdateScore?
    ensures r.id == g.id
    decreases |scores|
  {
    if |scores| == 0 then g
    else
      var a := scores[0];
      GameScores(ScoreGame(g, a.playerName, a.category, a.value, n), scores[1..], n)
  }

  /** A run of scores for one game changes that game as `GameScores` says. */
  lemma {:induction false} ScoreRunOnGame(s: GameState, i: int, scores: seq<Action>)
    requires 0 <= i < |s.games| && |s.players| > 0 && ScoresFor(scores, s.games[i].id)
    ensures |ScoreRun(s, scores).games| == |s.games|
    ensures ScoreRun(s, scores).games[i] == GameScores(s.games[i], scores, |s.players|)
    decreases |scores|
  {
    if |scores| > 0 {
      var a := scores[0];
      ScoreStep(s, i, a.gameId, a.playerName, a.category, a.value);
      ScoreRunOnGame(ReduceUpdateScore(s, a.gameId, a.playerName, a.category, a.value), i, scores[1..]);
    }
  }

  /** Where the turn is after `m` single rotations from `x` round a roster of `n`. */
  function TurnAfter(x: int, m: nat, n: int): int
    requires n > 0
    decreases m
  {
    if m == 0 then x else TurnAfter(JsRem(x + 1, n), m - 1, n)
  }

  /** Each score in a run rotates the game's turn once. */
  lemma {:induction false} GameScoresTurn(g: Game, scores: seq<Action>, n: int)
    requires n > 0 && forall a <- scores :: a.UpdateScore?
    ensures GameScores(g, scores, n).currentPlayerIndex == TurnAfter(g.currentPlayerIndex, |scores|, n)
    decreases |scores|
  {
    if |scores| > 0 {
      var a := scores[0];
      GameScoresTurn(ScoreGame(g, a.playerName, a.category, a.value, n), scores[1..], n);
    }
  }

  /**
   * `m` rotations round a roster of `n` move the turn `m` places: from position `x`
   * the turn reaches `(x + m) % n`, in JavaScript's remainder.
   */
  lemma {:induction false} TurnAfterRem(x: int, m: nat, n: int)
    requires 0 <= x < n
    ensures TurnAfter(x, m, n) == JsRem(x + m, n)
    decreases m
  {
    if m > 0 {
      TurnAfterRem(JsRem(x + 1, n), m - 1, n);
      TurnStepRem(x, m - 1, n);
    } else {
      assert JsRem(x, n) == x;
    }
  }

  /** One rotation from `x`, then `m` more, is `m + 1` places round a roster of `n`. */
  lemma TurnStepRem(x: int, m: nat, n: int)
    requires 0 <= x < n
    ensures JsRem(JsRem(x + 1, n) + m, n) == JsRem(x + 1 + m, n)
  {
    if x + 1 == n {
      assert JsRem(x + 1, n) == JsRem(0, n) == 0;
      assert JsRem(n + m, n) == JsRem(m, n);
    }
  }

  /** From a fresh game (turn at 0), after `m` scores the turn is at position `m mod n`. */
  lemma ScoresFromStartRotateTurn(s: GameState, i: int, scores: seq<Action>)
    requires 0 <= i < |s.games| && |s.players| > 0 && s.games[i].currentPlayerIndex == 0
    requires ScoresFor(scores, s.games[i].id)
    ensures RunDefined(s, scores) && |Run(s, scores).games| == |s.games|
    ensures Run(s, scores).games[i].currentPlayerIndex == |scores| % |s.players|
  {
    ScoreRunIsRun(s, scores);
    ScoreRunOnGame(s, i, scores);
    GameScoresTurn(s.games[i], scores, |s.players|);
    TurnAfterRem(0, |scores|, |s.players|);
    JsRemVersusMod(|scores|, |s.players|);
  }

  // ---------------------------------------------------------------------------
  // Properties of single actions

  /** Adding a name twice is the same as adding it once. */
  lemma AddPlayerIdempotent(s: GameState, name: string)
    ensures ReduceAddPlayer(ReduceAddPlayer(s, name), name) == ReduceAddPlayer(s, name)
  {
  }

  /** REMOVE_PLAYER keeps the order of the remaining players: the filter distributes over `+`. */
  lemma {:induction false} WithoutDistributes(a: seq<Player>, b: seq<Player>, name: string)
    ensures Without(a + b, name) == Without(a, name) + Without(b, name)
  {
    if |a| > 0 {
      var head := if a[0].name == name then [] else [a[0]];
      assert (a + b)[1..] == a[1..] + b;
      assert Without(a + b, name) == head + Without(a[1..] + b, name);
      WithoutDistributes(a[1..], b, name);
      assert head + (Without(a[1..], name) + Without(b, name)) == (head + Without(a[1..], name)) + Without(b, name);
    } else {
      assert a + b == b;
    }
  }

  /** DELETE_GAME keeps the order of the remaining games: the filter distributes over `+`. */
  lemma {:induction false} DropGamesDistributes(a: seq<Game>, b: seq<Game>, id: int)
    ensures DropGames(a + b, id) == DropGames(a, id) + DropGames(b, id)
  {
    if |a| > 0 {
      var head := if a[0].id == id then [] else [a[0]];
      assert (a + b)[1..] == a[1..] + b;
      assert DropGames(a + b, id) == head + DropGames(a[1..] + b, id);
      DropGamesDistributes(a[1..], b, id);
      assert head + (DropGames(a[1..], id) + DropGames(b, id)) == (head + DropGames(a[1..], id)) + DropGames(b, id);
    } else {
      assert a + b == b;
    }
  }

  /**
   * When the last game is not the one deleted, it is still last afterwards, so an
   * active deleted game hands the active id to it.
   */
  lemma DeleteKeepsLastGame(s: GameState, gameId: int)
    requires |s.games| > 0 && s.games[|s.games| - 1].id != gameId
    ensures var r := ReduceDeleteGame(s, gameId);
            && |r.games| > 0 && r.games[|r.games| - 1] == s.games[|s.games| - 1]
            && (s.currentGameId == Some(gameId) ==> r.currentGameId == Some(s.games[|s.games| - 1].id))
  {
    var n := |s.games| - 1;
    var last := s.games[n];
    assert s.games == s.games[..n] + [last];
    DropGamesDistributes(s.games[..n], [last], gameId);
    assert [last][1..] == [];
    assert DropGames([last], gameId) == [last];
  }

  /** Removing a name nobody has changes nothing. */
  lemma {:induction false} WithoutAbsent(players: seq<Player>, name: string)
    requires !HasPlayer(players, name)
    ensures Without(players, name) == players
  {
    if |players| > 0 {
      AbsentFromTail(players, name);
      WithoutAbsent(players[1..], name);
      assert players == [players[0]] + players[1..];
    }
  }

  lemma AbsentFromTail(players: seq<Player>, name: string)
    requires !HasPlayer(players, name) && |players| > 0
    ensures players[0].name != name && !HasPlayer(players[1..], name)
  {
    forall i | 0 <= i < |players| - 1 ensures players[1..][i].name != name {
      assert players[1..][i] == players[i + 1];
    }
  }

  /**
   * A new game has one empty sheet per roster name, listed in roster order, and no
   * other sheet.
   */
  lemma {:induction false} NewSheetsFollowRoster(players: seq<Player>)
    requires UniqueNames(players)
    ensures var r := NewSheets(players);
      && Valid(r) && r.keys == Names(players)
      && forall p :: p in r.values ==> r.values[p] == Empty()
  {
    if |players| > 0 {
      var n := |players| - 1;
      var init, name := players[..n], players[n].name;
      LastNameIsNew(players);
      NewSheetsFollowRoster(init);
      var r0 := NewSheets(init);
      assert name !in r0.values by {
        NamesListPlayers(init, name);
      }
      SetKeepsValid(r0, name, Empty());
      NamesSnoc(players);
    }
  }

  lemma NamesListPlayers(players: seq<Player>, name: string)
    requires !HasPlayer(players, name)
    ensures name !in Names(players)
  {
  }

  /** Dropping the last entry of a roster with unique names leaves one whose names are unique and exclude the last. */
  lemma LastNameIsNew(players: seq<Player>)
    requires UniqueNames(players) && |players| > 0
    ensures UniqueNames(players[..|players| - 1])
    ensures !HasPlayer(players[..|players| - 1], players[|players| - 1].name)
  {
    var n := |players| - 1;
    var init := players[..n];
    forall i, j | 0 <= i < j < n ensures init[i].name != init[j].name {
      assert init[i] == players[i] && init[j] == players[j];
    }
    forall i | 0 <= i < n ensures init[i].name != players[n].name {
      assert init[i] == players[i];
    }
  }

  lemma NamesSnoc(players: seq<Player>)
    requires |players| > 0
    ensures Names(players) == Names(players[..|players| - 1]) + [players[|players| - 1].name]
  {
  }

  /**
   * END_GAME's summary maps each sheet owner to that sheet's total, lists the
   * owners in sheet order, and has no other entry.
   */
  lemma SummaryHoldsTotals(scores: Dict<Score>)
    requires Valid(scores)
    ensures Valid(SummaryOf(scores)) && SummaryOf(scores).keys == scores.keys
    ensures forall p :: p in scores.values ==> Get(SummaryOf(scores), p) == Some(TotalScore(scores.values[p]))
  {
    SummaryOverHoldsTotals(scores, scores.keys);
  }

  /** The fold over distinct names assigns each of them its own sheet's total. */
  lemma {:induction false} SummaryOverHoldsTotals(scores: Dict<Score>, names: seq<string>)
    requires Distinct(names)
    ensures Valid(SummaryOver(scores, names)) && SummaryOver(scores, names).keys == names
    ensures forall p <- names :: Get(SummaryOver(scores, names), p) == Some(TotalScore(Get(scores, p).GetOr(Empty())))
  {
    if |names| > 0 {
      var n := |names| - 1;
      var init, last := names[..n], names[n];
      DistinctInit(names);
      SummaryOverHoldsTotals(scores, init);
      var r0 := SummaryOver(scores, init);
      assert last !in r0.values by {
        assert last !in r0.keys;
      }
      SetKeepsValid(r0, last, TotalScore(Get(scores, last).GetOr(Empty())));
      forall p <- names
        ensures Get(SummaryOver(scores, names), p) == Some(TotalScore(Get(scores, p).GetOr(Empty())))
      {
        if p != last { assert p in init; }
      }
    }
  }

  /** The keys before the last of a distinct list are distinct and exclude the last. */
  lemma DistinctInit(names: seq<string>)
    requires Distinct(names) && |names| > 0
    ensures Distinct(names[..|names| - 1])
    ensures names[|names| - 1] !in names[..|names| - 1]
    ensures names == names[..|names| - 1] + [names[|names| - 1]]
  {
    var n := |names| - 1;
    forall i, j | 0 <= i < j < n ensures names[..n][i] != names[..n][j] {
      assert names[..n][i] == names[i] && names[..n][j] == names[j];
    }
  }

  /**
   * Writing `value` into a category changes the sheet's END_GAME total by the
   * difference between the new and the old value of that cell.
   */
  lemma TotalAfterWrite(sheet: Score, category: string, value: int)
    requires Valid(sheet)
    ensures TotalScore(Set(sheet, category, Some(value))) == TotalScore(sheet) - Cell(sheet, category) + value
  {
    var r := Set(sheet, category, Some(value));
    SumAfterWrite(sheet, r, sheet.keys, category);
    if category !in sheet.keys {
      SumSnoc(r, sheet.keys, category);
    }
  }

  /** Two sheets that differ in one category only differ in a sum by that cell. */
  lemma {:induction false} SumAfterWrite(a: Score, b: Score, categories: seq<string>, category: string)
    requires Distinct(categories)
    requires forall c :: c != category ==> Cell(a, c) == Cell(b, c)
    ensures SumCells(b, categories) ==
            SumCells(a, categories) + if category in categories then Cell(b, category) - Cell(a, category) else 0
  {
    if |categories| > 0 {
      var rest := categories[1..];
      assert Distinct(rest);
      assert categories[0] !in rest;
      SumAfterWrite(a, b, rest, category);
    }
  }

  /** Summing one more category at the end adds its cell. */
  lemma {:induction false} SumSnoc(sheet: Score, categories: seq<string>, category: string)
    ensures SumCells(sheet, categories + [category]) == SumCells(sheet, categories) + Cell(sheet, category)
  {
    if |categories| > 0 {
      assert (categories + [category])[1..] == categories[1..] + [category];
      SumSnoc(sheet, categories[1..], category);
    }
  }

  /** A second END_GAME on the same game changes nothing at all. */
  lemma EndGameIdempotent(s: GameState, gameId: int)
    ensures ReduceEndGame(ReduceEndGame(s, gameId), gameId) == ReduceEndGame(s, gameId)
  {
  }

  /**
   * START_NEW_GAME's id is fresh among the games still listed, but not among all ids
   * ever handed out: once the game with the largest id is deleted, the next game
   * gets an id no larger than the deleted one.
   */
  lemma IdNotFreshAfterDelete(s: GameState)
    requires IdsIncreasing(s.games) && |s.games| > 0 && forall g <- s.games :: g.id >= 1
    ensures var d := s.games[|s.games| - 1].id;
            ReduceStartNewGame(ReduceDeleteGame(s, d)).currentGameId.value <= d
  {
    var n := |s.games| - 1;
    var d := s.games[n].id;
    var r := DropGames(s.games, d);
    forall g | g in r ensures g.id < d {
      var k :| 0 <= k < |s.games| && s.games[k] == g;
      assert k != n;
    }
    if |r| == 0 {
      assert s.games[n] in s.games;
    } else {
      var k :| 0 <= k < |r| && r[k].id == NextGameId(r) - 1;
      assert r[k] in r;
    }
  }

  /**
   * One instance: of two fresh games, deleting the second (id 2) and starting a new
   * game hands out id 2 again.
   */
  lemma IdReusedAfterDelete()
    ensures var s := ReduceStartNewGame(ReduceStartNewGame(InitialState));
            var t := ReduceStartNewGame(ReduceDeleteGame(s, 2));
            s.games[1].id == 2 && t.currentGameId == Some(2)
  {
    var s := ReduceStartNewGame(ReduceStartNewGame(InitialState));
    assert s.games[0].id == 1 && s.games[1].id == 2;
    var d := ReduceDeleteGame(s, 2);
    assert d.games == [s.games[0]];
  }

  // ---------------------------------------------------------------------------
  // The reducer's unit tests (src/__tests__/GameContext.test.tsx), restated

  const Alice: string := "Alice"
  const Bob: string := "Bob"

  lemma AddPlayerScenario()
    ensures Reduce(InitialState, AddPlayer(Alice)).players == [Player(Alice)]
    ensures Reduce(GameState([Player(Alice)], [], None, map[]), AddPlayer(Alice)).players == [Player(Alice)]
  {
    assert [Player(Alice)][0].name == Alice;
  }

  lemma RemovePlayerScenario()
    ensures Reduce(GameState([Player(Alice), Player(Bob)], [], None, map[]), RemovePlayer(Alice)).players == [Player(Bob)]
  {
  }

  lemma StartNewGameScenario()
    ensures var r := Reduce(GameState([Player(Alice), Player(Bob)], [], None, map[]), StartNewGame);
            && |r.games| == 1 && r.currentGameId == Some(1)
            && r.games[0].currentPlayerIndex == 0
            && r.games[0].scores.keys == [Alice, Bob]
  {
    var s := GameState([Player(Alice), Player(Bob)], [], None, map[]);
    assert Reduce(s, StartNewGame) == ReduceStartNewGame(s);
    TwoSheets();
  }

  lemma TwoSheets()
    ensures NewSheets([Player(Alice), Player(Bob)]).keys == [Alice, Bob]
  {
    var players := [Player(Alice), Player(Bob)];
    NewSheetsFollowRoster(players);
    assert Names(players)[0] == Alice && Names(players)[1] == Bob;
  }

  lemma UpdateScoreScenario()
    ensures var sheets := Dict([Alice, Bob], map[Alice := Empty(), Bob := Empty()]);
            var s := GameState([Player(Alice), Player(Bob)], [Game(1, sheets, 0, 1)], Some(1), map[]);
            var r := Reduce(s, UpdateScore(1, Alice, "Ones", 3));
            && Get(Get(r.games[0].scores, Alice).value, "Ones") == Some(Some(3))
            && r.games[0].currentPlayerIndex == 1
  {
    var sheets := Dict([Alice, Bob], map[Alice := Empty(), Bob := Empty()]);
    var s := GameState([Player(Alice), Player(Bob)], [Game(1, sheets, 0, 1)], Some(1), map[]);
    assert Reduce(s, UpdateScore(1, Alice, "Ones", 3)) == ReduceUpdateScore(s, 1, Alice, "Ones", 3);
    ScoreGameWrites(s.games[0], Alice, "Ones", 3, 2);
    assert JsRem(1, 2) == 1;
  }

  /** Two sheets of the END_GAME test: Alice scored 3 and 6, Bob 2 and 4. */
  const AliceSheet: Score := Dict(["Ones", "Twos"], map["Ones" := Some(3), "Twos" := Some(6)])
  const BobSheet: Score := Dict(["Ones", "Twos"], map["Ones" := Some(2), "Twos" := Some(4)])
  const EndedSheets: Dict<Score> := Dict([Alice, Bob], map[Alice := AliceSheet, Bob := BobSheet])

  lemma EndGameScenario()
    ensures var s := GameState([Player(Alice), Player(Bob)], [Game(1, EndedSheets, 0, 1)], Some(1), map[]);
            var r := Reduce(s, EndGame(1));
            && r.gameSummaries[1] == Dict([Alice, Bob], map[Alice := 9, Bob := 6])
            && r.currentGameId == None
  {
    EndedSummary();
  }

  lemma EndedSummary()
    ensures SummaryOf(EndedSheets) == Dict([Alice, Bob], map[Alice := 9, Bob := 6])
  {
    assert ["Ones", "Twos"][1..][1..] == [];
    assert TotalScore(AliceSheet) == 9;
    assert TotalScore(BobSheet) == 6;
    assert [Alice, Bob][..1] == [Alice] && [Alice][..0] == [];
    assert SummaryOver(EndedSheets, [Alice]) == Dict([Alice], map[Alice := 9]);
  }
}
