/**
 * The scorekeeper's game state and its transition function `gameReducer`
 * (src/contexts/GameContext.tsx). Every reducer case is a pure function from the
 * old state (and the action's fields) to a new state; `Reduce` dispatches on the
 * action as the reducer's `switch` does.
 */
module GameContext {
  import opened Wrappers
  import opened OrderedDict

  /** One player's score sheet: category name to a recorded number or `null`. */
  type Score = Dict<Option<int>>

  datatype Player = Player(name: string)

  datatype Game = Game(
    id: int,
    scores: Dict<Score>,
    currentPlayerIndex: int,
    currentRound: int)

  /** The frozen per-player totals of one ended game. */
  type Summary = Dict<int>

  datatype GameState = GameState(
    players: seq<Player>,
    games: seq<Game>,
    currentGameId: Option<int>,
    gameSummaries: map<int, Summary>)

  /**
   * The action union. Its second `UPDATE_SCORE` member has the same shape as the
   * first, and the reducer's second `UPDATE_SCORE` case is never reached, so there is
   * one constructor for both. `Unrecognised` stands for any other `type` tag.
   */
  datatype Action =
    | AddPlayer(name: string)
    | RemovePlayer(name: string)
    | StartNewGame
    | UpdateScore(gameId: int, playerName: string, category: string, value: int)
    | SetCurrentGame(gameId: int)
    | EndGame(gameId: int)
    | DeleteGame(gameId: int)
    | ResetAll
    | NextTurn(gameId: int)
    | NextRound(gameId: int)
    | Unrecognised(tag: string)

  const InitialState: GameState := GameState([], [], None, map[])

  /** `NEXT_ROUND` never moves the round past this. */
  const MaxRound: int := 10

  // ---------------------------------------------------------------------------
  // The roster

  /** `players.some(p => p.name === name)`. */
  predicate HasPlayer(players: seq<Player>, name: string) {
    exists i :: 0 <= i < |players| && players[i].name == name
  }

  /** No two roster entries share a name. */
  predicate UniqueNames(players: seq<Player>) {
    forall i, j :: 0 <= i < j < |players| ==> players[i].name != players[j].name
  }

  /** The names of the roster, in roster order. */
  function Names(players: seq<Player>): (ns: seq<string>)
    ensures |ns| == |players|
    ensures forall i :: 0 <= i < |players| ==> ns[i] == players[i].name
  {
    seq(|players|, i requires 0 <= i < |players| => players[i].name)
  }

  /** `players.filter(p => p.name !== name)`. */
  function Without(players: seq<Player>, name: string): (r: seq<Player>)
    ensures forall p :: p in r <==> p in players && p.name != name
    ensures |r| <= |players|
  {
    if |players| == 0 then []
    else (if players[0].name == name then [] else [players[0]]) + Without(players[1..], name)
  }

  // ---------------------------------------------------------------------------
  // The list of games

  /** Some game in the list carries this id. */
  predicate HasGame(games: seq<Game>, id: int) {
    exists i :: 0 <= i < |games| && games[i].id == id
  }

  /** `games.find(g => g.id === id)`: the first game with this id. */
  function FindGame(games: seq<Game>, id: int): (r: Option<Game>)
    ensures r.Some? <==> HasGame(games, id)
    ensures r.Some? ==> r.value.id == id && r.value in games
    ensures r.Some? ==> exists i :: 0 <= i < |games| && games[i] == r.value &&
                                    forall j :: 0 <= j < i ==> games[j].id != id
  {
    if |games| == 0 then None
    else if games[0].id == id then Some(games[0])
    else
      var r := FindGame(games[1..], id);
      if r.Some? then
        var i :| 0 <= i < |games[1..]| && games[1..][i] == r.value &&
                 forall j :: 0 <= j < i ==> games[1..][j].id != id;
        assert games[i + 1] == r.value;
        r
      else r
  }

  /** `Math.max(...games.map(g => g.id))`. */
  function MaxId(games: seq<Game>): (m: int)
    requires |games| > 0
    ensures forall g :: g in games ==> g.id <= m
    ensures HasGame(games, m)
  {
    if |games| == 1 then games[0].id
    else
      var m := MaxId(games[1..]);
      assert forall g :: g in games[1..] ==> g in games;
      assert HasGame(games[1..], m);
      assert forall g :: g in games ==> g == games[0] || g in games[1..];
      if games[0].id > m then games[0].id else m
  }

  /** The id `START_NEW_GAME` allocates: one more than the largest id, or 1 for no games. */
  function NextGameId(games: seq<Game>): (id: int)
    ensures forall g :: g in games ==> g.id < id
    ensures |games| == 0 ==> id == 1
    ensures |games| > 0 ==> HasGame(games, id - 1)
  {
    if |games| > 0 then MaxId(games) + 1 else 1
  }

  /**
   * `games.map(g => g.id === id ? edit(g) : g)`; the edit is evaluated on matching
   * games only, so it need be defined only when some game matches.
   */
  function MapGames(games: seq<Game>, id: int, e: GameEdit): (r: seq<Game>)
    requires HasGame(games, id) ==> EditDefined(e)
    ensures |r| == |games|
    ensures forall i :: 0 <= i < |games| ==> r[i] == if games[i].id == id then ApplyEdit(games[i], e) else games[i]
    decreases |games|
  {
    if |games| == 0 then []
    else
      assert HasGame(games[1..], id) ==> HasGame(games, id) by {
        if HasGame(games[1..], id) {
          var k :| 0 <= k < |games[1..]| && games[1..][k].id == id;
          assert games[k + 1].id == id;
        }
      }
      var rest := MapGames(games[1..], id, e);
      var r := [if games[0].id == id then ApplyEdit(games[0], e) else games[0]] + rest;
      assert forall i :: 1 <= i < |games| ==> r[i] == rest[i - 1];
      r
  }

  /** `games.filter(g => g.id !== id)`. */
  function DropGames(games: seq<Game>, id: int): (r: seq<Game>)
    ensures forall g :: g in r <==> g in games && g.id != id
    ensures !HasGame(r, id)
    ensures |r| <= |games|
  {
    if |games| == 0 then []
    else
      var rest := DropGames(games[1..], id);
      var r := (if games[0].id == id then [] else [games[0]]) + rest;
      assert forall g :: g in r ==> g.id != id;
      r
  }

  // ---------------------------------------------------------------------------
  // Arithmetic

  /**
   * JavaScript's `a % n` for a positive divisor: `n` is taken away from (or added
   * to) `a` until it lies strictly between `-n` and `n`, so the remainder keeps the
   * sign of the dividend, unlike Dafny's Euclidean `%`.
   */
  function JsRem(a: int, n: int): (r: int)
    requires n > 0
    ensures -n < r < n
    ensures a >= 0 ==> r >= 0
    ensures a <= 0 ==> r <= 0
    decreases if a >= 0 then a else -a
  {
    if -n < a < n then a
    else if a >= n then JsRem(a - n, n)
    else JsRem(a + n, n)
  }

  /**
   * JavaScript's remainder agrees with the Euclidean one on non-negative dividends
   * and differs from it by exactly `n` on negative ones that `n` does not divide.
   */
  lemma {:induction false} JsRemVersusMod(a: int, n: int)
    requires n > 0
    ensures a >= 0 ==> JsRem(a, n) == a % n
    ensures a < 0 ==> JsRem(a, n) == if a % n == 0 then 0 else a % n - n
  {
    var q := JsRemQuotient(a, n);
    var r := JsRem(a, n);
    if a >= 0 || r == 0 {
      ModUnique(a, n, q, r);
    } else {
      assert a == (q - 1) * n + (r + n);
      ModUnique(a, n, q - 1, r + n);
    }
  }

  /** The dividend is a whole multiple of `n` plus the JavaScript remainder. */
  lemma {:induction false} JsRemQuotient(a: int, n: int) returns (q: int)
    requires n > 0
    ensures a == q * n + JsRem(a, n)
    decreases if a >= 0 then a else -a
  {
    if -n < a < n {
      q := 0;
    } else if a >= n {
      var q' := JsRemQuotient(a - n, n);
      q := q' + 1;
      MulShift(q', 1, n);
    } else {
      var q' := JsRemQuotient(a + n, n);
      q := q' - 1;
      MulShift(q', -1, n);
    }
  }

  lemma MulShift(q: int, d: int, n: int)
    ensures (q + d) * n == q * n + d * n
  {
  }

  lemma {:induction false} MulAtLeast(k: int, n: int)
    requires k >= 1 && n > 0
    ensures k * n >= n
  {
    assert k * n == (k - 1) * n + n;
    if k > 1 { MulAtLeast(k - 1, n); }
  }

  /** Euclidean remainders are unique. */
  lemma ModUnique(x: int, n: int, q: int, m: int)
    requires n > 0 && 0 <= m < n && x == q * n + m
    ensures x % n == m
  {
    var q2, m2 := x / n, x % n;
    assert x == q2 * n + m2;
    assert (q - q2) * n == m2 - m;
    if q > q2 { MulAtLeast(q - q2, n); }
    else if q < q2 {
      assert (q2 - q) * n == m - m2;
      MulAtLeast(q2 - q, n);
    }
  }

  /** What a sheet entry adds to a total: its number, or 0 for `null` or no entry. */
  function Cell(sheet: Score, category: string): int {
    var entry := Get(sheet, category);
    if entry.Some? then entry.value.GetOr(0) else 0
  }

  /** The sum of the entries of `sheet` under `categories`, left to right. */
  function SumCells(sheet: Score, categories: seq<string>): (t: int)
    ensures (forall c :: Cell(sheet, c) >= 0) ==> t >= 0
  {
    if |categories| == 0 then 0 else Cell(sheet, categories[0]) + SumCells(sheet, categories[1..])
  }

  /**
   * `calculateTotalScore`: the sum of every non-null value of a sheet, over the
   * keys `Object.values` enumerates.
   */
  function TotalScore(scores: Score): (t: int)
    ensures (forall c :: Cell(scores, c) >= 0) ==> t >= 0
  {
    SumCells(scores, scores.keys)
  }

  /**
   * `END_GAME`'s fold over `Object.entries(scores)`, which assigns
   * `summary[playerName] = calculateTotalScore(sheet)` entry by entry.
   */
  function SummaryOf(scores: Dict<Score>): Summary {
    SummaryOver(scores, scores.keys)
  }

  /** The same fold over the first names of the enumeration. */
  function SummaryOver(scores: Dict<Score>, names: seq<string>): Summary {
    if |names| == 0 then Empty()
    else
      var n := |names| - 1;
      Set(SummaryOver(scores, names[..n]), names[n], TotalScore(Get(scores, names[n]).GetOr(Empty())))
  }

  /**
   * `Object.fromEntries(players.map(p => [p.name, {}]))`: one empty sheet per
   * roster name, assigned in roster order.
   */
  function NewSheets(players: seq<Player>): Dict<Score> {
    if |players| == 0 then Empty()
    else
      var n := |players| - 1;
      Set(NewSheets(players[..n]), players[n].name, Empty())
  }

  // ---------------------------------------------------------------------------
  // The per-game updates of UPDATE_SCORE, NEXT_TURN and NEXT_ROUND

  /** `UPDATE_SCORE` applied to the matching game, with `n` players on the roster. */
  function ScoreGame(g: Game, playerName: string, category: string, value: int, n: int): (r: Game)
    requires n > 0
    ensures r.id == g.id && r.currentRound == g.currentRound
    ensures r.currentPlayerIndex == JsRem(g.currentPlayerIndex + 1, n)
  {
    var sheet := Set(Get(g.scores, playerName).GetOr(Empty()), category, Some(value));
    g.(scores := Set(g.scores, playerName, sheet),
       currentPlayerIndex := JsRem(g.currentPlayerIndex + 1, n))
  }

  /**
   * What `ScoreGame` writes: the player's sheet (a fresh one if the player had
   * none) now holds `value` under `category` and is otherwise unchanged, every other
   * player's sheet is untouched, a new player's sheet is listed last, and sheets
   * without duplicate keys stay so.
   */
  lemma ScoreGameWrites(g: Game, playerName: string, category: string, value: int, n: int)
    requires n > 0
    ensures var r := ScoreGame(g, playerName, category, value, n);
      && Get(r.scores, playerName).Some?
      && Get(Get(r.scores, playerName).value, category) == Some(Some(value))
      && (forall c :: c != category ==>
            Get(Get(r.scores, playerName).value, c) == Get(Get(g.scores, playerName).GetOr(Empty()), c))
      && (forall p :: p != playerName ==> Get(r.scores, p) == Get(g.scores, p))
      && r.scores.keys == (if playerName in g.scores.values then g.scores.keys else g.scores.keys + [playerName])
      && (Valid(g.scores) ==> Valid(r.scores))
      && (Valid(Get(g.scores, playerName).GetOr(Empty())) ==> Valid(Get(r.scores, playerName).value))
  {
  }

  /** `NEXT_TURN` applied to the matching game, with `n` players on the roster. */
  function TurnGame(g: Game, n: int): (r: Game)
    requires n > 0
    ensures r == g.(currentPlayerIndex := r.currentPlayerIndex)
    ensures r.currentPlayerIndex == JsRem(g.currentPlayerIndex + 1, n)
    ensures g.currentPlayerIndex >= -1 ==> 0 <= r.currentPlayerIndex < n
  {
    g.(currentPlayerIndex := JsRem(g.currentPlayerIndex + 1, n))
  }

  /** `NEXT_ROUND` applied to the matching game: one round on, but never past `MaxRound`. */
  function RoundGame(g: Game): (r: Game)
    ensures r == g.(currentRound := r.currentRound)
    ensures g.currentRound < MaxRound ==> r.currentRound == g.currentRound + 1
    ensures g.currentRound >= MaxRound ==> r.currentRound == MaxRound
  {
    g.(currentRound := if g.currentRound + 1 < MaxRound then g.currentRound + 1 else MaxRound)
  }

  /** One of the per-game updates the reducer maps over the game list. */
  datatype GameEdit =
    | ScoreEdit(playerName: string, category: string, value: int, n: int)
    | TurnEdit(n: int)
    | RoundEdit

  /** `% n` is evaluated by the score and turn edits, so they need a non-empty roster. */
  predicate EditDefined(e: GameEdit) {
    !e.RoundEdit? ==> e.n > 0
  }

  function ApplyEdit(g: Game, e: GameEdit): Game
    requires EditDefined(e)
  {
    match e
    case ScoreEdit(playerName, category, value, n) => ScoreGame(g, playerName, category, value, n)
    case TurnEdit(n) => TurnGame(g, n)
    case RoundEdit => RoundGame(g)
  }

  // ---------------------------------------------------------------------------
  // The reducer, case by case

  function ReduceAddPlayer(s: GameState, name: string): (r: GameState)
    ensures HasPlayer(s.players, name) ==> r == s
    ensures !HasPlayer(s.players, name) ==> r.players == s.players + [Player(name)]
    ensures r == s.(players := r.players)
    ensures HasPlayer(r.players, name)
    ensures forall n :: n != name ==> (HasPlayer(r.players, n) <==> HasPlayer(s.players, n))
    ensures UniqueNames(s.players) ==> UniqueNames(r.players)
  {
    if HasPlayer(s.players, name) then s
    else
      var r := s.(players := s.players + [Player(name)]);
      assert r.players[|s.players|].name == name;
      assert forall n :: HasPlayer(s.players, n) ==> HasPlayer(r.players, n) by {
        forall n | HasPlayer(s.players, n) ensures HasPlayer(r.players, n) {
          var i :| 0 <= i < |s.players| && s.players[i].name == n;
          assert r.players[i] == s.players[i];
        }
      }
      r
  }

  function ReduceRemovePlayer(s: GameState, name: string): (r: GameState)
    ensures r == s.(players := Without(s.players, name))
    ensures !HasPlayer(r.players, name)
    ensures forall p :: p in r.players <==> p in s.players && p.name != name
    ensures UniqueNames(s.players) ==> UniqueNames(r.players)
  {
    var r := s.(players := Without(s.players, name));
    forall i | 0 <= i < |r.players| ensures r.players[i].name != name {
      assert r.players[i] in r.players;
    }
    assert UniqueNames(s.players) ==> UniqueNames(r.players) by {
      if UniqueNames(s.players) { WithoutKeepsNamesUnique(s.players, name); }
    }
    r
  }

  lemma {:induction false} WithoutKeepsNamesUnique(players: seq<Player>, name: string)
    requires UniqueNames(players)
    ensures UniqueNames(Without(players, name))
  {
    if |players| > 0 {
      var rest := Without(players[1..], name);
      UniqueTail(players);
      WithoutKeepsNamesUnique(players[1..], name);
      if players[0].name != name {
        assert Without(players, name) == [players[0]] + rest;
        UniqueCons(players[0], rest);
      } else {
        assert Without(players, name) == rest;
      }
    }
  }

  /** Below the head of a roster with unique names: unique names, none of them the head's. */
  lemma UniqueTail(players: seq<Player>)
    requires UniqueNames(players) && |players| > 0
    ensures UniqueNames(players[1..])
    ensures forall p <- players[1..] :: p.name != players[0].name
  {
    var tail := players[1..];
    forall i, j | 0 <= i < j < |tail| ensures tail[i].name != tail[j].name {
      assert tail[i] == players[i + 1] && tail[j] == players[j + 1];
    }
    forall p <- tail ensures p.name != players[0].name {
      var k :| 0 <= k < |tail| && tail[k] == p;
      assert players[k + 1] == p;
    }
  }

  lemma UniqueCons(p: Player, rest: seq<Player>)
    requires UniqueNames(rest) && forall q <- rest :: q.name != p.name
    ensures UniqueNames([p] + rest)
  {
    var r := [p] + rest;
    forall i, j | 0 <= i < j < |r| ensures r[i].name != r[j].name {
      assert r[j] == rest[j - 1];
      if i > 0 { assert r[i] == rest[i - 1]; }
    }
  }

  function ReduceStartNewGame(s: GameState): (r: GameState)
    ensures r.players == s.players && r.gameSummaries == s.gameSummaries
    ensures r.games == s.games + [Game(NextGameId(s.games), NewSheets(s.players), 0, 1)]
    ensures r.currentGameId == Some(NextGameId(s.games))
    ensures forall g :: g in s.games ==> g.id < r.currentGameId.value
  {
    var id := NextGameId(s.games);
    s.(games := s.games + [Game(id, NewSheets(s.players), 0, 1)], currentGameId := Some(id))
  }

  function ReduceUpdateScore(s: GameState, gameId: int, playerName: string, category: string, value: int): (r: GameState)
    requires |s.players| > 0 || !HasGame(s.games, gameId)
    ensures r == s.(games := r.games)
    ensures |r.games| == |s.games|
    ensures forall i :: 0 <= i < |s.games| && s.games[i].id != gameId ==> r.games[i] == s.games[i]
    ensures forall i :: 0 <= i < |s.games| && s.games[i].id == gameId ==>
              r.games[i] == ScoreGame(s.games[i], playerName, category, value, |s.players|)
    ensures !HasGame(s.games, gameId) ==> r == s
  {
    var n := |s.players|;
    var r := s.(games := MapGames(s.games, gameId, ScoreEdit(playerName, category, value, n)));
    assert !HasGame(s.games, gameId) ==> r.games == s.games;
    r
  }

  function ReduceNextTurn(s: GameState, gameId: int): (r: GameState)
    requires |s.players| > 0 || !HasGame(s.games, gameId)
    ensures r == s.(games := r.games)
    ensures |r.games| == |s.games|
    ensures forall i :: 0 <= i < |s.games| && s.games[i].id != gameId ==> r.games[i] == s.games[i]
    ensures forall i :: 0 <= i < |s.games| && s.games[i].id == gameId ==>
              r.games[i] == TurnGame(s.games[i], |s.players|)
    ensures !HasGame(s.games, gameId) ==> r == s
  {
    var n := |s.players|;
    var r := s.(games := MapGames(s.games, gameId, TurnEdit(n)));
    assert !HasGame(s.games, gameId) ==> r.games == s.games;
    r
  }

  function ReduceNextRound(s: GameState, gameId: int): (r: GameState)
    ensures r == s.(games := r.games)
    ensures |r.games| == |s.games|
    ensures forall i :: 0 <= i < |s.games| && s.games[i].id != gameId ==> r.games[i] == s.games[i]
    ensures forall i :: 0 <= i < |s.games| && s.games[i].id == gameId ==> r.games[i] == RoundGame(s.games[i])
    ensures !HasGame(s.games, gameId) ==> r == s
  {
    var r := s.(games := MapGames(s.games, gameId, RoundEdit));
    assert !HasGame(s.games, gameId) ==> r.games == s.games;
    r
  }

  function ReduceSetCurrentGame(s: GameState, gameId: int): (r: GameState)
    ensures r == s.(currentGameId := Some(gameId))
  {
    s.(currentGameId := Some(gameId))
  }

  function ReduceEndGame(s: GameState, gameId: int): (r: GameState)
    ensures !HasGame(s.games, gameId) ==> r == s
    ensures HasGame(s.games, gameId) ==>
              && r.players == s.players && r.games == s.games
              && r.gameSummaries == s.gameSummaries[gameId := SummaryOf(FindGame(s.games, gameId).value.scores)]
              && r.currentGameId == if |s.games| > 1 then Some(s.games[|s.games| - 1].id) else None
  {
    match FindGame(s.games, gameId)
    case None => s
    case Some(ended) =>
      s.(gameSummaries := s.gameSummaries[gameId := SummaryOf(ended.scores)],
         currentGameId := if |s.games| > 1 then Some(s.games[|s.games| - 1].id) else None)
  }

  function ReduceDeleteGame(s: GameState, gameId: int): (r: GameState)
    ensures r.players == s.players
    ensures r.games == DropGames(s.games, gameId)
    ensures gameId !in r.gameSummaries
    ensures forall id :: id != gameId ==> (id in r.gameSummaries <==> id in s.gameSummaries)
    ensures forall id :: id in r.gameSummaries ==> r.gameSummaries[id] == s.gameSummaries[id]
    ensures s.currentGameId != Some(gameId) ==> r.currentGameId == s.currentGameId
    ensures s.currentGameId == Some(gameId) ==>
              r.currentGameId == if |r.games| > 0 then Some(r.games[|r.games| - 1].id) else None
  {
    var games := DropGames(s.games, gameId);
    var summaries := s.gameSummaries - {gameId};
    var active := if s.currentGameId == Some(gameId)
                  then (if |games| > 0 then Some(games[|games| - 1].id) else None)
                  else s.currentGameId;
    GameState(s.players, games, active, summaries)
  }

  /** The state in which `%` by the roster size is defined wherever the action evaluates it. */
  predicate Defined(s: GameState, a: Action) {
    match a
    case UpdateScore(gameId, _, _, _) => |s.players| > 0 || !HasGame(s.games, gameId)
    case NextTurn(gameId) => |s.players| > 0 || !HasGame(s.games, gameId)
    case _ => true
  }

  /** `gameReducer`. */
  function Reduce(s: GameState, a: Action): (r: GameState)
    requires Defined(s, a)
    ensures a.ResetAll? ==> r == InitialState
    ensures a.Unrecognised? ==> r == s
    ensures !(a.AddPlayer? || a.RemovePlayer? || a.ResetAll?) ==> r.players == s.players
    ensures a.EndGame? ==> r.gameSummaries.Keys <= s.gameSummaries.Keys + {a.gameId}
    ensures !a.EndGame? ==> r.gameSummaries.Keys <= s.gameSummaries.Keys
  {
    match a
    case AddPlayer(name) => ReduceAddPlayer(s, name)
    case RemovePlayer(name) => ReduceRemovePlayer(s, name)
    case StartNewGame => ReduceStartNewGame(s)
    case NextRound(gameId) => ReduceNextRound(s, gameId)
    case UpdateScore(gameId, playerName, category, value) => ReduceUpdateScore(s, gameId, playerName, category, value)
    case SetCurrentGame(gameId) => ReduceSetCurrentGame(s, gameId)
    case EndGame(gameId) => ReduceEndGame(s, gameId)
    case DeleteGame(gameId) => ReduceDeleteGame(s, gameId)
    case ResetAll => InitialState
    case NextTurn(gameId) => ReduceNextTurn(s, gameId)
    case Unrecognised(_) => s
  }
}
