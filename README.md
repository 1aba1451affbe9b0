# Yahtzee scorekeeper: the game reducer and the score sheet, in Dafny

This project models two parts of a browser-based Yahtzee scorekeeper.

The first part is the game state machine `gameReducer` (src/contexts/GameContext.tsx). It takes a
`GameState` and an `Action` and returns a new state. The state holds:

- the player roster;
- the ordered list of games, each with one score sheet per player, a turn index and a round;
- the active game id;
- the frozen per-player totals of ended games.

The second part is the arithmetic of the scorecard (src/components/Scorecard.tsx):

- the fixed catalogue of 6 upper and 7 lower categories;
- the upper total, the 35-point bonus, the lower total and the grand total;
- the "only the current player may score" guard of a score click.

Both parts are pure, so they are modelled as datatypes, functions and lemmas:

- `wrappers.dfy`: `Option`, which stands for JavaScript's `null` and `undefined`.
- `ordered_dict.dfy`: a JavaScript object with string keys. It is the insertion order of its keys
  plus a map. `{ ...d, [k]: v }` is `Set`: an existing key keeps its place and a new key goes last.
  This is the order `Object.keys`, `Object.values` and `Object.entries` enumerate, except for
  integer-like keys. The key `__proto__` is also treated as an ordinary key. Both are under "## Left out".
- `game_context.dfy`: the state, the actions, `calculateTotalScore` and one function per reducer case.
  `Reduce` dispatches on the action. JavaScript's truncating `%` is `JsRem`.
- `game_invariants.dfy`: what the reducer keeps true, over single actions and whole runs. It also
  states the reducer's own unit tests as lemmas.
- `scorecard.dfy`: the catalogue, the section totals, the bonus and the grand total. It compares the
  reducer's END_GAME total with the grand total the scorecard shows. It also models the score click.

The two parts disagree. END_GAME's total sums every non-null entry of a sheet. That includes the
`YAHTZEE BONUS` row and any name outside the catalogue, and it never adds the 35-point upper bonus.
The scorecard's grand total reads only the 13 catalogue categories and adds the bonus.
`Scorecard.SummaryVersusGrandTotal` states the exact relation:

    summary + bonus == grand total + off-catalogue entries

`Scorecard.SummaryAndGrandTotalDiffer` gives a sheet where the scorecard shows 98 and END_GAME freezes 163.

Behaviour of the reducer worth knowing:

- An id can be handed out again. START_NEW_GAME allocates one more than the largest id still listed.
  So once the game with the largest id is deleted, the next game gets an id no larger than the deleted
  one (`GameInvariants.IdNotFreshAfterDelete`). With two fresh games, deleting game 2 and starting
  another hands out 2 again (`GameInvariants.IdReusedAfterDelete`).
- END_GAME keeps the game list. It sets the active id to the id of the last game in the list when
  there are two or more games. That can be the ended game itself. With a single game it sets the
  active id to `null`, although that game is still listed.
- END_GAME is idempotent on the whole state, not just on the summary. Its new active id depends only
  on the game list, which it does not change (`GameInvariants.EndGameIdempotent`).
- The turn index is not kept within the roster. REMOVE_PLAYER does not adjust it, so it can point
  past the end of the roster. The score click then fails (`Scorecard.ScoreClick.NoCurrentPlayer`).
- No score is checked against category rules. There is no cap on Yahtzee-bonus entries. UPDATE_SCORE
  writes any integer under any category name.

## Model

| member | source | states |
|---|---|---|
| OrderedDict.GetAfterSet | src/contexts/GameContext.tsx:104-109 | After `{ ...d, [k]: v }`, `k` reads `v` and every other key reads as before. An existing key keeps its place in the enumeration order; a new key is appended last. |
| OrderedDict.SetKeepsValid | src/contexts/GameContext.tsx:104-109 | Assigning a key keeps an object free of duplicate keys, with the listed keys exactly the ones holding a value. |
| OrderedDict.Set | src/contexts/GameContext.tsx:104-109 | No contract of its own. `OrderedDict.GetAfterSet` states what `{ ...d, [k]: v }` reads back and where the key goes, and `OrderedDict.SetKeepsValid` that it keeps an object duplicate-free. |
| GameContext.FindGame | src/contexts/GameContext.tsx:122 | `games.find` returns a game iff some game has the id. The game returned has that id and no earlier game does. |
| GameContext.MaxId | src/contexts/GameContext.tsx:76 | `Math.max` of the ids is at least every id and is the id of some game. |
| GameContext.NextGameId | src/contexts/GameContext.tsx:76 | The allocated id exceeds every listed id. It is 1 for no games; otherwise some game carries the id one below it. |
| GameContext.Without | src/contexts/GameContext.tsx:73 | The filter keeps exactly the players with another name, and never lengthens the roster. |
| GameContext.WithoutKeepsNamesUnique | src/contexts/GameContext.tsx:73 | Filtering a roster with unique names leaves unique names. |
| GameContext.MapGames | src/contexts/GameContext.tsx:91-95 | The per-game map keeps the length. It applies the edit exactly at the games whose id matches and keeps every other game. |
| GameContext.DropGames | src/contexts/GameContext.tsx:139 | The filter keeps exactly the games with another id, so no game with that id remains. |
| GameContext.JsRem | src/contexts/GameContext.tsx:111 | JavaScript's `%` by a positive roster size lies strictly between `-n` and `n` and has the sign of the dividend. |
| GameContext.JsRemVersusMod | src/contexts/GameContext.tsx:111 | JavaScript's remainder equals the Euclidean one on non-negative dividends. On negative dividends it is 0 or the Euclidean one minus `n`. |
| GameContext.JsRemQuotient | src/contexts/GameContext.tsx:157 | The dividend is a whole multiple of `n` plus its JavaScript remainder. |
| GameContext.Cell | src/components/Scorecard.tsx:56 | No contract of its own. It is what one entry adds to a total: its number, or 0 for `null` or a missing entry, as `… \|\| 0` reads it and as `calculateTotalScore` skips `null`. `GameInvariants.TotalAfterWrite` and `Scorecard.GrandTotalAfterWrite` state how totals move when an entry is written. |
| GameContext.SumCells | src/contexts/GameContext.tsx:51-57 | The left-to-right sum of entries over a list of categories is non-negative when no entry is negative. `GameInvariants.SumAfterWrite` and `Scorecard.SectionTotalIsSum` state the rest of its meaning. |
| GameContext.TotalScore | src/contexts/GameContext.tsx:50-58 | `calculateTotalScore` of a sheet with no negative entry is non-negative. |
| GameContext.NewSheets | src/contexts/GameContext.tsx:79 | No contract of its own. `GameInvariants.NewSheetsFollowRoster` states that it gives exactly one empty sheet per roster name, in roster order. |
| GameContext.SummaryOf | src/contexts/GameContext.tsx:124-130 | No contract of its own. `GameInvariants.SummaryHoldsTotals` states that it maps each sheet owner, in sheet order, to their total and has no other entry. |
| GameContext.SummaryOver | src/contexts/GameContext.tsx:124-130 | No contract of its own. `GameInvariants.SummaryOverHoldsTotals` states the fold over any list of distinct names. |
| GameContext.ScoreGame | src/contexts/GameContext.tsx:101-112 | UPDATE_SCORE on the matching game keeps its id and round and moves the turn to `(index + 1) % players.length`. |
| GameContext.ScoreGameWrites | src/contexts/GameContext.tsx:102-111 | The player's sheet (a fresh `{}` if the player had none) now holds the value under the category and is otherwise unchanged. Every other player's sheet is untouched and a new player's sheet is listed last. Duplicate-free objects stay so. |
| GameContext.TurnGame | src/contexts/GameContext.tsx:155-158 | NEXT_TURN on the matching game changes only its turn, to `(index + 1) % players.length`. From an index of at least -1 that lands inside the roster. |
| GameContext.RoundGame | src/contexts/GameContext.tsx:93 | NEXT_ROUND changes only the round. It adds one below 10 and gives 10 from 10 upward, i.e. `Math.min(round + 1, 10)`. |
| GameContext.ReduceAddPlayer | src/contexts/GameContext.tsx:62-69 | A name already on the roster leaves the state unchanged. Otherwise `{name}` is appended and nothing else changes. Afterwards the name is present, other names are present iff they were, and unique names stay unique. |
| GameContext.ReduceRemovePlayer | src/contexts/GameContext.tsx:70-74 | The roster is filtered: the name is gone, exactly the other players remain, and nothing else changes. |
| GameContext.ReduceStartNewGame | src/contexts/GameContext.tsx:75-87 | Appends a game whose id exceeds every listed id, with one sheet per roster name, turn 0 and round 1. That id becomes active; roster and summaries are kept. |
| GameContext.ReduceUpdateScore | src/contexts/GameContext.tsx:97-115 | Each game with the id gets `ScoreGame`. Every other game and every other field is unchanged, and with no matching game the state is unchanged. |
| GameContext.ReduceNextTurn | src/contexts/GameContext.tsx:150-161 | Each game with the id gets `TurnGame` and every other game is unchanged. With no matching game the state is unchanged. |
| GameContext.ReduceNextRound | src/contexts/GameContext.tsx:88-96 | Each game with the id gets `RoundGame` and every other game is unchanged. With no matching game the state is unchanged. |
| GameContext.ReduceSetCurrentGame | src/contexts/GameContext.tsx:116-120 | The active id is set unconditionally and nothing else changes. |
| GameContext.ReduceEndGame | src/contexts/GameContext.tsx:121-135 | An absent id changes nothing. Otherwise roster and games are kept, the first game with the id has its summary stored under the id, and the active id becomes the last game's id when there are at least two games, else `null`. |
| GameContext.ReduceDeleteGame | src/contexts/GameContext.tsx:136-147 | The game and its summary entry are removed and other summaries are kept. An active deleted game hands the active id to the last remaining game or `null`; otherwise the active id is kept. |
| GameContext.Reduce | src/contexts/GameContext.tsx:60-183 | RESET_ALL gives the initial state and an unrecognised action leaves the state unchanged. Only player actions and RESET_ALL touch the roster. Only END_GAME adds a summary key, its own id. |
| GameInvariants.InitialStateWf | src/contexts/GameContext.tsx:43-48 | The initial state is well formed. |
| GameInvariants.FindGameUnique | src/contexts/GameContext.tsx:122 | With increasing ids, finding a listed game's id returns that game. |
| GameInvariants.DropGamesKeepsIdsIncreasing | src/contexts/GameContext.tsx:139 | Deleting games keeps ids increasing along the list. |
| GameInvariants.NewGameWf | src/contexts/GameContext.tsx:76-82 | The game START_NEW_GAME builds is well formed: id at least 1, turn 0, round 1, duplicate-free sheets. |
| GameInvariants.StartNewGameKeepsWf | src/contexts/GameContext.tsx:75-87 | START_NEW_GAME keeps the state well formed. |
| GameInvariants.ScoreGameKeepsWf | src/contexts/GameContext.tsx:100-112 | Scoring a well-formed game leaves it well formed. |
| GameInvariants.UpdateScoreKeepsWf | src/contexts/GameContext.tsx:97-115 | UPDATE_SCORE keeps the state well formed. |
| GameInvariants.NextTurnKeepsWf | src/contexts/GameContext.tsx:150-161 | NEXT_TURN keeps the state well formed. |
| GameInvariants.NextRoundKeepsWf | src/contexts/GameContext.tsx:88-96 | NEXT_ROUND keeps the state well formed, so the round stays within 1..10. |
| GameInvariants.DeleteGameKeepsWf | src/contexts/GameContext.tsx:136-147 | DELETE_GAME keeps the state well formed; no summary outlives its game. |
| GameInvariants.ReducePreservesWf | src/contexts/GameContext.tsx:60-183 | Every action keeps a well-formed state well formed: unique names, increasing ids, well-formed games, summaries only for listed games. |
| GameInvariants.RunPreservesWf | src/contexts/GameContext.tsx:60-183 | Any run of actions from a well-formed state ends in a well-formed state. |
| GameInvariants.RunKeepsNamesUnique | src/contexts/GameContext.tsx:62-69 | Whatever actions are dispatched from the initial state, no name is ever listed twice. |
| GameInvariants.UpdateScoreDispatch | src/contexts/GameContext.tsx:97 | An UPDATE_SCORE action is handled by the first UPDATE_SCORE case. |
| GameInvariants.ScoreStep | src/contexts/GameContext.tsx:97-115 | One UPDATE_SCORE keeps the roster and the list length and applies `ScoreGame` to the targeted game. |
| GameInvariants.ScoreRunIsRun | src/contexts/GameContext.tsx:97-115 | Dispatching a run of UPDATE_SCOREs through the reducer is always defined and equals applying the case step by step. |
| GameInvariants.ScoreRunOnGame | src/contexts/GameContext.tsx:100-114 | A run of scores for one game changes that game as the per-game fold of `ScoreGame`. |
| GameInvariants.GameScoresTurn | src/contexts/GameContext.tsx:111 | Each score of a run rotates the turn once. |
| GameInvariants.TurnAfterRem | src/contexts/GameContext.tsx:111 | From a position inside the roster, `m` single rotations reach `(x + m) % n`. |
| GameInvariants.TurnStepRem | src/contexts/GameContext.tsx:111 | One rotation followed by `m` more is `m + 1` places. |
| GameInvariants.ScoresFromStartRotateTurn | src/contexts/GameContext.tsx:111 | After `m` scores in a game whose turn is 0, the turn is at `m mod players.length`, and the run is defined. |
| GameInvariants.AddPlayerIdempotent | src/contexts/GameContext.tsx:62-69 | Adding a name twice is adding it once. |
| GameInvariants.WithoutDistributes | src/contexts/GameContext.tsx:73 | The filter distributes over concatenation, so the remaining players keep their order. |
| GameInvariants.DropGamesDistributes | src/contexts/GameContext.tsx:139 | The game filter distributes over concatenation, so the remaining games keep their order. |
| GameInvariants.DeleteKeepsLastGame | src/contexts/GameContext.tsx:139-146 | When the last game is not the one deleted, it is still last afterwards. An active deleted game then hands the active id to it. |
| GameInvariants.WithoutAbsent | src/contexts/GameContext.tsx:73 | Removing a name nobody has returns the same roster. |
| GameInvariants.NewSheetsFollowRoster | src/contexts/GameContext.tsx:79 | A new game has exactly one empty sheet per roster name, enumerated in roster order. |
| GameInvariants.SummaryHoldsTotals | src/contexts/GameContext.tsx:124-130 | END_GAME's summary lists the sheet owners in sheet order, has no other entry, and maps each owner to `calculateTotalScore` of their sheet. |
| GameInvariants.SummaryOverHoldsTotals | src/contexts/GameContext.tsx:124-130 | The fold over distinct names assigns each name its own sheet's total. |
| GameInvariants.TotalAfterWrite | src/contexts/GameContext.tsx:50-58 | Writing a value into a category changes the sheet's total by the new value minus the old entry. |
| GameInvariants.SumAfterWrite | src/contexts/GameContext.tsx:51-57 | Two sheets that differ in one category differ in any sum over distinct categories by that cell. |
| GameInvariants.EndGameIdempotent | src/contexts/GameContext.tsx:121-135 | A second END_GAME on the same game changes nothing. |
| GameInvariants.IdNotFreshAfterDelete | src/contexts/GameContext.tsx:76 | In a state with increasing ids of at least 1, deleting the last (largest-id) game and then starting a game allocates an id no larger than the deleted one. |
| GameInvariants.IdReusedAfterDelete | src/contexts/GameContext.tsx:76 | One instance: of two fresh games, deleting game 2 and starting another allocates 2 again. |
| GameInvariants.AddPlayerScenario | src/__tests__/GameContext.test.tsx:7-22 | Adding Alice gives `[Alice]`; adding her again changes nothing. |
| GameInvariants.RemovePlayerScenario | src/__tests__/GameContext.test.tsx:24-33 | Removing Alice from `[Alice, Bob]` leaves `[Bob]`. |
| GameInvariants.StartNewGameScenario | src/__tests__/GameContext.test.tsx:35-46 | The first game has id 1, becomes active, has turn 0, and its sheets enumerate `Alice, Bob`. |
| GameInvariants.UpdateScoreScenario | src/__tests__/GameContext.test.tsx:48-71 | Alice's 3 under `Ones` is recorded and the turn passes to index 1. |
| GameInvariants.EndGameScenario | src/__tests__/GameContext.test.tsx:73-93 | Ending the only game stores `{Alice: 9, Bob: 6}` and clears the active id. |
| Scorecard.CatalogueWellFormed | src/components/Scorecard.tsx:7-24 | 6 upper and 7 lower categories, all 13 names distinct, and `YAHTZEE BONUS` is none of them. |
| Scorecard.SectionTotal | src/components/Scorecard.tsx:55-57 | No contract of its own. `Scorecard.SectionTotalIsSum` equates the `reduce` with the sum of the section's entries. |
| Scorecard.UpperTotal | src/components/Scorecard.tsx:54-58 | No contract of its own. Its meaning is stated by `Scorecard.SectionTotalIsSum`, `Scorecard.TotalsBounds` and `Scorecard.GrandTotalAfterWrite`. |
| Scorecard.LowerTotal | src/components/Scorecard.tsx:65-69 | No contract of its own. Its meaning is stated by `Scorecard.SectionTotalIsSum`, `Scorecard.TotalsBounds` and `Scorecard.GrandTotalAfterWrite`. |
| Scorecard.GrandTotal | src/components/Scorecard.tsx:71-76 | No contract of its own. `Scorecard.TotalsBounds`, `Scorecard.GrandTotalAfterWrite` and `Scorecard.SummaryVersusGrandTotal` state what it is. |
| Scorecard.SectionTotalIsSum | src/components/Scorecard.tsx:54-58 | The `reduce` over a section equals the sum of its entries, with missing and `null` counted as 0. |
| Scorecard.Bonus | src/components/Scorecard.tsx:60-63 | The bonus is 35 exactly when the upper total is at least 63, and 0 exactly when it is below. |
| Scorecard.TotalsBounds | src/components/Scorecard.tsx:54-76 | With no negative entries, the upper, lower and grand totals are non-negative. The grand total exceeds the two section totals by 0 or 35. |
| Scorecard.SectionAfterWrite | src/components/Scorecard.tsx:65-69 | Changing one category moves a section total by that cell's change if the section lists it, else not at all. |
| Scorecard.GrandTotalAfterWrite | src/components/Scorecard.tsx:71-76 | Recording a value moves only the total of the section listing the category. An off-catalogue write, `YAHTZEE BONUS` included, changes no total. Recording at least the old entry never lowers the grand total. |
| Scorecard.CatalogueSum | src/components/Scorecard.tsx:54-69 | The entries of a sheet that the catalogue names add up to the upper plus the lower total. |
| Scorecard.SummaryVersusGrandTotal | src/components/Scorecard.tsx:71-76 | END_GAME's total plus the bonus equals the grand total plus the off-catalogue entries. On a sheet of catalogue categories only, the two differ by exactly the bonus. |
| Scorecard.SummaryMissesBonus | src/contexts/GameContext.tsx:121-135 | END_GAME freezes, for each player, the scorecard's grand total minus the bonus plus the off-catalogue entries. |
| Scorecard.SummaryAndGrandTotalDiffer | src/components/Scorecard.tsx:54-76 | Sixes 30, Fives 25, Fours 8 and a Yahtzee bonus of 100 give upper 63, bonus 35, lower 0 and grand total 98; END_GAME freezes 163. |
| Scorecard.ActiveGame | src/components/Scorecard.tsx:28 | The scorecard shows a game iff the active id names a listed game, and the game shown carries that id. |
| Scorecard.HandleScore | src/components/Scorecard.tsx:34-51 | A click dispatches `UPDATE_SCORE {gameId, playerName, category, value}` iff the turn index names a roster entry with that name and a number was entered. It is refused iff the index names another player, and fails iff the index names no roster entry. |
| Scorecard.DispatchedScore | src/components/Scorecard.tsx:43-49 | The dispatched action targets the active game. The reducer applies `ScoreGame` to that game, which stays active, and keeps the roster. |
| Scorecard.ScoreLandsOnActiveGame | src/components/Scorecard.tsx:34-51 | After a dispatched click is reduced, the same game is active and the player's sheet holds the entered value under the category. |
| Scorecard.TurnPasses | src/contexts/GameContext.tsx:111 | From the current player's index the next turn lies inside the roster. With two or more players, unique names make it another player's. |
| Scorecard.ScoredPlayerLosesTurn | src/components/Scorecard.tsx:34-38 | After a dispatched click is reduced, the turn names a roster entry. With two or more players, every further click by the scoring player is refused: no double turns. |

## Left out

- Rendering: the JSX of the scorecard, the summary view and the pages is not modelled. Nor is the 10-player, non-blank-name guard in front of ADD_PLAYER (src/app/page.tsx:15): ADD_PLAYER is modelled for every name.
- `GameProvider` and `useGame` (src/contexts/GameContext.tsx:186-212) are not modelled: they are React wiring and `localStorage` persistence.
- `prompt`, `alert` and `parseInt` in `handleScore` are not modelled. The parsed entry is the `entered` parameter: `None` for a cancelled prompt or a non-number.
- src/types.ts and src/app/utils.ts are not part of this model. They have nothing to do with the scorekeeper.
- JavaScript numbers are unbounded integers here. Fractions, `NaN`, `Infinity` and the loss of precision above 2^53 are not modelled.
- GameInvariants.SummaryHoldsTotals: a player named `__proto__` is not modelled. END_GAME's fold assigns `summary[playerName] = …` on a plain `{}`. For that name the assignment hits the `__proto__` setter, which ignores a number, so JavaScript's summary has no entry for that player. The model's `Set` treats every name as an ordinary key, so `SummaryOf` and this lemma give that player an entry. The spreads with computed keys and `Object.fromEntries` do create an own `__proto__` key, as the model does.
- Object key order: JavaScript enumerates integer-like keys (such as a player named "7") first, in ascending order, before all other keys in insertion order. The model enumerates every key in insertion order, so enumeration order is exact only for names that are not integer-like.
- The empty roster: with no players, UPDATE_SCORE and NEXT_TURN compute `% 0`, which makes the turn index `NaN`. `GameContext.Defined` requires a non-empty roster whenever such an action targets a listed game.
- A player with no sheet: the scorecard reads `scores[playerName][category]`, which throws for a player added after the game started. The totals are modelled on a sheet, so this crash is not modelled.
- Scorecard.HandleScore: reading `.name` of a missing roster entry throws a `TypeError`. The model makes this the outcome `NoCurrentPlayer`, not an exception.
- The second `UPDATE_SCORE` case (src/contexts/GameContext.tsx:162-180) is unreachable, because the first `UPDATE_SCORE` case always wins. Both union members become the single constructor `UpdateScore`.
- Category legality rules and a cap on Yahtzee-bonus entries do not exist in the code, so they are not modelled.
- GameContext.TotalScore: its own contract states only non-negativity. What it computes is stated by `GameInvariants.SummaryHoldsTotals`, `GameInvariants.TotalAfterWrite` and `Scorecard.SummaryVersusGrandTotal`.
