/**
 * The score-sheet arithmetic of the scorecard (src/components/Scorecard.tsx): the
 * fixed category catalogue, the section totals, the upper-section bonus and the
 * grand total, and the turn guard of a score click. Every total reads one player's
 * sheet of the active game, counting a missing or `null` entry as 0 (`|| 0`).
 */
module Scorecard {
  import opened Wrappers
  import opened OrderedDict
  import opened GameContext
  import opened GameInvariants

  // ---------------------------------------------------------------------------
  // The catalogue

  const UpperCategories: seq<string> := ["Aces", "Twos", "Threes", "Fours", "Fives", "Sixes"]

  const LowerCategories: seq<string> :=
    ["3 of a Kind", "4 of a Kind", "Full House", "SM Straight", "LG Straight", "YAHTZEE", "Chance"]

  /** The extra row of the lower section; it is scored like a category but no total reads it. */
  const YahtzeeBonus: string := "YAHTZEE BONUS"

  /** Every category a section total reads, upper section first. */
  const Catalogue: seq<string> := UpperCategories + LowerCategories

  const CatalogueNames: set<string> := set c <- Catalogue

  /** The upper total at which the bonus is earned, and the bonus itself. */
  const BonusThreshold: int := 63
  const UpperBonus: int := 35

  /**
   * Six upper and seven lower categories, no name listed twice (so no category
   * belongs to both sections), and the Yahtzee-bonus row is none of them.
   */
  lemma CatalogueWellFormed()
    ensures |UpperCategories| == 6 && |LowerCategories| == 7
    ensures Distinct(UpperCategories) && Distinct(LowerCategories) && Distinct(Catalogue)
    ensures forall c <- UpperCategories :: c !in LowerCategories
    ensures YahtzeeBonus !in Catalogue
  {
  }

  // ---------------------------------------------------------------------------
  // The totals

  /**
   * `categories.reduce((total, c) => total + (sheet[c] || 0), 0)`: a left fold,
   * the last category added last.
   */
  function SectionTotal(sheet: Score, categories: seq<string>): int {
    if |categories| == 0 then 0
    else
      var n := |categories| - 1;
      SectionTotal(sheet, categories[..n]) + Cell(sheet, categories[n])
  }

  /** `calculateUpperSectionTotal`. */
  function UpperTotal(sheet: Score): int {
    SectionTotal(sheet, UpperCategories)
  }

  /** `calculateBonus`: 35 exactly when the upper total is at least 63. */
  function Bonus(sheet: Score): (b: int)
    ensures b == UpperBonus <==> UpperTotal(sheet) >= BonusThreshold
    ensures b == 0 <==> UpperTotal(sheet) < BonusThreshold
  {
    if UpperTotal(sheet) >= BonusThreshold then UpperBonus else 0
  }

  /** `calculateLowerSectionTotal`. */
  function LowerTotal(sheet: Score): int {
    SectionTotal(sheet, LowerCategories)
  }

  /** `calculateGrandTotal`. */
  function GrandTotal(sheet: Score): int {
    UpperTotal(sheet) + Bonus(sheet) + LowerTotal(sheet)
  }

  /** What the sheet holds outside the catalogue, the Yahtzee-bonus row included. */
  function OffCatalogueTotal(sheet: Score): int {
    SumCells(sheet, Outside(sheet.keys, CatalogueNames))
  }

  /** The left fold and the right fold of a section agree. */
  lemma {:induction false} SectionTotalIsSum(sheet: Score, categories: seq<string>)
    ensures SectionTotal(sheet, categories) == SumCells(sheet, categories)
  {
    if |categories| > 0 {
      var n := |categories| - 1;
      assert categories == categories[..n] + [categories[n]];
      SectionTotalIsSum(sheet, categories[..n]);
      SumSnoc(sheet, categories[..n], categories[n]);
    }
  }

  /**
   * With no negative entries every total is non-negative, and the grand total is
   * the two section totals plus either nothing or the whole bonus.
   */
  lemma TotalsBounds(sheet: Score)
    ensures (forall c :: Cell(sheet, c) >= 0) ==>
              UpperTotal(sheet) >= 0 && LowerTotal(sheet) >= 0 && GrandTotal(sheet) >= 0
    ensures GrandTotal(sheet) - UpperTotal(sheet) - LowerTotal(sheet) in {0, UpperBonus}
  {
    SectionTotalIsSum(sheet, UpperCategories);
    SectionTotalIsSum(sheet, LowerCategories);
  }

  /**
   * Recording `value` in a category moves the total of the section that lists it
   * by the difference between the new and the old entry and leaves the other
   * section alone; recording outside the catalogue changes no total, and
   * recording at least the old entry never lowers the grand total.
   */
  lemma GrandTotalAfterWrite(sheet: Score, category: string, value: int)
    ensures var t := Set(sheet, category, Some(value));
      && UpperTotal(t) == UpperTotal(sheet) + (if category in UpperCategories then value - Cell(sheet, category) else 0)
      && LowerTotal(t) == LowerTotal(sheet) + (if category in LowerCategories then value - Cell(sheet, category) else 0)
      && (category !in Catalogue ==> GrandTotal(t) == GrandTotal(sheet))
      && (value >= Cell(sheet, category) ==> GrandTotal(t) >= GrandTotal(sheet))
  {
    var t := Set(sheet, category, Some(value));
    CatalogueWellFormed();
    forall c | c != category ensures Cell(sheet, c) == Cell(t, c) {
      assert Get(t, c) == Get(sheet, c);
    }
    assert Cell(t, category) == value;
    SectionAfterWrite(sheet, t, UpperCategories, category);
    SectionAfterWrite(sheet, t, LowerCategories, category);
  }

  lemma SectionAfterWrite(a: Score, b: Score, categories: seq<string>, category: string)
    requires Distinct(categories)
    requires forall c :: c != category ==> Cell(a, c) == Cell(b, c)
    ensures SectionTotal(b, categories) ==
            SectionTotal(a, categories) + if category in categories then Cell(b, category) - Cell(a, category) else 0
  {
    SectionTotalIsSum(a, categories);
    SectionTotalIsSum(b, categories);
    SumAfterWrite(a, b, categories, category);
  }

  // ---------------------------------------------------------------------------
  // The reducer's summary against the scorecard's grand total

  /** The keys of `ks` that are in `names`, in order. */
  function Within(ks: seq<string>, names: set<string>): (r: seq<string>)
    ensures forall k :: k in r <==> k in ks && k in names
  {
    if |ks| == 0 then []
    else (if ks[0] in names then [ks[0]] else []) + Within(ks[1..], names)
  }

  /** The keys of `ks` that are not in `names`, in order. */
  function Outside(ks: seq<string>, names: set<string>): (r: seq<string>)
    ensures forall k :: k in r <==> k in ks && k !in names
  {
    if |ks| == 0 then []
    else (if ks[0] in names then [] else [ks[0]]) + Outside(ks[1..], names)
  }

  /**
   * END_GAME's total of a sheet against the grand total the scorecard shows for
   * it: the summary leaves out the upper bonus and adds whatever the sheet holds
   * outside the catalogue (the Yahtzee-bonus row included). On a sheet holding
   * catalogue categories only, the two differ by exactly the bonus.
   */
  lemma SummaryVersusGrandTotal(sheet: Score)
    requires Valid(sheet)
    ensures TotalScore(sheet) + Bonus(sheet) == GrandTotal(sheet) + OffCatalogueTotal(sheet)
    ensures (forall k <- sheet.keys :: k in Catalogue) ==> TotalScore(sheet) + Bonus(sheet) == GrandTotal(sheet)
  {
    SplitSum(sheet, sheet.keys, CatalogueNames);
    CatalogueSum(sheet);
    if forall k <- sheet.keys :: k in Catalogue {
      assert Outside(sheet.keys, CatalogueNames) == [];
    }
  }

  /** The keys of a sheet that the catalogue lists add up to the two section totals. */
  lemma CatalogueSum(sheet: Score)
    requires Valid(sheet)
    ensures SumCells(sheet, Within(sheet.keys, CatalogueNames)) == UpperTotal(sheet) + LowerTotal(sheet)
  {
    assert Distinct(Catalogue) by { CatalogueWellFormed(); }
    WithinSum(sheet, sheet.keys, Catalogue);
    SumAppend(sheet, UpperCategories, LowerCategories);
    SectionTotalIsSum(sheet, UpperCategories);
    SectionTotalIsSum(sheet, LowerCategories);
  }

  /** So END_GAME freezes, for each player of the game, that player's grand total without the bonus plus the off-catalogue entries. */
  lemma SummaryMissesBonus(scores: Dict<Score>, p: string)
    requires Valid(scores) && p in scores.values && Valid(scores.values[p])
    ensures var sheet := scores.values[p];
            Get(SummaryOf(scores), p) == Some(GrandTotal(sheet) - Bonus(sheet) + OffCatalogueTotal(sheet))
  {
    SummaryHoldsTotals(scores);
    SummaryVersusGrandTotal(scores.values[p]);
  }

  /** A sum splits into the keys in `names` and the keys outside it. */
  lemma {:induction false} SplitSum(sheet: Score, ks: seq<string>, names: set<string>)
    ensures SumCells(sheet, ks) == SumCells(sheet, Within(ks, names)) + SumCells(sheet, Outside(ks, names))
  {
    if |ks| > 0 {
      SplitSum(sheet, ks[1..], names);
      var w, o := Within(ks[1..], names), Outside(ks[1..], names);
      if ks[0] in names {
        assert Within(ks, names) == [ks[0]] + w && Outside(ks, names) == o;
        assert ([ks[0]] + w)[1..] == w;
      } else {
        assert Within(ks, names) == w && Outside(ks, names) == [ks[0]] + o;
        assert ([ks[0]] + o)[1..] == o;
      }
    }
  }

  /** A sum over distinct keys is one key's cell plus the sum over the others. */
  lemma {:induction false} SumWithout(sheet: Score, ks: seq<string>, c: string)
    requires Distinct(ks)
    ensures SumCells(sheet, ks) == (if c in ks then Cell(sheet, c) else 0) + SumCells(sheet, Outside(ks, {c}))
  {
    if |ks| > 0 {
      var rest := ks[1..];
      assert Distinct(rest);
      SumWithout(sheet, rest, c);
      if ks[0] != c {
        assert Outside(ks, {c}) == [ks[0]] + Outside(rest, {c});
        assert ([ks[0]] + Outside(rest, {c}))[1..] == Outside(rest, {c});
      } else {
        assert c !in rest;
        assert Outside(ks, {c}) == Outside(rest, {c});
      }
    }
  }

  lemma {:induction false} WithinDistinct(ks: seq<string>, names: set<string>)
    requires Distinct(ks)
    ensures Distinct(Within(ks, names))
  {
    if |ks| > 0 {
      var rest := ks[1..];
      assert Distinct(rest);
      WithinDistinct(rest, names);
      var w := Within(rest, names);
      if ks[0] in names {
        assert ks[0] !in w;
        DistinctCons(ks[0], w);
      }
    }
  }

  lemma DistinctCons(k: string, ks: seq<string>)
    requires Distinct(ks) && k !in ks
    ensures Distinct([k] + ks)
  {
    var r := [k] + ks;
    forall i, j | 0 <= i < j < |r| ensures r[i] != r[j] {
      assert r[j] == ks[j - 1];
      if i > 0 { assert r[i] == ks[i - 1]; }
    }
  }

  lemma {:induction false} OutsideWithin(ks: seq<string>, names: set<string>, c: string)
    ensures Outside(Within(ks, names), {c}) == Within(ks, names - {c})
  {
    if |ks| > 0 {
      OutsideWithin(ks[1..], names, c);
      var w := Within(ks[1..], names);
      var w' := Within(ks[1..], names - {c});
      if ks[0] !in names {
        assert Within(ks, names) == w && Within(ks, names - {c}) == w';
      } else if ks[0] == c {
        assert Within(ks, names) == [ks[0]] + w && Within(ks, names - {c}) == w';
        assert ([ks[0]] + w)[1..] == w;
      } else {
        assert Within(ks, names) == [ks[0]] + w && Within(ks, names - {c}) == [ks[0]] + w';
        assert ([ks[0]] + w)[1..] == w;
      }
    }
  }

  /**
   * Summing the keys of a sheet that a list of distinct categories names gives the
   * sum over that list, when the listed categories missing from the keys read 0.
   */
  lemma {:induction false} WithinSum(sheet: Score, ks: seq<string>, categories: seq<string>)
    requires Distinct(ks) && Distinct(categories)
    requires forall c <- categories :: c !in ks ==> Cell(sheet, c) == 0
    ensures SumCells(sheet, Within(ks, set c <- categories)) == SumCells(sheet, categories)
  {
    if |categories| > 0 {
      var c, rest := categories[0], categories[1..];
      var names := set c' <- categories;
      assert Distinct(rest) && c !in rest;
      assert (set c' <- rest) == names - {c};
      WithinSum(sheet, ks, rest);
      WithinDistinct(ks, names);
      SumWithout(sheet, Within(ks, names), c);
      OutsideWithin(ks, names, c);
    } else {
      assert (set c <- categories) == {};
      WithinNothing(ks);
    }
  }

  lemma {:induction false} WithinNothing(ks: seq<string>)
    ensures Within(ks, {}) == []
  {
    if |ks| > 0 {
      WithinNothing(ks[1..]);
    }
  }

  lemma {:induction false} SumOfZeros(sheet: Score, categories: seq<string>)
    requires forall c <- categories :: Cell(sheet, c) == 0
    ensures SumCells(sheet, categories) == 0
  {
    if |categories| > 0 {
      assert categories[0] in categories;
      SumOfZeros(sheet, categories[1..]);
    }
  }

  lemma {:induction false} SumAppend(sheet: Score, a: seq<string>, b: seq<string>)
    ensures SumCells(sheet, a + b) == SumCells(sheet, a) + SumCells(sheet, b)
  {
    if |a| > 0 {
      assert (a + b)[1..] == a[1..] + b;
      SumAppend(sheet, a[1..], b);
    } else {
      assert a + b == b;
    }
  }

  /**
   * A sheet on which the two disagree: 30 in Sixes, 25 in Fives and 8 in Fours make
   * an upper total of 63 and earn the bonus, and a Yahtzee bonus of 100 is recorded.
   * The scorecard shows 98; END_GAME freezes 163.
   */
  const BonusSheet: Score := Dict(
    ["Sixes", "Fives", "Fours", YahtzeeBonus],
    map["Sixes" := Some(30), "Fives" := Some(25), "Fours" := Some(8), YahtzeeBonus := Some(100)])

  lemma SummaryAndGrandTotalDiffer()
    ensures UpperTotal(BonusSheet) == 63 && Bonus(BonusSheet) == 35 && LowerTotal(BonusSheet) == 0
    ensures GrandTotal(BonusSheet) == 98 && TotalScore(BonusSheet) == 163
  {
    BonusSheetUpper();
    BonusSheetLower();
    BonusSheetTotal();
  }

  lemma BonusSheetUpper()
    ensures UpperTotal(BonusSheet) == 63
  {
    var s, u := BonusSheet, UpperCategories;
    assert Cell(s, "Sixes") == 30 && Cell(s, "Fives") == 25 && Cell(s, "Fours") == 8;
    assert Cell(s, "Aces") == 0 && Cell(s, "Twos") == 0 && Cell(s, "Threes") == 0;
    assert SumCells(s, u[5..]) == 30;
    assert SumCells(s, u[4..]) == 55;
    assert SumCells(s, u[3..]) == 63;
    assert SumCells(s, u[2..]) == 63;
    assert SumCells(s, u[1..]) == 63;
    SectionTotalIsSum(s, u);
  }

  lemma BonusSheetLower()
    ensures LowerTotal(BonusSheet) == 0
  {
    var s := BonusSheet;
    forall c <- LowerCategories ensures Cell(s, c) == 0 {
      assert c !in s.values;
    }
    SumOfZeros(s, LowerCategories);
    SectionTotalIsSum(s, LowerCategories);
  }

  lemma BonusSheetTotal()
    ensures TotalScore(BonusSheet) == 163
  {
    var s := BonusSheet;
    var ks := s.keys;
    assert Cell(s, YahtzeeBonus) == 100 && Cell(s, "Fours") == 8;
    assert Cell(s, "Fives") == 25 && Cell(s, "Sixes") == 30;
    assert SumCells(s, ks[3..]) == 100;
    assert SumCells(s, ks[2..]) == 108;
    assert SumCells(s, ks[1..]) == 133;
  }

  // ---------------------------------------------------------------------------
  // A score click

  /** `state.games.find(g => g.id === state.currentGameId)`: the game the scorecard shows. */
  function ActiveGame(s: GameState): (r: Option<Game>)
    ensures r.Some? <==> s.currentGameId.Some? && HasGame(s.games, s.currentGameId.value)
    ensures r.Some? ==> s.currentGameId == Some(r.value.id) && r.value in s.games
  {
    if s.currentGameId.Some? then FindGame(s.games, s.currentGameId.value) else None
  }

  /** `players[g.currentPlayerIndex]` exists and carries this name. */
  predicate IsCurrentPlayer(s: GameState, g: Game, name: string) {
    0 <= g.currentPlayerIndex < |s.players| && s.players[g.currentPlayerIndex].name == name
  }

  /**
   * What a click on a player's cell does: dispatch an UPDATE_SCORE, refuse because
   * it is another player's turn, issue nothing because no number was entered, or
   * fail because the turn index names no roster entry (reading `.name` of
   * `undefined` throws).
   */
  datatype ScoreClick =
    | Dispatched(action: Action)
    | NotYourTurn
    | NoScore
    | NoCurrentPlayer

  /**
   * `handleScore(playerName, category)`; `entered` is what the prompt yields after
   * `parseInt`: `None` for a cancelled prompt or a non-number. The scorecard offers
   * the click only while it shows an active game.
   */
  function HandleScore(s: GameState, playerName: string, category: string, entered: Option<int>): (r: ScoreClick)
    requires ActiveGame(s).Some?
    ensures var g := ActiveGame(s).value;
      && (r.Dispatched? <==> IsCurrentPlayer(s, g, playerName) && entered.Some?)
      && (r.Dispatched? ==> r.action == UpdateScore(g.id, playerName, category, entered.value))
      && (r.NotYourTurn? <==> 0 <= g.currentPlayerIndex < |s.players| && !IsCurrentPlayer(s, g, playerName))
      && (r.NoCurrentPlayer? <==> !(0 <= g.currentPlayerIndex < |s.players|))
  {
    var g := ActiveGame(s).value;
    if !(0 <= g.currentPlayerIndex < |s.players|) then NoCurrentPlayer
    else if playerName != s.players[g.currentPlayerIndex].name then NotYourTurn
    else if entered.None? then NoScore
    else Dispatched(UpdateScore(g.id, playerName, category, entered.value))
  }

  /**
   * A dispatched score lands where it was clicked: the reducer writes it into that
   * player's sheet of the game the scorecard shows, and that game stays active.
   */
  lemma ScoreLandsOnActiveGame(s: GameState, playerName: string, category: string, value: int)
    requires UniqueNames(s.players) && IdsIncreasing(s.games) && ActiveGame(s).Some?
    requires HandleScore(s, playerName, category, Some(value)).Dispatched?
    ensures var a := HandleScore(s, playerName, category, Some(value)).action;
      && Defined(s, a)
      && ActiveGame(Reduce(s, a)).Some?
      && ActiveGame(Reduce(s, a)).value.id == ActiveGame(s).value.id
      && Cell(Get(ActiveGame(Reduce(s, a)).value.scores, playerName).GetOr(Empty()), category) == value
  {
    var g := ActiveGame(s).value;
    var a := DispatchedScore(s, playerName, category, value);
    ScoreGameWrites(g, playerName, category, value, |s.players|);
  }

  /**
   * No double turn: once the current player's score is reduced, the turn index of
   * the active game names a roster entry, and with two or more players it is another
   * player's, so any further click of the scoring player is refused.
   */
  lemma ScoredPlayerLosesTurn(s: GameState, playerName: string, category: string, value: int)
    requires UniqueNames(s.players) && IdsIncreasing(s.games) && ActiveGame(s).Some?
    requires HandleScore(s, playerName, category, Some(value)).Dispatched?
    ensures var a := HandleScore(s, playerName, category, Some(value)).action;
      && Defined(s, a)
      && ActiveGame(Reduce(s, a)).Some?
      && 0 <= ActiveGame(Reduce(s, a)).value.currentPlayerIndex < |s.players|
      && (|s.players| >= 2 ==> forall c, e :: HandleScore(Reduce(s, a), playerName, c, e) == NotYourTurn)
  {
    var g := ActiveGame(s).value;
    var a := DispatchedScore(s, playerName, category, value);
    var t := Reduce(s, a);
    var g' := ScoreGame(g, playerName, category, value, |s.players|);
    assert IsCurrentPlayer(s, g, playerName);
    TurnPasses(s, g, playerName);
    if |s.players| >= 2 {
      forall c, e ensures HandleScore(t, playerName, c, e) == NotYourTurn {
        assert !IsCurrentPlayer(t, g', playerName);
      }
    }
  }

  /** The action a score click dispatches, and the state the reducer makes of it. */
  lemma DispatchedScore(s: GameState, playerName: string, category: string, value: int) returns (a: Action)
    requires UniqueNames(s.players) && IdsIncreasing(s.games) && ActiveGame(s).Some?
    requires HandleScore(s, playerName, category, Some(value)).Dispatched?
    ensures a == HandleScore(s, playerName, category, Some(value)).action
    ensures a == UpdateScore(ActiveGame(s).value.id, playerName, category, value)
    ensures Defined(s, a) && |s.players| > 0
    ensures Reduce(s, a).players == s.players
    ensures ActiveGame(Reduce(s, a)) == Some(ScoreGame(ActiveGame(s).value, playerName, category, value, |s.players|))
  {
    var g := ActiveGame(s).value;
    a := UpdateScore(g.id, playerName, category, value);
    UpdateScoreDispatch(s, a);
    var i :| 0 <= i < |s.games| && s.games[i] == g;
    ScoreReachesActiveGame(s, i, playerName, category, value);
  }

  /** The game UPDATE_SCORE rewrites stays the active one. */
  lemma ScoreReachesActiveGame(s: GameState, i: int, playerName: string, category: string, value: int)
    requires IdsIncreasing(s.games) && 0 <= i < |s.games| && s.currentGameId == Some(s.games[i].id) && |s.players| > 0
    ensures var t := ReduceUpdateScore(s, s.games[i].id, playerName, category, value);
      && t.players == s.players
      && ActiveGame(t) == Some(ScoreGame(s.games[i], playerName, category, value, |s.players|))
  {
    var id := s.games[i].id;
    var t := ReduceUpdateScore(s, id, playerName, category, value);
    ScoreStep(s, i, id, playerName, category, value);
    assert IdsIncreasing(t.games) by {
      forall j | 0 <= j < |t.games| ensures t.games[j].id == s.games[j].id {
      }
    }
    FindGameUnique(t.games, i);
  }

  /** After the current player's move the turn index names another roster entry. */
  lemma TurnPasses(s: GameState, g: Game, playerName: string)
    requires UniqueNames(s.players) && IsCurrentPlayer(s, g, playerName)
    ensures var next := JsRem(g.currentPlayerIndex + 1, |s.players|);
      && 0 <= next < |s.players|
      && (|s.players| >= 2 ==> s.players[next].name != playerName)
  {
    var n := |s.players|;
    JsRemVersusMod(g.currentPlayerIndex + 1, n);
    if n >= 2 {
      NextIndexDiffers(g.currentPlayerIndex, n);
    }
  }

  lemma NextIndexDiffers(x: int, n: int)
    requires 0 <= x < n && n >= 2
    ensures (x + 1) % n != x
  {
    if x + 1 < n {
      ModUnique(x + 1, n, 0, x + 1);
    } else {
      ModUnique(x + 1, n, 1, 0);
    }
  }
}
