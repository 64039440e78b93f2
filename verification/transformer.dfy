/**
 The stages of the player transformer, each a pure function from one frame
 (a sequence of rows) to the next, and their composition.
 */
module Transformer {
  import opened Wrappers
  import opened Players
  import opened Sequences
  import opened Ranking
  import opened Filters

  // ---------------------------------------------------------------------------
  // Cleaning
  // ---------------------------------------------------------------------------

  /** Drops every row whose short_name, overall or team_position is null. */
  function CleanData(rows: seq<Row>): (r: seq<Row>)
    ensures IsSubsequence(r, rows)
    ensures forall x :: x in r <==> x in rows && x.shortName.Some? && x.overall.Some? && x.teamPosition.Some?
  {
    Where(RequiredPresent, rows)
  }

  lemma CleanDataIdempotent(rows: seq<Row>)
    ensures CleanData(CleanData(rows)) == CleanData(rows)
  {
    WhereIdempotent(RequiredPresent, rows);
  }

  /** A frame with no null in the required columns passes cleaning unchanged; height_cm may be null. */
  lemma CleanDataKeepsCompleteFrame(rows: seq<Row>)
    requires forall x :: x in rows ==> x.shortName.Some? && x.overall.Some? && x.teamPosition.Some?
    ensures CleanData(rows) == rows
  {
    WhereAllKept(RequiredPresent, rows);
  }

  // ---------------------------------------------------------------------------
  // Projections
  // ---------------------------------------------------------------------------

  /** Keeps short_name, overall, height_cm, team_position and cat_height_by_position. */
  function ColumnSelection(rows: seq<Row>): (r: seq<HeightView>)
    ensures |r| == |rows|
    ensures forall i :: 0 <= i < |rows| ==>
      r[i].ToRow() == NullRow.(shortName := rows[i].shortName, overall := rows[i].overall,
                               heightCm := rows[i].heightCm, teamPosition := rows[i].teamPosition,
                               catHeightByPosition := rows[i].catHeightByPosition)
  {
    seq(|rows|, i requires 0 <= i < |rows| => rows[i].HeightColumns())
  }

  /** Keeps the ten input columns (team_position included) and drops the derived ones. */
  function ColumnSelectionTwo(rows: seq<Row>): (r: seq<PlayerView>)
    ensures |r| == |rows|
    ensures forall i :: 0 <= i < |rows| ==>
      r[i].ToRow() == rows[i].(catHeightByPosition := None, playerCat := None, potentialVsOverall := None)
  {
    seq(|rows|, i requires 0 <= i < |rows| => rows[i].PlayerColumns())
  }

  // ---------------------------------------------------------------------------
  // Rank categories
  // ---------------------------------------------------------------------------

  /** Height category of a rank within a position: A below 10, B below 50, C otherwise. */
  function HeightCategory(rank: nat): (c: Cat)
    ensures c != D
    ensures c == A <==> rank < 10
    ensures c == C <==> 50 <= rank
  {
    if rank < 10 then A
    else if rank < 50 then B
    else C
  }

  /** Player category of a rank within a nationality and position: A up to 3, B up to 5, C up to 10, D after. */
  function PlayerCategory(rank: nat): (c: Cat)
    ensures c == A <==> rank <= 3
    ensures c == B <==> 3 < rank <= 5
    ensures c == C <==> 5 < rank <= 10
  {
    if rank <= 3 then A
    else if rank <= 5 then B
    else if rank <= 10 then C
    else D
  }

  /** A worse (larger) rank never gives a better height category. */
  lemma HeightCategoryMonotone(k1: nat, k2: nat)
    requires k1 <= k2
    ensures Grade(HeightCategory(k1)) <= Grade(HeightCategory(k2))
  {
  }

  /** A worse (larger) rank never gives a better player category. */
  lemma PlayerCategoryMonotone(k1: nat, k2: nat)
    requires k1 <= k2
    ensures Grade(PlayerCategory(k1)) <= Grade(PlayerCategory(k2))
  {
  }

  /** Adds cat_height_by_position from the rank by height_cm descending within team_position. */
  function AddHeightCategory(rows: seq<Row>): (r: seq<Row>)
    ensures |r| == |rows|
    ensures forall i :: 0 <= i < |rows| ==>
      r[i].catHeightByPosition == Some(HeightCategory(Rank(HeightByPosition, rows, rows[i])))
    ensures forall i :: 0 <= i < |rows| ==>
      r[i].(catHeightByPosition := rows[i].catHeightByPosition) == rows[i]
  {
    seq(|rows|, i requires 0 <= i < |rows| =>
      rows[i].(catHeightByPosition := Some(HeightCategory(Rank(HeightByPosition, rows, rows[i])))))
  }

  /**
   Within one team_position, a player at least as tall (nulls last) never gets
   a worse height category, and players of equal height get the same one.
   */
  lemma TallerNeverWorseHeightCategory(rows: seq<Row>, i: nat, j: nat)
    requires i < |rows| && j < |rows|
    requires rows[i].teamPosition == rows[j].teamPosition
    requires rows[i].heightCm == rows[j].heightCm || Before(rows[i].heightCm, rows[j].heightCm)
    ensures Grade(AddHeightCategory(rows)[i].catHeightByPosition.value)
         <= Grade(AddHeightCategory(rows)[j].catHeightByPosition.value)
    ensures rows[i].heightCm == rows[j].heightCm ==>
      AddHeightCategory(rows)[i].catHeightByPosition == AddHeightCategory(rows)[j].catHeightByPosition
  {
    var w := HeightByPosition;
    assert SamePartition(w, rows[i], rows[j]);
    RankOrder(w, rows, rows[i], rows[j]);
    HeightCategoryMonotone(Rank(w, rows, rows[i]), Rank(w, rows, rows[j]));
  }

  /** Adding cat_height_by_position leaves the ranks of the player_cat window unchanged. */
  lemma AddHeightCategoryKeepsPlayerRanks(rows: seq<Row>, y: Row)
    ensures Rank(OverallByNationalityPosition, AddHeightCategory(rows), y) == Rank(OverallByNationalityPosition, rows, y)
  {
    var r := AddHeightCategory(rows);
    forall i | 0 <= i < |rows|
      ensures r[i].nationality == rows[i].nationality && r[i].teamPosition == rows[i].teamPosition
      ensures r[i].overall == rows[i].overall
    {
      assert r[i].(catHeightByPosition := rows[i].catHeightByPosition) == rows[i];
    }
    RankSameWindowColumns(OverallByNationalityPosition, r, rows, y);
  }

  /** Adds player_cat from the rank by overall descending within nationality and team_position. */
  function AddPlayerCategory(rows: seq<Row>): (r: seq<Row>)
    ensures |r| == |rows|
    ensures forall i :: 0 <= i < |rows| ==>
      r[i].playerCat == Some(PlayerCategory(Rank(OverallByNationalityPosition, rows, rows[i])))
    ensures forall i :: 0 <= i < |rows| ==>
      r[i].(playerCat := rows[i].playerCat) == rows[i]
  {
    seq(|rows|, i requires 0 <= i < |rows| =>
      rows[i].(playerCat := Some(PlayerCategory(Rank(OverallByNationalityPosition, rows, rows[i])))))
  }

  /**
   Within one nationality and team_position, a player with at least the same
   overall (nulls last) never gets a worse player category, and equal overall
   gives the same category.
   */
  lemma HigherOverallNeverWorsePlayerCategory(rows: seq<Row>, i: nat, j: nat)
    requires i < |rows| && j < |rows|
    requires rows[i].nationality == rows[j].nationality && rows[i].teamPosition == rows[j].teamPosition
    requires rows[i].overall == rows[j].overall || Before(rows[i].overall, rows[j].overall)
    ensures Grade(AddPlayerCategory(rows)[i].playerCat.value) <= Grade(AddPlayerCategory(rows)[j].playerCat.value)
    ensures rows[i].overall == rows[j].overall ==>
      AddPlayerCategory(rows)[i].playerCat == AddPlayerCategory(rows)[j].playerCat
  {
    var w := OverallByNationalityPosition;
    assert SamePartition(w, rows[i], rows[j]);
    RankOrder(w, rows, rows[i], rows[j]);
    PlayerCategoryMonotone(Rank(w, rows, rows[i]), Rank(w, rows, rows[j]));
  }

  /** A player with fewer than three rows strictly ahead of it in its partition is category A. */
  lemma TopThreeArePlayerCategoryA(rows: seq<Row>, i: nat)
    requires i < |rows|
    requires CountAhead(OverallByNationalityPosition, rows, rows[i]) < 3
    ensures AddPlayerCategory(rows)[i].playerCat == Some(A)
  {
  }

  // ---------------------------------------------------------------------------
  // Ratio
  // ---------------------------------------------------------------------------

  /** potential / overall; null when either operand is null. */
  function Ratio(potential: Option<int>, overall: Option<int>): (q: Option<real>)
    requires overall != Some(0)
    ensures q.Some? <==> potential.Some? && overall.Some?
    ensures q.Some? ==> q.value * overall.value as real == potential.value as real
  {
    if potential.Some? && overall.Some? then Some(potential.value as real / overall.value as real)
    else None
  }

  /** No row of the frame has overall equal to zero. */
  predicate NonZeroOverall(rows: seq<Row>)
  {
    forall x :: x in rows ==> x.overall != Some(0)
  }

  /** Adds potential_vs_overall. */
  function AddPotentialVsOverall(rows: seq<Row>): (r: seq<Row>)
    requires NonZeroOverall(rows)
    ensures |r| == |rows|
    ensures forall i :: 0 <= i < |rows| ==> r[i].potentialVsOverall == Ratio(rows[i].potential, rows[i].overall)
    ensures forall i :: 0 <= i < |rows| ==> r[i].(potentialVsOverall := rows[i].potentialVsOverall) == rows[i]
  {
    seq(|rows|, i requires 0 <= i < |rows| =>
      rows[i].(potentialVsOverall := Ratio(rows[i].potential, rows[i].overall)))
  }

  /** For a positive overall, the ratio passes the C and D floors exactly when potential outgrows overall by 15% and 25%. */
  lemma RatioFloorsInRatings(potential: int, overall: int)
    requires overall > 0
    ensures Ratio(Some(potential), Some(overall)).value > RatioFloorC <==> 20 * potential > 23 * overall
    ensures Ratio(Some(potential), Some(overall)).value > RatioFloorD <==> 4 * potential > 5 * overall
  {
    var p, o := potential as real, overall as real;
    assert Ratio(Some(potential), Some(overall)).value == p / o;
    DivisionComparison(p, o, 23.0, 20.0);
    DivisionComparison(p, o, 5.0, 4.0);
    assert RatioFloorC == 23.0 / 20.0 && RatioFloorD == 5.0 / 4.0;
  }

  /** p / o exceeds n / d exactly when d * p exceeds n * o, for positive o and d. */
  lemma DivisionComparison(p: real, o: real, n: real, d: real)
    requires o > 0.0 && d > 0.0
    ensures p / o > n / d <==> d * p > n * o
  {
    var q, f := p / o, n / d;
    assert q * o == p && f * d == n;
    assert q * o * d == d * p;
    assert f * d * o == n * o;
    assert q - f == (d * p - n * o) / (o * d);
    assert o * d > 0.0;
  }

  // ---------------------------------------------------------------------------
  // Filters
  // ---------------------------------------------------------------------------

  /** The maximum age (exclusive) kept when the age flag is 1. */
  const AgeLimit := 23

  datatype ConfigError = UnknownAgeFlag(flag: int)

  /**
   Flag 1 keeps the players younger than 23, flag 0 keeps everyone; any
   other flag is a configuration error.
   */
  function AgeValidation(rows: seq<Row>, flag: int): (r: Result<seq<Row>, ConfigError>)
    ensures flag == 0 ==> r == Success(rows)
    ensures flag == 1 ==> r.Success? && IsSubsequence(r.value, rows)
    ensures flag == 1 ==> forall x :: x in r.value <==> x in rows && x.age.Some? && x.age.value < 23
    ensures flag != 0 && flag != 1 ==> r == Failure(UnknownAgeFlag(flag))
  {
    if flag == 1 then Success(Where(YoungerThan(AgeLimit), rows))
    else if flag == 0 then Success(rows)
    else Failure(UnknownAgeFlag(flag))
  }

  /**
   Keeps a row whose player_cat is A or B, or C with potential_vs_overall
   above 1.15, or D with potential_vs_overall above 1.25.
   */
  function FilterPlayerCatPotentialVsOverall(rows: seq<Row>): (r: seq<Row>)
    ensures IsSubsequence(r, rows)
    ensures forall x :: x in r <==>
      (x in rows &&
        (x.playerCat == Some(A) || x.playerCat == Some(B)
         || (x.playerCat == Some(C) && x.potentialVsOverall.Some? && x.potentialVsOverall.value > 1.15)
         || (x.playerCat == Some(D) && x.potentialVsOverall.Some? && x.potentialVsOverall.value > 1.25)))
  {
    Where(CategoryRatio, rows)
  }

  lemma FilterPlayerCatPotentialVsOverallIdempotent(rows: seq<Row>)
    ensures FilterPlayerCatPotentialVsOverall(FilterPlayerCatPotentialVsOverall(rows))
         == FilterPlayerCatPotentialVsOverall(rows)
  {
    WhereIdempotent(CategoryRatio, rows);
  }

  // ---------------------------------------------------------------------------
  // Composition
  // ---------------------------------------------------------------------------

  /** The cleaned frame with player_cat and potential_vs_overall added. */
  function Enrich(rows: seq<Row>): (r: seq<Row>)
    requires NonZeroOverall(CleanData(rows))
    ensures |r| == |CleanData(rows)|
    ensures forall i :: 0 <= i < |r| ==>
      r[i].(playerCat := CleanData(rows)[i].playerCat, potentialVsOverall := CleanData(rows)[i].potentialVsOverall)
        == CleanData(rows)[i]
  {
    var cleaned := CleanData(rows);
    var categorized := AddPlayerCategory(cleaned);
    assert NonZeroOverall(categorized) by {
      forall x | x in categorized
        ensures x.overall != Some(0)
      {
        var i :| 0 <= i < |categorized| && categorized[i] == x;
        assert x.(playerCat := cleaned[i].playerCat) == cleaned[i];
        assert cleaned[i] in cleaned;
      }
    }
    AddPotentialVsOverall(categorized)
  }

  /** Every enriched row is a cleaned input row with its category and ratio filled in. */
  lemma EnrichedRowFacts(rows: seq<Row>, x: Row)
    requires NonZeroOverall(CleanData(rows)) && x in Enrich(rows)
    ensures x.shortName.Some? && x.overall.Some? && x.teamPosition.Some?
    ensures x.potentialVsOverall == Ratio(x.potential, x.overall)
    ensures x.playerCat == Some(PlayerCategory(Rank(OverallByNationalityPosition, CleanData(rows), x)))
  {
    var cleaned := CleanData(rows);
    var categorized := AddPlayerCategory(cleaned);
    var i :| 0 <= i < |Enrich(rows)| && Enrich(rows)[i] == x;
    assert x.(potentialVsOverall := categorized[i].potentialVsOverall) == categorized[i];
    assert categorized[i].(playerCat := cleaned[i].playerCat) == cleaned[i];
    assert cleaned[i] in cleaned;
    PeersShareRank(OverallByNationalityPosition, cleaned, cleaned[i], x);
  }

  /**
   clean, player_cat, potential_vs_overall, age validation, category and ratio
   filter. The output holds exactly the enriched rows that pass the category
   and ratio rule and, for flag 1, the age limit.
   */
  function Pipeline(rows: seq<Row>, flag: int): (r: Result<seq<Row>, ConfigError>)
    requires NonZeroOverall(CleanData(rows))
    ensures flag != 0 && flag != 1 ==> r == Failure(UnknownAgeFlag(flag))
    ensures flag == 0 || flag == 1 ==> r.Success? && IsSubsequence(r.value, Enrich(rows))
    ensures flag == 0 || flag == 1 ==> forall x :: x in r.value <==>
      x in Enrich(rows) && Keep(CategoryRatio, x) && (flag == 1 ==> x.age.Some? && x.age.value < AgeLimit)
  {
    var enriched := Enrich(rows);
    var validated := AgeValidation(enriched, flag);
    if validated.Failure? then Failure(validated.error)
    else
      var kept := FilterPlayerCatPotentialVsOverall(validated.value);
      assert IsSubsequence(validated.value, enriched) by {
        if flag == 0 { SubsequenceReflexive(enriched); }
      }
      SubsequenceTransitive(kept, validated.value, enriched);
      Success(kept)
  }

  /**
   Every output row has its required columns, a ratio consistent with its own
   potential and overall, the player category of its rank among ALL cleaned
   rows (the filters run after ranking), passes the category and ratio rule,
   and is under 23 when the flag is 1.
   */
  lemma PipelineRowFacts(rows: seq<Row>, flag: int)
    requires NonZeroOverall(CleanData(rows)) && (flag == 0 || flag == 1)
    ensures forall x :: x in Pipeline(rows, flag).value ==>
      && x.shortName.Some? && x.overall.Some? && x.teamPosition.Some?
      && x.potentialVsOverall == Ratio(x.potential, x.overall)
      && x.playerCat == Some(PlayerCategory(Rank(OverallByNationalityPosition, CleanData(rows), x)))
      && Keep(CategoryRatio, x)
      && (flag == 1 ==> x.age.Some? && x.age.value < AgeLimit)
  {
    var enriched := Enrich(rows);
    var selected := AgeValidation(enriched, flag).value;
    var output := Pipeline(rows, flag).value;
    assert output == FilterPlayerCatPotentialVsOverall(selected);
    SubsequenceElements(output, enriched);
    forall x | x in output
      ensures x.shortName.Some? && x.overall.Some? && x.teamPosition.Some?
      ensures x.potentialVsOverall == Ratio(x.potential, x.overall)
      ensures x.playerCat == Some(PlayerCategory(Rank(OverallByNationalityPosition, CleanData(rows), x)))
      ensures Keep(CategoryRatio, x)
      ensures flag == 1 ==> x.age.Some? && x.age.value < AgeLimit
    {
      assert x in selected;
      EnrichedRowFacts(rows, x);
    }
  }

  /** With flag 1 the result is the flag-0 result restricted to players under 23. */
  lemma AgeFlagOnlyNarrows(rows: seq<Row>)
    requires NonZeroOverall(CleanData(rows))
    ensures Pipeline(rows, 1).value == Where(YoungerThan(AgeLimit), Pipeline(rows, 0).value)
  {
    WhereCommutes(CategoryRatio, YoungerThan(AgeLimit), Enrich(rows));
  }
}
