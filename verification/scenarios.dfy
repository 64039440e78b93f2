/** Concrete frames that pin the ranking, the thresholds and the filters to specific values. */
module Scenarios {
  import opened Wrappers
  import opened Players
  import opened Ranking
  import opened Filters
  import opened Transformer

  /** A complete player row with no derived column. */
  function Player(name: string, nationality: string, position: string, age: int, height: int,
                  overall: int, potential: int): Row
  {
    NullRow.(shortName := Some(name), nationality := Some(nationality), teamPosition := Some(position),
             age := Some(age), heightCm := Some(height), overall := Some(overall), potential := Some(potential))
  }

  /** Heights 190, 190, 180, 170 in one position rank 1, 1, 3, 4: the tie shares rank 1 and rank 2 is skipped. */
  lemma CompetitionRankExample()
    ensures var rows := [Player("a", "ESP", "CB", 20, 190, 80, 80), Player("b", "ESP", "CB", 20, 190, 80, 80),
                         Player("c", "ESP", "CB", 20, 180, 80, 80), Player("d", "ESP", "CB", 20, 170, 80, 80)];
      && Rank(HeightByPosition, rows, rows[0]) == 1
      && Rank(HeightByPosition, rows, rows[1]) == 1
      && Rank(HeightByPosition, rows, rows[2]) == 3
      && Rank(HeightByPosition, rows, rows[3]) == 4
  {
    var rows := [Player("a", "ESP", "CB", 20, 190, 80, 80), Player("b", "ESP", "CB", 20, 190, 80, 80),
                 Player("c", "ESP", "CB", 20, 180, 80, 80), Player("d", "ESP", "CB", 20, 170, 80, 80)];
    var w := HeightByPosition;
    assert rows[1..][1..][1..][1..] == [];
    assert CountAhead(w, rows, rows[3]) == 3;
    assert CountAhead(w, rows, rows[2]) == 2;
    assert CountAhead(w, rows, rows[0]) == 0;
    assert CountAhead(w, rows, rows[1]) == 0;
  }

  /** The literal height thresholds at their boundaries: A only goes to ranks 1 to 9, B to ranks 10 to 49. */
  lemma HeightThresholdExamples()
    ensures HeightCategory(1) == A && HeightCategory(9) == A
    ensures HeightCategory(10) == B && HeightCategory(49) == B
    ensures HeightCategory(50) == C
  {
  }

  /** The player thresholds at their boundaries. */
  lemma PlayerThresholdExamples()
    ensures PlayerCategory(3) == A && PlayerCategory(4) == B && PlayerCategory(5) == B
    ensures PlayerCategory(6) == C && PlayerCategory(10) == C && PlayerCategory(11) == D
  {
  }

  lemma RatioExample()
    ensures Ratio(Some(90), Some(80)) == Some(1.125)
  {
  }

  /** The ratio floors are strict: exactly 1.15 for C and exactly 1.25 for D are dropped. */
  lemma CategoryRatioExamples()
    ensures Keep(CategoryRatio, NullRow.(playerCat := Some(C), potentialVsOverall := Some(1.16)))
    ensures !Keep(CategoryRatio, NullRow.(playerCat := Some(C), potentialVsOverall := Some(1.15)))
    ensures !Keep(CategoryRatio, NullRow.(playerCat := Some(D), potentialVsOverall := Some(1.25)))
    ensures Keep(CategoryRatio, NullRow.(playerCat := Some(D), potentialVsOverall := Some(1.26)))
    ensures Keep(CategoryRatio, NullRow.(playerCat := Some(B)))
    ensures !Keep(CategoryRatio, NullRow.(playerCat := Some(C)))
    ensures !Keep(CategoryRatio, NullRow.(potentialVsOverall := Some(2.0)))
  {
  }

  /**
   In a frame of at most three complete players every player ranks in the top
   three of its nationality and position, so everyone is category A and the
   flag-0 pipeline keeps every row.
   */
  lemma AtMostThreePlayersAllKept(rows: seq<Row>)
    requires |rows| <= 3 && NonZeroOverall(rows)
    requires forall x :: x in rows ==> x.shortName.Some? && x.overall.Some? && x.teamPosition.Some?
    ensures Pipeline(rows, 0).Success? && |Pipeline(rows, 0).value| == |rows|
    ensures forall x :: x in Pipeline(rows, 0).value ==> x.playerCat == Some(A)
  {
    CleanDataKeepsCompleteFrame(rows);
    var categorized := AddPlayerCategory(rows);
    var enriched := AddPotentialVsOverall(categorized);
    assert Enrich(rows) == enriched;
    forall x | x in enriched
      ensures x.playerCat == Some(A)
    {
      var i :| 0 <= i < |enriched| && enriched[i] == x;
      assert rows[i] in rows;
      assert x.playerCat == categorized[i].playerCat;
    }
    WhereAllKept(CategoryRatio, enriched);
    assert Pipeline(rows, 0) == Success(Where(CategoryRatio, enriched));
  }

  /**
   Three Brazilian strikers with overall 90, 85 and 80 are all category A and
   all pass the final filter whatever their ratio.
   */
  lemma StrikersExample()
    ensures var rows := [Player("x", "BRA", "ST", 30, 180, 90, 95), Player("y", "BRA", "ST", 30, 180, 85, 90),
                         Player("z", "BRA", "ST", 30, 180, 80, 100)];
      && Pipeline(rows, 0).Success?
      && |Pipeline(rows, 0).value| == 3
      && (forall x :: x in Pipeline(rows, 0).value ==> x.playerCat == Some(A))
  {
    var rows := [Player("x", "BRA", "ST", 30, 180, 90, 95), Player("y", "BRA", "ST", 30, 180, 85, 90),
                 Player("z", "BRA", "ST", 30, 180, 80, 100)];
    AtMostThreePlayersAllKept(rows);
  }
}
