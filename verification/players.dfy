/**
 The player record that flows through the pipeline, the category labels of
 the derived columns, and the two column projections of the transformer.
 */
module Players {
  import opened Wrappers

  /** Labels of the two rank-derived category columns; A is the best. */
  datatype Cat = A | B | C | D

  /** Position of a label in the order A, B, C, D: a smaller grade is a better category. */
  function Grade(c: Cat): nat
  {
    match c
    case A => 0
    case B => 1
    case C => 2
    case D => 3
  }

  /**
   One player. Every column is nullable. The first ten are read from the
   input file; `catHeightByPosition` (cat_height_by_position), `playerCat`
   (player_cat) and `potentialVsOverall` (potential_vs_overall) are added
   by the pipeline.
   */
  datatype Row = Row(
    shortName: Option<string>,
    longName: Option<string>,
    age: Option<int>,
    heightCm: Option<int>,
    weightKg: Option<int>,
    nationality: Option<string>,
    clubName: Option<string>,
    overall: Option<int>,
    potential: Option<int>,
    teamPosition: Option<string>,
    catHeightByPosition: Option<Cat>,
    playerCat: Option<Cat>,
    potentialVsOverall: Option<real>)
  {
    /** The five columns kept by the first projection. */
    function HeightColumns(): HeightView
    {
      HeightView(shortName, overall, heightCm, teamPosition, catHeightByPosition)
    }

    /** The ten input columns kept by the second projection. */
    function PlayerColumns(): PlayerView
    {
      PlayerView(shortName, longName, age, heightCm, weightKg, nationality, clubName, overall, potential, teamPosition)
    }
  }

  /** A row with every column null. */
  const NullRow := Row(None, None, None, None, None, None, None, None, None, None, None, None, None)

  /** short_name, overall, height_cm, team_position and cat_height_by_position. */
  datatype HeightView = HeightView(
    shortName: Option<string>,
    overall: Option<int>,
    heightCm: Option<int>,
    teamPosition: Option<string>,
    catHeightByPosition: Option<Cat>)
  {
    /** The row holding these five values and null everywhere else. */
    function ToRow(): (r: Row)
      ensures r.HeightColumns() == this
      ensures r.nationality.None? && r.age.None? && r.potential.None?
    {
      NullRow.(shortName := shortName, overall := overall, heightCm := heightCm,
               teamPosition := teamPosition, catHeightByPosition := catHeightByPosition)
    }
  }

  /** The ten input columns, without any derived column. */
  datatype PlayerView = PlayerView(
    shortName: Option<string>,
    longName: Option<string>,
    age: Option<int>,
    heightCm: Option<int>,
    weightKg: Option<int>,
    nationality: Option<string>,
    clubName: Option<string>,
    overall: Option<int>,
    potential: Option<int>,
    teamPosition: Option<string>)
  {
    /** The row holding these ten values with every derived column null. */
    function ToRow(): (r: Row)
      ensures r.PlayerColumns() == this
      ensures r.catHeightByPosition.None? && r.playerCat.None? && r.potentialVsOverall.None?
    {
      Row(shortName, longName, age, heightCm, weightKg, nationality, clubName, overall, potential, teamPosition,
          None, None, None)
    }
  }
}
