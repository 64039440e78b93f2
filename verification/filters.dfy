/**
 Row filters. A row is kept only when its condition evaluates to true under
 SQL three-valued logic: a comparison with a null column is not true, so the
 row is dropped.
 */
module Filters {
  import opened Wrappers
  import opened Players
  import opened Sequences

  /** The conditions the transformer filters on. */
  datatype Criterion =
    | RequiredPresent       // short_name, overall and team_position are not null
    | YoungerThan(limit: int) // age < limit
    | CategoryRatio         // player_cat with potential_vs_overall

  /** Lower bounds (exclusive) that potential_vs_overall must pass for categories C and D. */
  const RatioFloorC: real := 1.15
  const RatioFloorD: real := 1.25

  predicate Keep(c: Criterion, r: Row)
  {
    match c
    case RequiredPresent =>
      // short_name is checked twice and height_cm not at all, as in the source
      r.shortName.Some? && r.shortName.Some? && r.overall.Some? && r.teamPosition.Some?
    case YoungerThan(limit) =>
      r.age.Some? && r.age.value < limit
    case CategoryRatio =>
      r.playerCat == Some(A) || r.playerCat == Some(B)
      || (r.playerCat == Some(C) && r.potentialVsOverall.Some? && r.potentialVsOverall.value > RatioFloorC)
      || (r.playerCat == Some(D) && r.potentialVsOverall.Some? && r.potentialVsOverall.value > RatioFloorD)
  }

  /** The rows satisfying `c`, in their original order. */
  function Where(c: Criterion, rows: seq<Row>): (r: seq<Row>)
    ensures IsSubsequence(r, rows)
    ensures forall x :: x in r <==> x in rows && Keep(c, x)
  {
    if |rows| == 0 then []
    else
      assert rows == [rows[0]] + rows[1..];
      var rest := Where(c, rows[1..]);
      if Keep(c, rows[0]) then
        assert ([rows[0]] + rest)[1..] == rest;
        [rows[0]] + rest
      else
        rest
  }

  /** Every kept row keeps its multiplicity, and nothing else is kept. */
  lemma {:induction false} WhereCounts(c: Criterion, rows: seq<Row>)
    ensures forall x :: multiset(Where(c, rows))[x] == if Keep(c, x) then multiset(rows)[x] else 0
  {
    if |rows| > 0 {
      assert rows == [rows[0]] + rows[1..];
      WhereCounts(c, rows[1..]);
    }
  }

  /** Filtering rows that all satisfy the condition returns them unchanged. */
  lemma {:induction false} WhereAllKept(c: Criterion, rows: seq<Row>)
    requires forall x :: x in rows ==> Keep(c, x)
    ensures Where(c, rows) == rows
  {
    if |rows| > 0 {
      assert rows == [rows[0]] + rows[1..];
      WhereAllKept(c, rows[1..]);
    }
  }

  /** Applying a filter twice equals applying it once. */
  lemma {:induction false} WhereIdempotent(c: Criterion, rows: seq<Row>)
    ensures Where(c, Where(c, rows)) == Where(c, rows)
  {
    WhereAllKept(c, Where(c, rows));
  }

  /** Two filters give the same rows in either order. */
  lemma {:induction false} WhereCommutes(c1: Criterion, c2: Criterion, rows: seq<Row>)
    ensures Where(c1, Where(c2, rows)) == Where(c2, Where(c1, rows))
  {
    if |rows| > 0 {
      var h, t := rows[0], rows[1..];
      WhereCommutes(c1, c2, t);
      if Keep(c1, h) && Keep(c2, h) {
        assert Where(c1, [h] + Where(c2, t)) == [h] + Where(c1, Where(c2, t)) by {
          assert ([h] + Where(c2, t))[1..] == Where(c2, t);
        }
        assert Where(c2, [h] + Where(c1, t)) == [h] + Where(c2, Where(c1, t)) by {
          assert ([h] + Where(c1, t))[1..] == Where(c1, t);
        }
      } else if Keep(c2, h) {
        assert ([h] + Where(c2, t))[1..] == Where(c2, t);
      } else if Keep(c1, h) {
        assert ([h] + Where(c1, t))[1..] == Where(c1, t);
      }
    }
  }
}
