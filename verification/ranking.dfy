/**
 Competition ranking over a window: rows are grouped by partition columns and
 ordered by one column, descending with nulls last. A row's rank is one more
 than the number of rows of its partition that sort strictly before it, so
 peers share a rank and the next distinct value skips past them.
 */
module Ranking {
  import opened Wrappers
  import opened Players

  /** The two windows of the transformer. */
  datatype Window =
    | HeightByPosition             // partition by team_position, order by height_cm desc
    | OverallByNationalityPosition // partition by nationality and team_position, order by overall desc

  /** Values of the partition columns; null partition values group together. */
  function PartitionKey(w: Window, r: Row): seq<Option<string>>
  {
    match w
    case HeightByPosition => [r.teamPosition]
    case OverallByNationalityPosition => [r.nationality, r.teamPosition]
  }

  /** Value of the order column. */
  function OrderKey(w: Window, r: Row): Option<int>
  {
    match w
    case HeightByPosition => r.heightCm
    case OverallByNationalityPosition => r.overall
  }

  /** `a` sorts strictly before `b` in descending order with nulls last. */
  predicate Before(a: Option<int>, b: Option<int>)
  {
    a.Some? && (b.None? || a.value > b.value)
  }

  predicate SamePartition(w: Window, x: Row, y: Row)
  {
    PartitionKey(w, x) == PartitionKey(w, y)
  }

  /** `x` is in `y`'s partition and sorts strictly before it. */
  predicate Ahead(w: Window, x: Row, y: Row)
  {
    SamePartition(w, x, y) && Before(OrderKey(w, x), OrderKey(w, y))
  }

  /** Number of rows of `rows` that are ahead of `y`. */
  function CountAhead(w: Window, rows: seq<Row>, y: Row): nat
  {
    if |rows| == 0 then 0
    else (if Ahead(w, rows[0], y) then 1 else 0) + CountAhead(w, rows[1..], y)
  }

  /** Number of rows of `rows` in `y`'s partition. */
  function PartitionSize(w: Window, rows: seq<Row>, y: Row): (n: nat)
    ensures n <= |rows|
  {
    if |rows| == 0 then 0
    else (if SamePartition(w, rows[0], y) then 1 else 0) + PartitionSize(w, rows[1..], y)
  }

  /** The competition rank of `y` among `rows` in window `w`. */
  function Rank(w: Window, rows: seq<Row>, y: Row): (k: nat)
    ensures 1 <= k
    ensures y in rows ==> k <= PartitionSize(w, rows, y)
  {
    CountAheadBelowPartitionSize(w, rows, y);
    1 + CountAhead(w, rows, y)
  }

  /** Only rows of `y`'s partition other than `y` itself can be ahead of it. */
  lemma {:induction false} CountAheadBelowPartitionSize(w: Window, rows: seq<Row>, y: Row)
    ensures CountAhead(w, rows, y) + (if y in rows then 1 else 0) <= PartitionSize(w, rows, y)
  {
    if |rows| > 0 {
      CountAheadBelowPartitionSize(w, rows[1..], y);
      assert y in rows <==> rows[0] == y || y in rows[1..] by {
        assert rows == [rows[0]] + rows[1..];
      }
    }
  }

  /** Two rows with the same partition and order values are ahead of no different rows. */
  lemma {:induction false} CountAheadOfPeers(w: Window, rows: seq<Row>, y: Row, z: Row)
    requires SamePartition(w, y, z) && OrderKey(w, y) == OrderKey(w, z)
    ensures CountAhead(w, rows, y) == CountAhead(w, rows, z)
  {
    if |rows| > 0 {
      CountAheadOfPeers(w, rows[1..], y, z);
    }
  }

  /** Everything ahead of `y` is ahead of `z` when `y` is ahead of `z`, and so is `y` itself. */
  lemma {:induction false} CountAheadGrows(w: Window, rows: seq<Row>, y: Row, z: Row)
    requires Ahead(w, y, z)
    ensures CountAhead(w, rows, y) + (if y in rows then 1 else 0) <= CountAhead(w, rows, z)
  {
    if |rows| > 0 {
      CountAheadGrows(w, rows[1..], y, z);
      assert y in rows <==> rows[0] == y || y in rows[1..] by {
        assert rows == [rows[0]] + rows[1..];
      }
    }
  }

  /**
   Within one partition the rank order is exactly the sort order: equal order
   values get equal ranks and a value that sorts strictly first gets a
   strictly smaller rank.
   */
  lemma RankOrder(w: Window, rows: seq<Row>, y: Row, z: Row)
    requires y in rows && z in rows && SamePartition(w, y, z)
    ensures Rank(w, rows, y) == Rank(w, rows, z) <==> OrderKey(w, y) == OrderKey(w, z)
    ensures Rank(w, rows, y) < Rank(w, rows, z) <==> Before(OrderKey(w, y), OrderKey(w, z))
  {
    var a, b := OrderKey(w, y), OrderKey(w, z);
    if a == b {
      CountAheadOfPeers(w, rows, y, z);
    } else if Before(a, b) {
      CountAheadGrows(w, rows, y, z);
    } else {
      CountAheadGrows(w, rows, z, y);
    }
  }

  /** A row's rank only depends on its partition and order values. */
  lemma PeersShareRank(w: Window, rows: seq<Row>, y: Row, z: Row)
    requires SamePartition(w, y, z) && OrderKey(w, y) == OrderKey(w, z)
    ensures Rank(w, rows, y) == Rank(w, rows, z)
  {
    CountAheadOfPeers(w, rows, y, z);
  }

  lemma {:induction false} CountAheadConcat(w: Window, a: seq<Row>, b: seq<Row>, y: Row)
    ensures CountAhead(w, a + b, y) == CountAhead(w, a, y) + CountAhead(w, b, y)
  {
    if |a| == 0 {
      assert a + b == b;
    } else {
      assert (a + b)[1..] == a[1..] + b;
      CountAheadConcat(w, a[1..], b, y);
    }
  }

  /** Removing the row at position `k` removes exactly its own contribution. */
  lemma CountAheadRemoveAt(w: Window, rows: seq<Row>, k: nat, y: Row)
    requires k < |rows|
    ensures CountAhead(w, rows, y)
         == CountAhead(w, rows[..k] + rows[k + 1..], y) + (if Ahead(w, rows[k], y) then 1 else 0)
  {
    var before, after := rows[..k], rows[k + 1..];
    assert rows == before + [rows[k]] + after;
    CountAheadConcat(w, before + [rows[k]], after, y);
    CountAheadConcat(w, before, [rows[k]], y);
    CountAheadConcat(w, before, after, y);
  }

  lemma MultisetRemoveAt<T>(s: seq<T>, k: nat)
    requires k < |s|
    ensures multiset(s[..k] + s[k + 1..]) == multiset(s) - multiset{s[k]}
  {
    assert s == s[..k] + [s[k]] + s[k + 1..];
  }

  lemma {:induction false} CountAheadPermutation(w: Window, rows: seq<Row>, rows': seq<Row>, y: Row)
    requires multiset(rows) == multiset(rows')
    ensures CountAhead(w, rows, y) == CountAhead(w, rows', y)
    decreases |rows|
  {
    if |rows| == 0 {
      assert |multiset(rows')| == 0;
    } else {
      var h := rows[0];
      assert h in multiset(rows') by {
        assert rows == [h] + rows[1..];
      }
      var k :| 0 <= k < |rows'| && rows'[k] == h;
      MultisetRemoveAt(rows, 0);
      MultisetRemoveAt(rows', k);
      assert rows[..0] + rows[1..] == rows[1..];
      CountAheadPermutation(w, rows[1..], rows'[..k] + rows'[k + 1..], y);
      CountAheadRemoveAt(w, rows', k, y);
    }
  }

  /** Ranks do not depend on the order in which the rows arrive. */
  lemma RankIgnoresRowOrder(w: Window, rows: seq<Row>, rows': seq<Row>, y: Row)
    requires multiset(rows) == multiset(rows')
    ensures Rank(w, rows, y) == Rank(w, rows', y)
  {
    CountAheadPermutation(w, rows, rows', y);
  }

  /** Frames whose rows agree, position by position, on the window's columns. */
  predicate SameWindowColumns(w: Window, a: seq<Row>, b: seq<Row>)
  {
    |a| == |b| &&
    forall i :: 0 <= i < |a| ==> SamePartition(w, a[i], b[i]) && OrderKey(w, a[i]) == OrderKey(w, b[i])
  }

  lemma {:induction false} CountAheadSameWindowColumns(w: Window, a: seq<Row>, b: seq<Row>, y: Row)
    requires SameWindowColumns(w, a, b)
    ensures CountAhead(w, a, y) == CountAhead(w, b, y)
  {
    if |a| > 0 {
      CountAheadSameWindowColumns(w, a[1..], b[1..], y);
    }
  }

  /** Changing columns outside the window leaves every rank unchanged. */
  lemma RankSameWindowColumns(w: Window, a: seq<Row>, b: seq<Row>, y: Row)
    requires SameWindowColumns(w, a, b)
    ensures Rank(w, a, y) == Rank(w, b, y)
  {
    CountAheadSameWindowColumns(w, a, b, y);
  }
}
