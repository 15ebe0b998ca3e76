/**
 * The order of a history read, shared by both record tables: newest `requested_at` first,
 * ties broken by the larger `id`. A row without a timestamp sorts as the oldest.
 */
module Recency {
  import opened Wrappers

  datatype Stamp = Stamp(requestedAt: Option<int>, id: int)

  /** `a` is strictly more recent than `b` in the `requested_at DESC, id DESC` order. */
  predicate NewerThan(a: Stamp, b: Stamp) {
    if a.requestedAt == b.requestedAt then a.id > b.id
    else a.requestedAt.Some? && (b.requestedAt.None? || a.requestedAt.value > b.requestedAt.value)
  }

  /** `a` may stand before `b` in a history read. */
  predicate AtLeastAsNew(a: Stamp, b: Stamp) {
    !NewerThan(b, a)
  }

  lemma NewerThanTotal(a: Stamp, b: Stamp)
    ensures a == b || NewerThan(a, b) || NewerThan(b, a)
  {
  }

  lemma AtLeastAsNewTransitive(a: Stamp, b: Stamp, c: Stamp)
    requires AtLeastAsNew(a, b) && AtLeastAsNew(b, c)
    ensures AtLeastAsNew(a, c)
  {
  }

  /** Every row stands no later than the rows after it. */
  ghost predicate SortedNewestFirst<R>(s: seq<R>, stamp: R -> Stamp) {
    forall i, j :: 0 <= i < j < |s| ==> AtLeastAsNew(stamp(s[i]), stamp(s[j]))
  }

  /** Inserts `x` into a list already in history order. */
  function InsertByRecency<R>(x: R, sorted: seq<R>, stamp: R -> Stamp): seq<R> {
    if sorted == [] || AtLeastAsNew(stamp(x), stamp(sorted[0])) then [x] + sorted
    else [sorted[0]] + InsertByRecency(x, sorted[1..], stamp)
  }

  /** All rows in history order: `ORDER BY requested_at DESC, id DESC`. */
  function NewestFirst<R>(rows: seq<R>, stamp: R -> Stamp): seq<R> {
    if rows == [] then [] else InsertByRecency(rows[0], NewestFirst(rows[1..], stamp), stamp)
  }

  lemma {:induction false} InsertByRecencyMultiset<R>(x: R, sorted: seq<R>, stamp: R -> Stamp)
    ensures multiset(InsertByRecency(x, sorted, stamp)) == multiset(sorted) + multiset{x}
  {
    if !(sorted == [] || AtLeastAsNew(stamp(x), stamp(sorted[0]))) {
      InsertByRecencyMultiset(x, sorted[1..], stamp);
      assert sorted == [sorted[0]] + sorted[1..];
    }
  }

  lemma {:induction false} InsertByRecencySorted<R>(x: R, sorted: seq<R>, stamp: R -> Stamp)
    requires SortedNewestFirst(sorted, stamp)
    ensures SortedNewestFirst(InsertByRecency(x, sorted, stamp), stamp)
  {
    var r := InsertByRecency(x, sorted, stamp);
    if sorted == [] || AtLeastAsNew(stamp(x), stamp(sorted[0])) {
      forall i, j | 0 <= i < j < |r| ensures AtLeastAsNew(stamp(r[i]), stamp(r[j])) {
        if i == 0 && j > 1 {
          AtLeastAsNewTransitive(stamp(x), stamp(sorted[0]), stamp(sorted[j - 1]));
        }
      }
    } else {
      var tail := sorted[1..];
      InsertByRecencySorted(x, tail, stamp);
      InsertByRecencyMultiset(x, tail, stamp);
      var t := InsertByRecency(x, tail, stamp);
      assert r == [sorted[0]] + t;
      NewerThanTotal(stamp(x), stamp(sorted[0]));
      forall k | 0 <= k < |t| ensures AtLeastAsNew(stamp(sorted[0]), stamp(t[k])) {
        assert t[k] in multiset(t);
        if t[k] != x {
          assert t[k] in multiset(tail);
          var m :| 0 <= m < |tail| && tail[m] == t[k];
          assert sorted[m + 1] == t[k];
        }
      }
    }
  }

  /** History order is a permutation of the table, and it is sorted. */
  lemma {:induction false} NewestFirstCorrect<R>(rows: seq<R>, stamp: R -> Stamp)
    ensures multiset(NewestFirst(rows, stamp)) == multiset(rows)
    ensures |NewestFirst(rows, stamp)| == |rows|
    ensures SortedNewestFirst(NewestFirst(rows, stamp), stamp)
  {
    var r := NewestFirst(rows, stamp);
    if rows != [] {
      var tail := NewestFirst(rows[1..], stamp);
      NewestFirstCorrect(rows[1..], stamp);
      InsertByRecencyMultiset(rows[0], tail, stamp);
      InsertByRecencySorted(rows[0], tail, stamp);
      assert r == InsertByRecency(rows[0], tail, stamp);
      assert multiset(rows) == multiset(rows[1..]) + multiset{rows[0]} by {
        assert rows == [rows[0]] + rows[1..];
      }
    }
    assert |r| == |multiset(r)|;
  }

  /** The first `limit` rows in history order (`LIMIT #{limit}`). */
  function Recent<R>(rows: seq<R>, limit: nat, stamp: R -> Stamp): seq<R> {
    var sorted := NewestFirst(rows, stamp);
    if limit < |sorted| then sorted[..limit] else sorted
  }

  /** A history read returns at most `limit` rows, all from the table, newest first, and no row
      left out is newer than a row returned. */
  lemma RecentIsTopK<R>(rows: seq<R>, limit: nat, stamp: R -> Stamp)
    ensures |Recent(rows, limit, stamp)| == if limit < |rows| then limit else |rows|
    ensures multiset(Recent(rows, limit, stamp)) <= multiset(rows)
    ensures SortedNewestFirst(Recent(rows, limit, stamp), stamp)
    ensures forall x, y :: x in multiset(rows) - multiset(Recent(rows, limit, stamp)) && y in Recent(rows, limit, stamp)
              ==> AtLeastAsNew(stamp(y), stamp(x))
  {
    var sorted := NewestFirst(rows, stamp);
    NewestFirstCorrect(rows, stamp);
    var r := Recent(rows, limit, stamp);
    var n := |r|;
    assert r == sorted[..n];
    assert sorted == r + sorted[n..];
    assert multiset(rows) - multiset(r) == multiset(sorted[n..]);
    SortedPrefixIsNewest(sorted, n, stamp);
  }

  /** In a list in history order, every row of a prefix is at least as new as every row after
      it. */
  lemma SortedPrefixIsNewest<R>(sorted: seq<R>, n: nat, stamp: R -> Stamp)
    requires n <= |sorted| && SortedNewestFirst(sorted, stamp)
    ensures SortedNewestFirst(sorted[..n], stamp)
    ensures forall x, y :: x in multiset(sorted[n..]) && y in sorted[..n] ==> AtLeastAsNew(stamp(y), stamp(x))
  {
    var r, rest := sorted[..n], sorted[n..];
    forall x, y | x in multiset(rest) && y in r
      ensures AtLeastAsNew(stamp(y), stamp(x))
    {
      var j :| 0 <= j < |rest| && rest[j] == x;
      var i :| 0 <= i < n && r[i] == y;
      assert sorted[i] == y && sorted[n + j] == x;
    }
  }

  /** A row strictly newer than every other row of the table heads every history read. */
  lemma NewestHeadsRecent<R>(rows: seq<R>, x: R, limit: nat, stamp: R -> Stamp)
    requires x in rows && limit >= 1
    requires forall y :: y in rows && y != x ==> NewerThan(stamp(x), stamp(y))
    ensures |Recent(rows, limit, stamp)| >= 1 && Recent(rows, limit, stamp)[0] == x
  {
    var sorted := NewestFirst(rows, stamp);
    NewestFirstCorrect(rows, stamp);
    assert x in multiset(sorted);
    var k :| 0 <= k < |sorted| && sorted[k] == x;
    assert sorted[0] in multiset(rows);
    assert k == 0 || AtLeastAsNew(stamp(sorted[0]), stamp(sorted[k]));
  }
}
