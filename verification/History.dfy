/**
 The granularity of a metrics history (packages/server/src/history.ts): raw up to MAX_POINTS
 rows; past it, the last row of each bucket. Times are in milliseconds.
 */
module History {
  import opened Wrappers

  const MAX_POINTS := 360

  datatype Row = Row(at: int, reading: int)

  function CeilDiv(n: int, d: nat): int
    requires d > 0
  {
    (n + d - 1) / d
  }

  function ResolveBucketSeconds(rawCount: nat, start: int, end: int): Option<nat> {
    if rawCount <= MAX_POINTS then None
    else if CeilDiv(end - start, 1000 * MAX_POINTS) >= 1 then Some(CeilDiv(end - start, 1000 * MAX_POINTS))
    else Some(1)
  }

  function BucketIndex(at: int, start: int, width: nat): int
    requires width > 0
  {
    (at - start) / (width * 1000)
  }

  /** Bucket b is the width's whole seconds from the b-th multiple of it after the start, its end excluded. */
  lemma BucketMeans(at: int, start: int, width: nat, b: int)
    requires width > 0
    ensures BucketIndex(at, start, width) == b <==>
      start + b * (width * 1000) <= at < start + b * (width * 1000) + width * 1000
  {
    var d, x := width * 1000, at - start;
    assert x == d * (x / d) + x % d;
    if b * d <= x < b * d + d {
      if x / d < b { Steps(d, x / d + 1, b); }
      if x / d > b { Steps(d, b + 1, x / d); }
    }
  }

  lemma Steps(d: nat, a: int, b: int)
    requires a <= b
    ensures d * a <= d * b
  {
  }

  /** Up to 360 rows are answered raw; past that, in the narrowest whole seconds that cover the window in 360. */
  lemma NarrowestWidth(rawCount: nat, start: int, end: int)
    ensures ResolveBucketSeconds(rawCount, start, end) == None <==> rawCount <= 360
    ensures rawCount > 360 ==>
      var w := ResolveBucketSeconds(rawCount, start, end).value;
      && w >= 1 && end - start <= w * 360000
      && forall v: nat :: v >= 1 && end - start <= v * 360000 ==> w <= v
  {
  }

  /** `row` is the last of `rows` in its bucket. */
  ghost predicate IsLast(row: Row, rows: seq<Row>, start: int, width: nat)
    requires width > 0
  {
    exists p :: 0 <= p < |rows| && rows[p] == row &&
      forall q :: p < q < |rows| ==> BucketIndex(rows[q].at, start, width) != BucketIndex(row.at, start, width)
  }

  ghost predicate Has(rows: seq<Row>, start: int, width: nat, b: int)
    requires width > 0
  {
    exists p :: 0 <= p < |rows| && BucketIndex(rows[p].at, start, width) == b
  }

  ghost predicate StrictlyAscending(rows: seq<Row>, start: int, width: nat)
    requires width > 0
  {
    forall i, j :: 0 <= i < j < |rows| ==> BucketIndex(rows[i].at, start, width) < BucketIndex(rows[j].at, start, width)
  }

  /** One point per bucket that has a row, its last row whole, in the order of the buckets. */
  ghost predicate Bucketed(r: seq<Row>, rows: seq<Row>, start: int, width: nat)
    requires width > 0
  {
    && StrictlyAscending(r, start, width)
    && (forall i :: 0 <= i < |r| ==> IsLast(r[i], rows, start, width))
    && (forall p :: 0 <= p < |rows| ==> Has(r, start, width, BucketIndex(rows[p].at, start, width)))
  }

  lemma NotEmpty(s: set<int>)
    ensures s == {} || exists x :: x in s
  {
    if forall x :: x !in s { assert s == {}; }
  }

  method Least(s: set<int>) returns (m: int)
    requires s != {}
    ensures m in s && forall x :: x in s ==> m <= x
  {
    NotEmpty(s);
    m :| m in s;
    var todo := s - {m};
    while todo != {}
      invariant todo <= s && m in s
      invariant forall x :: x in s && x !in todo ==> m <= x
      decreases todo
    {
      NotEmpty(todo);
      var x :| x in todo;
      todo := todo - {x};
      if x < m { m := x; }
    }
  }

  lemma LaterRow(rows: seq<Row>, i: nat, start: int, width: nat, kept: Row)
    requires width > 0 && i < |rows| && IsLast(kept, rows[..i], start, width)
    ensures BucketIndex(kept.at, start, width) != BucketIndex(rows[i].at, start, width) ==>
              IsLast(kept, rows[..i + 1], start, width)
  {
    var p :| 0 <= p < i && rows[..i][p] == kept &&
      forall q :: p < q < i ==> BucketIndex(rows[..i][q].at, start, width) != BucketIndex(kept.at, start, width);
    assert rows[..i + 1][p] == kept;
    if BucketIndex(kept.at, start, width) != BucketIndex(rows[i].at, start, width) {
      var now := rows[..i + 1];
      forall q | p < q < i + 1 ensures BucketIndex(now[q].at, start, width) != BucketIndex(kept.at, start, width) {
        if q < i { assert now[q] == rows[..i][q]; }
      }
    }
  }

  /** A later row overwrites its bucket. */
  method Fill(rows: seq<Row>, start: int, width: nat) returns (buckets: map<int, Row>)
    requires width > 0
    ensures forall b :: b in buckets ==>
              BucketIndex(buckets[b].at, start, width) == b && IsLast(buckets[b], rows, start, width)
    ensures forall p :: 0 <= p < |rows| ==> BucketIndex(rows[p].at, start, width) in buckets
  {
    buckets := map[];
    for i := 0 to |rows|
      invariant forall b :: b in buckets ==>
        BucketIndex(buckets[b].at, start, width) == b && IsLast(buckets[b], rows[..i], start, width)
      invariant forall p :: 0 <= p < i ==> BucketIndex(rows[p].at, start, width) in buckets
    {
      var b := BucketIndex(rows[i].at, start, width);
      forall c | c in buckets && c != b ensures IsLast(buckets[c], rows[..i + 1], start, width) {
        LaterRow(rows, i, start, width, buckets[c]);
      }
      assert rows[..i + 1][i] == rows[i];
      assert IsLast(rows[i], rows[..i + 1], start, width);
      buckets := buckets[b := rows[i]];
    }
    assert rows[..|rows|] == rows;
  }

  /** The points so far: of buckets below every one that is left, and of all the others. */
  ghost predicate Emitted(r: seq<Row>, buckets: map<int, Row>, todo: set<int>, rows: seq<Row>, start: int, width: nat)
    requires width > 0
  {
    && StrictlyAscending(r, start, width)
    && (forall i :: 0 <= i < |r| ==> IsLast(r[i], rows, start, width))
    && (forall i, b :: 0 <= i < |r| && b in todo ==> BucketIndex(r[i].at, start, width) < b)
    && (forall b :: b in buckets.Keys - todo ==> Has(r, start, width, b))
  }

  lemma HasMore(r: seq<Row>, row: Row, start: int, width: nat, b: int)
    requires width > 0
    ensures Has(r, start, width, b) || BucketIndex(row.at, start, width) == b ==> Has(r + [row], start, width, b)
  {
    if Has(r, start, width, b) {
      var p :| 0 <= p < |r| && BucketIndex(r[p].at, start, width) == b;
      assert (r + [row])[p] == r[p];
    } else {
      assert (r + [row])[|r|] == row;
    }
  }

  lemma Emit(r: seq<Row>, buckets: map<int, Row>, todo: set<int>, rows: seq<Row>, start: int, width: nat, b: int)
    requires width > 0 && Emitted(r, buckets, todo, rows, start, width)
    requires b in todo && b in buckets && forall x :: x in todo ==> b <= x
    requires BucketIndex(buckets[b].at, start, width) == b && IsLast(buckets[b], rows, start, width)
    ensures Emitted(r + [buckets[b]], buckets, todo - {b}, rows, start, width)
  {
    forall c | c in buckets.Keys - (todo - {b}) ensures Has(r + [buckets[b]], start, width, c) {
      HasMore(r, buckets[b], start, width, c);
    }
  }

  method BucketLast(rows: seq<Row>, start: int, width: nat) returns (r: seq<Row>)
    requires width > 0
    ensures Bucketed(r, rows, start, width)
  {
    var buckets := Fill(rows, start, width);
    var todo := buckets.Keys;
    r := [];
    while todo != {}
      invariant todo <= buckets.Keys
      invariant Emitted(r, buckets, todo, rows, start, width)
      decreases todo
    {
      var b := Least(todo);
      Emit(r, buckets, todo, rows, start, width, b);
      r := r + [buckets[b]];
      todo := todo - {b};
    }
  }

  // ---------------------------------------------------------------- what bucketing does

  /** Bucketing an answer again changes nothing. */
  lemma BucketingAgain(r: seq<Row>, rows: seq<Row>, start: int, width: nat)
    requires width > 0 && Bucketed(r, rows, start, width)
    ensures Bucketed(r, r, start, width)
  {
  }

  /** The answer is one: any two that are bucketed alike are the same. */
  lemma BucketedOnce(r: seq<Row>, s: seq<Row>, rows: seq<Row>, start: int, width: nat)
    requires width > 0 && Bucketed(r, rows, start, width) && Bucketed(s, rows, start, width)
    ensures r == s
  {
    SameBuckets(r, s, rows, start, width, |r|);
    SameBuckets(s, r, rows, start, width, |s|);
  }

  lemma LastIsOne(a: Row, b: Row, rows: seq<Row>, start: int, width: nat)
    requires width > 0 && IsLast(a, rows, start, width) && IsLast(b, rows, start, width)
    requires BucketIndex(a.at, start, width) == BucketIndex(b.at, start, width)
    ensures a == b
  {
  }

  lemma BucketIn(r: seq<Row>, s: seq<Row>, rows: seq<Row>, start: int, width: nat, i: nat) returns (j: nat)
    requires width > 0 && Bucketed(r, rows, start, width) && Bucketed(s, rows, start, width) && i < |r|
    ensures j < |s| && s[j] == r[i]
  {
    assert IsLast(r[i], rows, start, width);
    var p :| 0 <= p < |rows| && rows[p] == r[i];
    assert Has(s, start, width, BucketIndex(rows[p].at, start, width));
    j :| 0 <= j < |s| && BucketIndex(s[j].at, start, width) == BucketIndex(r[i].at, start, width);
    LastIsOne(r[i], s[j], rows, start, width);
  }

  lemma {:induction false} SameBuckets(r: seq<Row>, s: seq<Row>, rows: seq<Row>, start: int, width: nat, n: nat)
    requires width > 0 && Bucketed(r, rows, start, width) && Bucketed(s, rows, start, width) && n <= |r|
    ensures n <= |s| && r[..n] == s[..n]
  {
    if n > 0 {
      SameBuckets(r, s, rows, start, width, n - 1);
      SameNext(r, s, rows, start, width, n - 1);
      assert r[..n] == r[..n - 1] + [r[n - 1]] && s[..n] == s[..n - 1] + [s[n - 1]];
    }
  }

  lemma SameNext(r: seq<Row>, s: seq<Row>, rows: seq<Row>, start: int, width: nat, i: nat)
    requires width > 0 && Bucketed(r, rows, start, width) && Bucketed(s, rows, start, width)
    requires i < |r| && i <= |s| && r[..i] == s[..i]
    ensures i < |s| && s[i] == r[i]
  {
    var j := BucketIn(r, s, rows, start, width, i);
    var k := 0;
    if i < |s| { k := BucketIn(s, r, rows, start, width, i); }
    SamePlace(r, s, start, width, i, j, k);
  }

  /** With the same beginning, r's next entry is s's next. */
  lemma SamePlace(r: seq<Row>, s: seq<Row>, start: int, width: nat, i: nat, j: nat, k: nat)
    requires width > 0 && StrictlyAscending(r, start, width) && StrictlyAscending(s, start, width)
    requires i < |r| && j < |s| && s[j] == r[i] && i <= |s| && r[..i] == s[..i]
    requires i < |s| ==> k < |r| && r[k] == s[i]
    ensures j == i
  {
    forall m | 0 <= m < i ensures r[m] == s[m] {
      assert r[..i][m] == s[..i][m];
    }
    assert j >= i;
    assert k >= i;
  }

  /** Strictly ascending within bounds: no more than fit. */
  lemma {:induction false} FitsBetween(r: seq<Row>, start: int, width: nat, low: int, high: int)
    requires width > 0 && StrictlyAscending(r, start, width) && low <= high + 1
    requires forall i :: 0 <= i < |r| ==> low <= BucketIndex(r[i].at, start, width) <= high
    ensures |r| <= high - low + 1
    decreases |r|
  {
    if r != [] {
      var init := r[..|r| - 1];
      var top := BucketIndex(r[|r| - 1].at, start, width);
      forall i | 0 <= i < |init| ensures low <= BucketIndex(init[i].at, start, width) <= top - 1 {
        assert BucketIndex(r[i].at, start, width) < BucketIndex(r[|r| - 1].at, start, width);
      }
      FitsBetween(init, start, width, low, top - 1);
    }
  }

  lemma Division(x: int, d: nat, n: int)
    requires d > 0
    ensures x >= 0 ==> x / d >= 0
    ensures x <= d * n ==> x / d <= n
    ensures x < d * n ==> x / d < n
  {
    if x / d >= n + 1 { Steps(d, n + 1, x / d); }
    if x / d >= n { Steps(d, n, x / d); }
  }

  /** The width chosen covers the window in MAX_POINTS buckets. */
  lemma WidthCovers(rawCount: nat, start: int, end: int)
    requires rawCount > MAX_POINTS
    ensures var w := ResolveBucketSeconds(rawCount, start, end);
            w.Some? && w.value > 0 && end - start <= (w.value * 1000) * MAX_POINTS
  {
  }

  /**
   The bound on an answer: rows inside the window come to at most MAX_POINTS + 1 points, and
   to at most MAX_POINTS unless one sits exactly on the window's end.
   */
  lemma PointsBounded(r: seq<Row>, rows: seq<Row>, start: int, end: int)
    requires |rows| > MAX_POINTS && forall row :: row in rows ==> start <= row.at <= end
    requires var w := ResolveBucketSeconds(|rows|, start, end);
             w.Some? && w.value > 0 && Bucketed(r, rows, start, w.value)
    ensures |r| <= MAX_POINTS + 1
    ensures (forall row :: row in rows ==> row.at != end) ==> |r| <= MAX_POINTS
  {
    var w := ResolveBucketSeconds(|rows|, start, end).value;
    WidthCovers(|rows|, start, end);
    forall i | 0 <= i < |r|
      ensures 0 <= BucketIndex(r[i].at, start, w) <= MAX_POINTS
      ensures r[i].at != end ==> BucketIndex(r[i].at, start, w) <= MAX_POINTS - 1
    {
      assert IsLast(r[i], rows, start, w);
      assert r[i] in rows;
      Division(r[i].at - start, w * 1000, MAX_POINTS);
    }
    FitsBetween(r, start, w, 0, MAX_POINTS);
    if forall row :: row in rows ==> row.at != end {
      forall i | 0 <= i < |r| ensures r[i].at != end {
        assert IsLast(r[i], rows, start, w);
        assert r[i] in rows;
      }
      FitsBetween(r, start, w, 0, MAX_POINTS - 1);
    }
  }
}
