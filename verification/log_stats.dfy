/** The arithmetic the parser applies to a graph's record list: the length of
    the unsummarised suffix, and the blocked-time correction of barrier-free
    runs. */
module LogStats {
  import opened Wrappers
  import opened LogRecord

  // SUMS, MEANS, EXTREMES
  // ---------------------

  /** The sum of `s`, added left to right. */
  function Sum(s: seq<real>): real {
    if |s| == 0 then 0.0 else Sum(s[..|s| - 1]) + s[|s| - 1]
  }

  /** The accumulation loop of the source's `arraySum`. */
  method ArraySum(x: seq<real>) returns (a: real)
    ensures a == Sum(x)
  {
    a := 0.0;
    var i := 0;
    while i < |x|
      invariant 0 <= i <= |x|
      invariant a == Sum(x[..i])
    {
      assert x[..i + 1][..i] == x[..i];
      a := a + x[i];
      i := i + 1;
    }
    assert x[..|x|] == x;
  }

  /** A sum of values in `[lo, hi]` lies between `|s| * lo` and `|s| * hi`. */
  lemma {:induction false} SumBounds(s: seq<real>, lo: real, hi: real)
    requires forall i :: 0 <= i < |s| ==> lo <= s[i] <= hi
    ensures (|s| as real) * lo <= Sum(s) <= (|s| as real) * hi
  {
    if |s| > 0 {
      SumBounds(s[..|s| - 1], lo, hi);
      var n := (|s| - 1) as real;
      assert lo <= s[|s| - 1] <= hi;
      assert (|s| as real) * lo == n * lo + lo && (|s| as real) * hi == n * hi + hi;
    }
  }

  /** `arraySum(s) / s.length`. */
  function Mean(s: seq<real>): real
    requires |s| > 0
  {
    Sum(s) / (|s| as real)
  }

  /** A mean of values in `[lo, hi]` lies in `[lo, hi]`. */
  lemma MeanBounds(s: seq<real>, lo: real, hi: real)
    requires |s| > 0
    requires forall i :: 0 <= i < |s| ==> lo <= s[i] <= hi
    ensures lo <= Mean(s) <= hi
  {
    SumBounds(s, lo, hi);
    var n := |s| as real;
    assert Mean(s) * n == Sum(s);
  }

  /** `Math.max(...s)` on a non-empty list, folded left to right. */
  function Max(s: seq<real>): real
    requires |s| > 0
  {
    if |s| == 1 then s[0]
    else
      var m := Max(s[..|s| - 1]);
      if s[|s| - 1] > m then s[|s| - 1] else m
  }

  /** The smallest element of a non-empty list. */
  function Min(s: seq<real>): real
    requires |s| > 0
  {
    if |s| == 1 then s[0]
    else
      var m := Min(s[..|s| - 1]);
      if s[|s| - 1] < m then s[|s| - 1] else m
  }

  /** `Max` is an element of the list no smaller than any other. */
  lemma {:induction false} MaxIsMaximum(s: seq<real>)
    requires |s| > 0
    ensures exists i :: 0 <= i < |s| && s[i] == Max(s)
    ensures forall i :: 0 <= i < |s| ==> s[i] <= Max(s)
  {
    if |s| > 1 {
      var init := s[..|s| - 1];
      MaxIsMaximum(init);
      assert forall i :: 0 <= i < |init| ==> init[i] == s[i];
      if s[|s| - 1] <= Max(init) {
        var j :| 0 <= j < |init| && init[j] == Max(init);
        assert s[j] == Max(s);
      } else {
        assert s[|s| - 1] == Max(s);
      }
    } else {
      assert s[0] == Max(s);
    }
  }

  /** `Min` is an element of the list no larger than any other. */
  lemma {:induction false} MinIsMinimum(s: seq<real>)
    requires |s| > 0
    ensures exists i :: 0 <= i < |s| && s[i] == Min(s)
    ensures forall i :: 0 <= i < |s| ==> Min(s) <= s[i]
  {
    if |s| > 1 {
      var init := s[..|s| - 1];
      MinIsMinimum(init);
      assert forall i :: 0 <= i < |init| ==> init[i] == s[i];
      if s[|s| - 1] >= Min(init) {
        var j :| 0 <= j < |init| && init[j] == Min(init);
        assert s[j] == Min(s);
      } else {
        assert s[|s| - 1] == Min(s);
      }
    } else {
      assert s[0] == Min(s);
    }
  }

  // BLANK SUFFIX
  // ------------

  /** The backward scan of `blankRowCount`: the length of the longest suffix
      of `datum` whose records all have a falsy technique. */
  function BlankRowCount(datum: seq<Record>): (n: nat)
    ensures n <= |datum|
    ensures forall i :: |datum| - n <= i < |datum| ==> IsBlank(datum[i])
    ensures n < |datum| ==> !IsBlank(datum[|datum| - n - 1])
  {
    if |datum| == 0 || !IsBlank(datum[|datum| - 1]) then 0
    else
      var n' := BlankRowCount(datum[..|datum| - 1]);
      assert forall i :: 0 <= i < |datum| - 1 ==> datum[..|datum| - 1][i] == datum[i];
      n' + 1
  }

  /** The records at or before the last summarised one: a result line never
      touches them. */
  function Settled(datum: seq<Record>): seq<Record> {
    datum[..|datum| - BlankRowCount(datum)]
  }

  /** Every record of the blank suffix carries a blocked time. */
  predicate SuffixTimed(datum: seq<Record>) {
    forall i :: |datum| - BlankRowCount(datum) <= i < |datum| ==> datum[i].blockedTime.Some?
  }

  /** The blocked times of the blank suffix, in list order. */
  function SuffixBlocked(datum: seq<Record>): (b: seq<real>)
    requires SuffixTimed(datum)
    ensures |b| == BlankRowCount(datum)
    ensures forall k :: 0 <= k < |b| ==> datum[|datum| - |b| + k].blockedTime == Some(b[k])
  {
    var n := BlankRowCount(datum);
    seq(n, k requires 0 <= k < n => datum[|datum| - n + k].blockedTime.value)
  }

  // BUCKETS
  // -------

  /** `Math.ceil(B / repeat)`, the bucket width. When `repeat` is 0 the
      source's width is Infinity, which puts the whole suffix in one bucket,
      as width `B` does. */
  function Width(b: nat, repeat: nat): (db: nat)
    requires b > 0
    ensures db > 0
    ensures repeat > 0 ==> (db - 1) * repeat < b <= db * repeat
    ensures repeat == 0 ==> db == b
  {
    if repeat == 0 then b
    else
      var q := (b + repeat - 1) / repeat;
      var m := (b + repeat - 1) % repeat;
      assert q * repeat + m == b + repeat - 1;
      assert (q - 1) * repeat == q * repeat - repeat;
      q
  }

  /** The number of buckets of width `db` over `b` records: `ceil(b / db)`. */
  function BucketCount(b: nat, db: nat): nat
    requires db > 0
  {
    (b + db - 1) / db
  }

  /** Bucket `k` covers offsets `[BucketStart(k), BucketEnd(k))` of the
      suffix; the loop reaches its start after `k` steps of `i += db`. */
  function BucketStart(k: nat, db: nat): nat {
    if k == 0 then 0 else BucketStart(k - 1, db) + db
  }

  /** `slice(i, i + db)` clamps its end to the list length. */
  function BucketEnd(k: nat, db: nat, b: nat): nat {
    if BucketStart(k + 1, db) < b then BucketStart(k + 1, db) else b
  }

  /** After `k` steps of width `db` the loop index has moved `k * db`. */
  lemma {:induction false} StartIsProduct(k: nat, db: nat)
    ensures BucketStart(k, db) == k * db
  {
    if k > 0 {
      StartIsProduct(k - 1, db);
      assert k * db == (k - 1) * db + db;
    }
  }

  /** The bucket loop of `correctedTime`: the maximum blocked time of each
      consecutive slice of width `db`, starting at the first blank record. */
  function BucketMaxima(blocked: seq<real>, db: nat): seq<real>
    requires db > 0
    decreases |blocked|
  {
    if |blocked| == 0 then []
    else if |blocked| <= db then [Max(blocked)]
    else [Max(blocked[..db])] + BucketMaxima(blocked[db..], db)
  }

  lemma MulLe(a: nat, b: nat, d: nat)
    requires a <= b
    ensures a * d <= b * d
  {
    assert b * d == a * d + (b - a) * d;
  }

  lemma MulLtCancel(a: nat, b: nat, d: nat)
    requires a * d < b * d
    ensures a < b
  {
    if a >= b { MulLe(b, a, d); }
  }

  /** `ceil(b / db)` buckets are needed: their last one reaches `b` and the
      one before it does not. */
  lemma BucketCountCeil(b: nat, db: nat)
    requires b > 0 && db > 0
    ensures BucketCount(b, db) >= 1
    ensures (BucketCount(b, db) - 1) * db < b <= BucketCount(b, db) * db
  {
    var c := BucketCount(b, db);
    var m := (b + db - 1) % db;
    assert c * db + m == b + db - 1;
    assert (c - 1) * db == c * db - db;
  }

  /** At most one count `c` has `(c - 1) * db < b <= c * db`. */
  lemma CeilUnique(b: nat, db: nat, c: nat, e: nat)
    requires db > 0 && c >= 1 && e >= 1
    requires (c - 1) * db < b <= c * db
    requires (e - 1) * db < b <= e * db
    ensures c == e
  {
    MulLtCancel(c - 1, e, db);
    MulLtCancel(e - 1, c, db);
  }

  /** The buckets tile the blank suffix: the first starts at its first
      record, the last ends at its end, each is non-empty and each one ends
      where the next begins. */
  lemma BucketsTile(b: nat, db: nat)
    requires b > 0 && db > 0
    ensures BucketCount(b, db) >= 1
    ensures BucketStart(0, db) == 0
    ensures BucketEnd(BucketCount(b, db) - 1, db, b) == b
    ensures forall k :: 0 <= k < BucketCount(b, db) ==> BucketStart(k, db) < BucketEnd(k, db, b) <= b
    ensures forall k :: 0 <= k < BucketCount(b, db) - 1 ==> BucketEnd(k, db, b) == BucketStart(k + 1, db)
  {
    var c := BucketCount(b, db);
    BucketCountCeil(b, db);
    StartIsProduct(c, db);
    forall k | 0 <= k < c
      ensures BucketStart(k, db) < BucketEnd(k, db, b) <= b
    {
      StartIsProduct(k, db);
      MulLe(k, c - 1, db);
    }
    forall k | 0 <= k < c - 1
      ensures BucketEnd(k, db, b) == BucketStart(k + 1, db)
    {
      StartIsProduct(k + 1, db);
      MulLe(k + 1, c - 1, db);
    }
  }

  /** With `repeat > 0` the buckets of width `ceil(B / repeat)` number at
      least one and at most `repeat`; with `repeat == 0` there is one. */
  lemma BucketCountBound(b: nat, repeat: nat)
    requires b > 0
    ensures 1 <= BucketCount(b, Width(b, repeat))
    ensures repeat > 0 ==> BucketCount(b, Width(b, repeat)) <= repeat
    ensures repeat == 0 ==> BucketCount(b, Width(b, repeat)) == 1
  {
    var db := Width(b, repeat);
    var c := BucketCount(b, db);
    BucketCountCeil(b, db);
    if repeat > 0 {
      assert (c - 1) * db < repeat * db;
      MulLtCancel(c - 1, repeat, db);
    } else {
      assert (c - 1) * db < 1 * db;
      MulLtCancel(c - 1, 1, db);
    }
  }

  lemma SliceOfSuffix(s: seq<real>, d: nat, x: nat, y: nat)
    requires d <= |s| && x <= y <= |s| - d
    ensures s[d..][x..y] == s[d + x..d + y]
  {
  }

  /** Bucket `k` of a list is bucket `k - 1` of the list without its first
      `db` records. */
  lemma ShiftBucket(blocked: seq<real>, db: nat, k: nat)
    requires k >= 1 && db > 0 && |blocked| >= db
    requires BucketStart(k - 1, db) <= BucketEnd(k - 1, db, |blocked| - db) <= |blocked| - db
    ensures BucketStart(k, db) <= BucketEnd(k, db, |blocked|) <= |blocked|
    ensures blocked[db..][BucketStart(k - 1, db)..BucketEnd(k - 1, db, |blocked| - db)]
         == blocked[BucketStart(k, db)..BucketEnd(k, db, |blocked|)]
  {
    var b := |blocked|;
    assert db + BucketStart(k - 1, db) == BucketStart(k, db);
    assert db + BucketEnd(k - 1, db, b - db) == BucketEnd(k, db, b);
    SliceOfSuffix(blocked, db, BucketStart(k - 1, db), BucketEnd(k - 1, db, b - db));
  }

  /** The loop pushes one maximum per bucket. */
  lemma {:induction false} BucketMaximaLength(blocked: seq<real>, db: nat)
    requires |blocked| > 0 && db > 0
    ensures |BucketMaxima(blocked, db)| == BucketCount(|blocked|, db)
    decreases |blocked|
  {
    var b := |blocked|;
    BucketCountCeil(b, db);
    if b <= db {
      assert (BucketCount(b, db) - 1) * db < 1 * db;
      MulLtCancel(BucketCount(b, db) - 1, 1, db);
    } else {
      BucketMaximaLength(blocked[db..], db);
      var c' := BucketCount(b - db, db);
      BucketCountCeil(b - db, db);
      assert (c' + 1 - 1) * db == (c' - 1) * db + db;
      assert (c' + 1) * db == c' * db + db;
      CeilUnique(b, db, c' + 1, BucketCount(b, db));
    }
  }

  /** The k-th value the loop pushes is the maximum of bucket `k`, which is
      a non-empty slice of the list. */
  lemma {:induction false} BucketMaximaAt(blocked: seq<real>, db: nat, k: nat)
    requires db > 0 && k < |BucketMaxima(blocked, db)|
    ensures BucketStart(k, db) < BucketEnd(k, db, |blocked|) <= |blocked|
    ensures BucketMaxima(blocked, db)[k] == Max(blocked[BucketStart(k, db)..BucketEnd(k, db, |blocked|)])
    decreases |blocked|
  {
    if k == 0 {
      FirstBucketMaximum(blocked, db);
    } else {
      var ms := BucketMaxima(blocked, db);
      var rest := BucketMaxima(blocked[db..], db);
      assert |blocked| > db && ms == [Max(blocked[..db])] + rest;
      assert ms[k] == rest[k - 1];
      BucketMaximaAt(blocked[db..], db, k - 1);
      ShiftBucket(blocked, db, k);
      var lo, hi := BucketStart(k, db), BucketEnd(k, db, |blocked|);
      var tail := blocked[db..][BucketStart(k - 1, db)..BucketEnd(k - 1, db, |blocked| - db)];
      assert rest[k - 1] == Max(tail);
      assert tail == blocked[lo..hi];
    }
  }

  /** The first value the loop pushes is the maximum of the first bucket. */
  lemma FirstBucketMaximum(blocked: seq<real>, db: nat)
    requires db > 0 && |blocked| > 0
    ensures 0 < BucketEnd(0, db, |blocked|) <= |blocked|
    ensures BucketMaxima(blocked, db)[0] == Max(blocked[0..BucketEnd(0, db, |blocked|)])
  {
    var b := |blocked|;
    assert BucketStart(1, db) == db;
    if b <= db {
      assert blocked[0..b] == blocked;
    } else {
      assert blocked[0..db] == blocked[..db];
    }
  }

  /** The maxima computed by the loop are, in order, the maxima of the
      buckets `BucketsTile` describes. */
  lemma BucketMaximaShape(blocked: seq<real>, db: nat)
    requires |blocked| > 0 && db > 0
    ensures |BucketMaxima(blocked, db)| == BucketCount(|blocked|, db)
    ensures forall k :: 0 <= k < |BucketMaxima(blocked, db)| ==>
      BucketStart(k, db) < BucketEnd(k, db, |blocked|) <= |blocked|
    ensures forall k :: 0 <= k < |BucketMaxima(blocked, db)| ==>
      BucketMaxima(blocked, db)[k] == Max(blocked[BucketStart(k, db)..BucketEnd(k, db, |blocked|)])
  {
    BucketMaximaLength(blocked, db);
    forall k | 0 <= k < |BucketMaxima(blocked, db)|
      ensures BucketStart(k, db) < BucketEnd(k, db, |blocked|) <= |blocked|
      ensures BucketMaxima(blocked, db)[k] == Max(blocked[BucketStart(k, db)..BucketEnd(k, db, |blocked|)])
    {
      BucketMaximaAt(blocked, db, k);
    }
  }

  /** The maximum of a non-empty slice lies between the smallest and the
      largest element of the whole list. */
  lemma SliceMaxBounded(s: seq<real>, lo: nat, hi: nat)
    requires lo < hi <= |s|
    ensures Min(s) <= Max(s[lo..hi]) <= Max(s)
  {
    var slice := s[lo..hi];
    MaxIsMaximum(slice);
    MaxIsMaximum(s);
    MinIsMinimum(s);
    var j :| 0 <= j < |slice| && slice[j] == Max(slice);
    assert slice[j] == s[lo + j];
  }

  /** Every bucket maximum lies between the smallest and the largest blocked
      time of the suffix, and there is at least one bucket. */
  lemma BucketMaximaBounded(blocked: seq<real>, db: nat)
    requires |blocked| > 0 && db > 0
    ensures |BucketMaxima(blocked, db)| > 0
    ensures forall k :: 0 <= k < |BucketMaxima(blocked, db)| ==>
      Min(blocked) <= BucketMaxima(blocked, db)[k] <= Max(blocked)
  {
    var b := |blocked|;
    var ms := BucketMaxima(blocked, db);
    BucketMaximaShape(blocked, db);
    BucketCountCeil(b, db);
    forall k | 0 <= k < |ms|
      ensures Min(blocked) <= ms[k] <= Max(blocked)
    {
      SliceMaxBounded(blocked, BucketStart(k, db), BucketEnd(k, db, b));
    }
  }

  /** `correctedTime`: the reported time less the mean, over the buckets, of
      the largest blocked time in each. It lies between the time less the
      largest blocked time of the suffix and the time less the smallest. */
  function CorrectedTime(datum: seq<Record>, time: real, repeat: nat): (r: real)
    requires BlankRowCount(datum) > 0
    requires SuffixTimed(datum)
    ensures time - Max(SuffixBlocked(datum)) <= r <= time - Min(SuffixBlocked(datum))
  {
    var blocked := SuffixBlocked(datum);
    var db := Width(|blocked|, repeat);
    var ms := BucketMaxima(blocked, db);
    BucketMaximaBounded(blocked, db);
    MeanBounds(ms, Min(blocked), Max(blocked));
    time - Mean(ms)
  }

  /** The formula of `correctedTime` in index form: for the maxima `ms`
      of the buckets `slice(i, i + db)` of the suffix's blocked times, the
      corrected time is the time less their mean. */
  lemma CorrectedTimeIsMeanOfBucketMaxima(datum: seq<Record>, time: real, repeat: nat, ms: seq<real>)
    requires BlankRowCount(datum) > 0
    requires SuffixTimed(datum)
    requires var b := BlankRowCount(datum); var db := Width(b, repeat);
      && |ms| == BucketCount(b, db)
      && forall k :: 0 <= k < |ms| ==>
           (BucketStart(k, db) < BucketEnd(k, db, b)
            && ms[k] == Max(SuffixBlocked(datum)[BucketStart(k, db)..BucketEnd(k, db, b)]))
    ensures |ms| > 0 && CorrectedTime(datum, time, repeat) == time - Mean(ms)
  {
    var blocked := SuffixBlocked(datum);
    var db := Width(|blocked|, repeat);
    BucketMaximaShape(blocked, db);
    assert ms == BucketMaxima(blocked, db);
  }
}
