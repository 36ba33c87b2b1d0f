/**
 The chart's downsampling (web/src/components/TempChart.tsx:8-22): every bucket of neighbouring
 points is replaced by its lowest and its highest one.
 */
module Envelope {

  datatype Point = Point(t: int, v: real)

  /** ceil(a / b): what is left over counts as a whole. */
  function CeilDiv(a: nat, b: nat): (q: nat)
    requires b > 0
    ensures q * b >= a && (q > 0 ==> (q - 1) * b < a)
    decreases a
  {
    if a == 0 then 0
    else if a <= b then 1
    else CeilDiv(a - b, b) + 1
  }

  /** Points per bucket: ceil(len / (n / 2)). */
  function Size(len: nat, n: nat): (size: nat)
    requires n > 0
    ensures size * n >= 2 * len
    ensures len > 0 ==> size > 0
  {
    CeilDiv(2 * len, n)
  }

  /** The first lowest point of `pts[a..b]`. */
  function Lowest(pts: seq<Point>, a: nat, b: nat): (k: nat)
    requires a < b <= |pts|
    ensures a <= k < b
    ensures forall j :: a <= j < b ==> pts[k].v <= pts[j].v
    ensures forall j :: a <= j < k ==> pts[k].v < pts[j].v
    decreases b - a
  {
    if b == a + 1 then a
    else
      var k := Lowest(pts, a, b - 1);
      if pts[b - 1].v < pts[k].v then b - 1 else k
  }

  /** The first highest point of `pts[a..b]`. */
  function Highest(pts: seq<Point>, a: nat, b: nat): (k: nat)
    requires a < b <= |pts|
    ensures a <= k < b
    ensures forall j :: a <= j < b ==> pts[j].v <= pts[k].v
    ensures forall j :: a <= j < k ==> pts[j].v < pts[k].v
    decreases b - a
  {
    if b == a + 1 then a
    else
      var k := Highest(pts, a, b - 1);
      if pts[b - 1].v > pts[k].v then b - 1 else k
  }

  function InTime(p: Point, q: Point): (r: seq<Point>)
    ensures |r| == 2 && r[0].t <= r[1].t && multiset(r) == multiset{p, q}
    ensures p.t == q.t ==> r[0] == p
  {
    if p.t <= q.t then [p, q] else [q, p]
  }

  function End(len: nat, size: nat, i: nat): nat { if i + size <= len then i + size else len }

  /** What is left of one bucket. */
  function Bucket(pts: seq<Point>, i: nat, size: nat): (r: seq<Point>)
    requires i < |pts| && size > 0
    ensures |r| == 2
  {
    InTime(pts[Lowest(pts, i, End(|pts|, size, i))], pts[Highest(pts, i, End(|pts|, size, i))])
  }

  /** The buckets before `i`, for `i` at the start of a bucket or at the end. */
  function Upto(pts: seq<Point>, size: nat, buckets: nat): (out: seq<Point>)
    requires size > 0 && (buckets > 0 ==> (buckets - 1) * size < |pts|)
    ensures |out| == 2 * buckets
  {
    if buckets == 0 then []
    else
      BucketsBefore(|pts|, size, buckets);
      Upto(pts, size, buckets - 1) + Bucket(pts, (buckets - 1) * size, size)
  }

  lemma BucketsBefore(len: nat, size: nat, buckets: nat)
    requires size > 0 && buckets > 0 && (buckets - 1) * size < len
    ensures buckets > 1 ==> (buckets - 2) * size < len
  {
    assert (buckets - 2) * size == (buckets - 1) * size - size;
  }

  function Downsampled(pts: seq<Point>, n: nat): seq<Point>
    requires n > 0
  {
    if |pts| <= n then pts
    else Upto(pts, Size(|pts|, n), CeilDiv(|pts|, Size(|pts|, n)))
  }

  /** The inner loop. */
  method Extremes(pts: seq<Point>, i: nat, end: nat) returns (lo: Point, hi: Point)
    requires i < end <= |pts|
    ensures lo == pts[Lowest(pts, i, end)] && hi == pts[Highest(pts, i, end)]
  {
    lo, hi := pts[i], pts[i];
    for j := i to end
      invariant j == i ==> lo == pts[i] && hi == pts[i]
      invariant j > i ==> lo == pts[Lowest(pts, i, j)] && hi == pts[Highest(pts, i, j)]
    {
      if pts[j].v < lo.v {
        lo := pts[j];
      }
      if pts[j].v > hi.v {
        hi := pts[j];
      }
    }
  }

  method MakeEnvelope(pts: seq<Point>, n: nat) returns (out: seq<Point>)
    requires n > 0
    ensures out == Downsampled(pts, n)
    ensures |pts| <= n ==> out == pts
  {
    if |pts| <= n {
      return pts;
    }
    var size := Size(|pts|, n);
    out := [];
    ghost var buckets := 0;
    var i := 0;
    while i < |pts|
      invariant i == buckets * size
      invariant buckets > 0 ==> (buckets - 1) * size < |pts|
      invariant out == Upto(pts, size, buckets)
      decreases |pts| - i
    {
      var lo, hi := Extremes(pts, i, End(|pts|, size, i));
      if lo.t <= hi.t {
        out := out + [lo, hi];
      } else {
        out := out + [hi, lo];
      }
      UptoNext(pts, size, buckets);
      buckets := buckets + 1;
      i := i + size;
    }
    CeilDivUnique(|pts|, size, buckets);
  }

  lemma UptoNext(pts: seq<Point>, size: nat, buckets: nat)
    requires size > 0 && buckets * size < |pts| && (buckets > 0 ==> (buckets - 1) * size < |pts|)
    ensures Upto(pts, size, buckets + 1) == Upto(pts, size, buckets) + Bucket(pts, buckets * size, size)
    ensures (buckets + 1) * size == buckets * size + size
  {
  }

  lemma CeilDivUnique(a: nat, b: nat, q: nat)
    requires b > 0 && q * b >= a && (q > 0 ==> (q - 1) * b < a)
    ensures CeilDiv(a, b) == q
  {
    var r := CeilDiv(a, b);
    if r < q {
      MulMonotone(r, q - 1, b);
    } else if q < r {
      MulMonotone(q, r - 1, b);
    }
  }

  lemma MulMonotone(x: nat, y: nat, b: nat)
    requires x <= y
    ensures x * b <= y * b
  {
    assert (y - x) * b >= 0;
  }

  // ------------------------------------------------------------------ how many points are left

  /** At most `n` are left, exactly if the whole buckets that `n` points pay for cover the series. */
  lemma LengthIff(pts: seq<Point>, n: nat)
    requires 0 < n < |pts|
    ensures |Downsampled(pts, n)| <= n <==> |pts| <= n / 2 * Size(|pts|, n)
    ensures |Downsampled(pts, n)| == 2 * CeilDiv(|pts|, Size(|pts|, n))
  {
    var len, size := |pts|, Size(|pts|, n);
    var buckets := CeilDiv(len, size);
    if buckets <= n / 2 {
      MulMonotone(buckets, n / 2, size);
    } else {
      MulMonotone(n / 2, buckets - 1, size);
    }
  }

  lemma HalfCovers(len: nat, size: nat, n: nat, m: nat)
    requires size * n >= 2 * len && 2 * m >= n
    ensures m * size >= len
  {
    MulMonotone(n, 2 * m, size);
    assert 2 * m * size == 2 * (m * size);
  }

  lemma FewBuckets(len: nat, size: nat, m: nat)
    requires size > 0 && m * size >= len
    ensures CeilDiv(len, size) <= m
  {
    var buckets := CeilDiv(len, size);
    if buckets > m {
      MulMonotone(m, buckets - 1, size);
    }
  }

  lemma BucketsBound(len: nat, n: nat)
    requires 0 < n < len
    ensures 2 * CeilDiv(len, Size(len, n)) <= n + n % 2
  {
    var size, m := Size(len, n), (n + 1) / 2;
    HalfCovers(len, size, n, m);
    FewBuckets(len, size, m);
  }

  /** That holds for every even `n`; an odd one can be exceeded by a single point. */
  lemma LengthBound(pts: seq<Point>, n: nat)
    requires n > 0
    ensures |Downsampled(pts, n)| <= n + n % 2
  {
    if |pts| > n {
      BucketsBound(|pts|, n);
    }
  }

  lemma SizeOfMultiple(n: nat, k: nat, len: nat)
    requires n > 0 && len == n * k
    ensures Size(len, n) == 2 * k
  {
    assert 2 * k * n == 2 * len && (2 * k - 1) * n == 2 * len - n;
    CeilDivUnique(2 * len, n, 2 * k);
  }

  lemma OddProduct(h: nat, k: nat)
    ensures (2 * h + 1) * k == h * (2 * k) + k
  {
  }

  lemma OnePart(h: nat, b: nat, len: nat, k: nat)
    requires 0 < k < b && len == h * b + k
    ensures CeilDiv(len, b) == h + 1
  {
    assert (h + 1) * b == h * b + b;
    CeilDivUnique(len, b, h + 1);
  }

  lemma BucketsOfOddMultiple(len: nat, n: nat, k: nat)
    requires n % 2 == 1 && k >= 2 && len == n * k
    ensures len > n && 2 * CeilDiv(len, Size(len, n)) == n + 1
  {
    var h := (n - 1) / 2;
    assert len > n by {
      MulMonotone(2, k, n);
    }
    assert len == h * (2 * k) + k by {
      assert n == 2 * h + 1;
      OddProduct(h, k);
    }
    SizeOfMultiple(n, k, len);
    OnePart(h, 2 * k, len, k);
  }

  lemma LengthOf(pts: seq<Point>, n: nat)
    requires 0 < n < |pts|
    ensures |Downsampled(pts, n)| == 2 * CeilDiv(|pts|, Size(|pts|, n))
  {
  }

  /** Every odd `n` is exceeded, by every series that is a multiple of it long. */
  lemma OddIsExceeded(pts: seq<Point>, n: nat, k: nat)
    requires n % 2 == 1 && k >= 2 && |pts| == n * k
    ensures |Downsampled(pts, n)| == n + 1
  {
    BucketsOfOddMultiple(|pts|, n, k);
    LengthOf(pts, n);
  }

  /** So the even numbers are exactly those that bound the result for all series. */
  lemma BoundsAllIff(n: nat)
    requires n > 0
    ensures (forall pts: seq<Point> :: |Downsampled(pts, n)| <= n) <==> n % 2 == 0
  {
    if n % 2 == 0 {
      forall pts: seq<Point>
        ensures |Downsampled(pts, n)| <= n
      {
        LengthBound(pts, n);
      }
    } else {
      var pts := seq(2 * n, i => Point(i, 0.0));
      OddIsExceeded(pts, n, 2);
    }
  }

  // ------------------------------------------------------------------ which points are left

  ghost predicate Chronological(pts: seq<Point>) { forall i, j :: 0 <= i < j < |pts| ==> pts[i].t <= pts[j].t }

  ghost predicate Taken(p: Point, pts: seq<Point>, a: nat, b: nat)
    requires b <= |pts|
  {
    exists j :: a <= j < b && p == pts[j]
  }

  /** All points of `s` are taken from `pts[a..b]`. */
  ghost predicate From(s: seq<Point>, pts: seq<Point>, a: nat, b: nat)
    requires b <= |pts|
  {
    forall k :: 0 <= k < |s| ==> Taken(s[k], pts, a, b)
  }

  lemma BucketFrom(pts: seq<Point>, i: nat, size: nat)
    requires i < |pts| && size > 0
    ensures From(Bucket(pts, i, size), pts, i, End(|pts|, size, i))
    ensures Chronological(Bucket(pts, i, size))
  {
    var r, end := Bucket(pts, i, size), End(|pts|, size, i);
    var lo, hi := Lowest(pts, i, end), Highest(pts, i, end);
    assert Taken(pts[lo], pts, i, end) && Taken(pts[hi], pts, i, end);
    assert r == [pts[lo], pts[hi]] || r == [pts[hi], pts[lo]];
  }

  lemma {:induction false} UptoFrom(pts: seq<Point>, size: nat, buckets: nat)
    requires size > 0 && (buckets > 0 ==> (buckets - 1) * size < |pts|)
    ensures From(Upto(pts, size, buckets), pts, 0, End(|pts|, buckets * size, 0))
    ensures Chronological(pts) ==> Chronological(Upto(pts, size, buckets))
  {
    if buckets > 0 {
      var i := (buckets - 1) * size;
      assert buckets * size == i + size;
      BucketsBefore(|pts|, size, buckets);
      UptoFrom(pts, size, buckets - 1);
      BucketFrom(pts, i, size);
      Appended(pts, Upto(pts, size, buckets - 1), Bucket(pts, i, size), i, End(|pts|, size, i));
    }
  }

  lemma Widened(p: Point, pts: seq<Point>, a: nat, b: nat, c: nat, d: nat)
    requires c <= a && b <= d <= |pts| && Taken(p, pts, a, b)
    ensures Taken(p, pts, c, d)
  {
  }

  lemma Later(pts: seq<Point>, i: nat, end: nat, p: Point, q: Point)
    requires i <= end <= |pts| && Taken(p, pts, 0, i) && Taken(q, pts, i, end) && Chronological(pts)
    ensures p.t <= q.t
  {
  }

  lemma Appended(pts: seq<Point>, init: seq<Point>, last: seq<Point>, i: nat, end: nat)
    requires i <= end <= |pts| && From(init, pts, 0, i) && From(last, pts, i, end)
    ensures From(init + last, pts, 0, end)
    ensures Chronological(pts) && Chronological(init) && Chronological(last) ==> Chronological(init + last)
  {
    var s := init + last;
    forall k | 0 <= k < |s|
      ensures Taken(s[k], pts, 0, end)
    {
      if k < |init| {
        Widened(init[k], pts, 0, i, 0, end);
      } else {
        Widened(last[k - |init|], pts, i, end, 0, end);
      }
    }
    if Chronological(pts) && Chronological(init) && Chronological(last) {
      forall x, y | 0 <= x < y < |s|
        ensures s[x].t <= s[y].t
      {
        if x < |init| <= y {
          Later(pts, i, end, init[x], last[y - |init|]);
        }
      }
    }
  }

  /** Only points of the series are left, and they are still in time order. */
  lemma OnlyInputInOrder(pts: seq<Point>, n: nat)
    requires n > 0
    ensures forall p | p in Downsampled(pts, n) :: p in pts
    ensures Chronological(pts) ==> Chronological(Downsampled(pts, n))
  {
    if |pts| > n {
      var size := Size(|pts|, n);
      var out, end := Downsampled(pts, n), End(|pts|, CeilDiv(|pts|, size) * size, 0);
      UptoFrom(pts, size, CeilDiv(|pts|, size));
      forall p | p in out
        ensures p in pts
      {
        var k :| 0 <= k < |out| && out[k] == p;
        assert Taken(out[k], pts, 0, end);
      }
    }
  }

  // ------------------------------------------------------------------ spikes survive

  /** Both ends of the bucket that point `k` fell into are left, with no point of it beyond them. */
  ghost predicate Enveloped(pts: seq<Point>, size: nat, out: seq<Point>, k: nat)
    requires k < |pts| && size > 0
  {
    var b := k / size;
    && 2 * b + 1 < |out|
    && (out[2 * b].v <= pts[k].v <= out[2 * b + 1].v || out[2 * b + 1].v <= pts[k].v <= out[2 * b].v)
    && SameBucket(pts, size, out[2 * b], b) && SameBucket(pts, size, out[2 * b + 1], b)
  }

  ghost predicate SameBucket(pts: seq<Point>, size: nat, p: Point, b: nat)
    requires size > 0
  {
    exists j :: 0 <= j < |pts| && j / size == b && pts[j] == p
  }

  lemma InBucket(size: nat, b: nat, j: nat)
    requires size > 0
    ensures b * size <= j < b * size + size <==> j / size == b
  {
    assert j == j / size * size + j % size;
    if j / size < b {
      MulMonotone(j / size + 1, b, size);
    } else if j / size > b {
      MulMonotone(b + 1, j / size, size);
    }
  }

  lemma BucketEnvelops(pts: seq<Point>, size: nat, b: nat, k: nat)
    requires size > 0 && k < |pts| && k / size == b && b * size < |pts|
    ensures var r := Bucket(pts, b * size, size);
            && (r[0].v <= pts[k].v <= r[1].v || r[1].v <= pts[k].v <= r[0].v)
            && SameBucket(pts, size, r[0], b) && SameBucket(pts, size, r[1], b)
  {
    var end := End(|pts|, size, b * size);
    InBucket(size, b, k);
    InBucket(size, b, Lowest(pts, b * size, end));
    InBucket(size, b, Highest(pts, b * size, end));
  }

  lemma {:induction false} UptoEnvelops(pts: seq<Point>, size: nat, buckets: nat, k: nat)
    requires size > 0 && (buckets > 0 ==> (buckets - 1) * size < |pts|)
    requires k < |pts| && k / size < buckets
    ensures Enveloped(pts, size, Upto(pts, size, buckets), k)
  {
    BucketsBefore(|pts|, size, buckets);
    if k / size < buckets - 1 {
      UptoEnvelops(pts, size, buckets - 1, k);
    } else {
      BucketEnvelops(pts, size, buckets - 1, k);
    }
  }

  lemma BucketIndex(len: nat, size: nat, k: nat)
    requires size > 0 && k < len
    ensures k / size < CeilDiv(len, size)
  {
    var buckets := CeilDiv(len, size);
    InBucket(size, k / size, k);
    if k / size >= buckets {
      MulMonotone(buckets, k / size, size);
    }
  }

  /** Every point that is dropped lies between two that are left, of its own bucket. */
  lemma SpikesSurvive(pts: seq<Point>, n: nat, k: nat)
    requires 0 < n < |pts| && k < |pts|
    ensures Enveloped(pts, Size(|pts|, n), Downsampled(pts, n), k)
  {
    var size := Size(|pts|, n);
    BucketIndex(|pts|, size, k);
    UptoEnvelops(pts, size, CeilDiv(|pts|, size), k);
  }

  lemma LeftOnEitherSide(pts: seq<Point>, n: nat, k: nat)
    requires n > 0 && k < |pts|
    ensures exists p | p in Downsampled(pts, n) :: p.v <= pts[k].v
    ensures exists p | p in Downsampled(pts, n) :: p.v >= pts[k].v
  {
    if |pts| > n {
      SpikesSurvive(pts, n, k);
      EnvelopedHas(pts, Size(|pts|, n), Downsampled(pts, n), k);
    } else {
      assert pts[k] in Downsampled(pts, n);
    }
  }

  lemma EnvelopedHas(pts: seq<Point>, size: nat, out: seq<Point>, k: nat)
    requires size > 0 && k < |pts| && Enveloped(pts, size, out, k)
    ensures exists p | p in out :: p.v <= pts[k].v
    ensures exists p | p in out :: p.v >= pts[k].v
  {
    assert out[2 * (k / size)] in out && out[2 * (k / size) + 1] in out;
  }

  /** So the extremes of the whole series are left too. */
  lemma ExtremesSurvive(pts: seq<Point>, n: nat)
    requires n > 0 && pts != []
    ensures exists p | p in Downsampled(pts, n) :: forall q | q in pts :: p.v <= q.v
    ensures exists p | p in Downsampled(pts, n) :: forall q | q in pts :: q.v <= p.v
  {
    var lo, hi := Lowest(pts, 0, |pts|), Highest(pts, 0, |pts|);
    LeftOnEitherSide(pts, n, lo);
    LeftOnEitherSide(pts, n, hi);
    var p :| p in Downsampled(pts, n) && p.v <= pts[lo].v;
    var q :| q in Downsampled(pts, n) && q.v >= pts[hi].v;
    assert forall x | x in pts :: p.v <= x.v && x.v <= q.v;
  }
}
