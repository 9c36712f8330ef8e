/** Integer arithmetic behind the progress display: truncating percentages
    and the running-average estimate of the session's total size. */
module Metrics {

  /** `int(100 * done / total)` on non-negative integers: the percentage
      truncated toward zero. */
  function Percent(done: nat, total: nat): (p: nat)
    requires total > 0
    ensures p * total <= 100 * done < (p + 1) * total
  {
    (100 * done) / total
  }

  /** The percentage is the floor of the exact ratio: it never reaches 100
      before the last byte and is at most 100 while `done <= total`. */
  lemma PercentBounds(done: nat, total: nat)
    requires total > 0
    ensures Percent(done, total) * total <= 100 * done < (Percent(done, total) + 1) * total
    ensures done <= total ==> Percent(done, total) <= 100
    ensures done < total ==> Percent(done, total) < 100
    ensures done == total ==> Percent(done, total) == 100
  {
    var p := Percent(done, total);
    var r := (100 * done) % total;
    assert 100 * done == p * total + r;
    if done < total {
      assert p * total <= 100 * done < 100 * total;
    } else if done == total {
      DivExact(100, total);
    }
  }

  /** More bytes never show a smaller percentage. */
  lemma PercentMonotone(a: nat, b: nat, total: nat)
    requires total > 0
    requires a <= b
    ensures Percent(a, total) <= Percent(b, total)
  {
    DivMono(100 * a, 100 * b, total);
  }

  lemma MulMono(a: nat, b: nat, c: nat)
    requires a <= b
    ensures a * c <= b * c
  {
  }

  lemma DivMono(x: nat, y: nat, d: nat)
    requires d > 0
    requires x <= y
    ensures x / d <= y / d
  {
    var qx, qy := x / d, y / d;
    assert x == qx * d + x % d;
    assert y == qy * d + y % d;
    if qx > qy {
      MulMono(qy + 1, qx, d);
    }
  }

  /** `int(chunk_count * vod_size / vod_count)`: the number of segments times
      the average size of the segments that have reported a size. */
  function Estimate(chunkCount: nat, vodSize: nat, vodCount: nat): (e: nat)
    requires vodCount > 0
    ensures e * vodCount <= chunkCount * vodSize < (e + 1) * vodCount
  {
    (chunkCount * vodSize) / vodCount
  }

  /** The total of a list of sizes. */
  function Sum(sizes: seq<nat>): nat
  {
    if sizes == [] then 0 else Sum(sizes[..|sizes| - 1]) + sizes[|sizes| - 1]
  }

  lemma SumAppend(sizes: seq<nat>, x: nat)
    ensures Sum(sizes + [x]) == Sum(sizes) + x
  {
    assert (sizes + [x])[..|sizes|] == sizes;
  }

  lemma {:induction false} SumBounds(sizes: seq<nat>, lo: nat, hi: nat)
    requires forall i :: 0 <= i < |sizes| ==> lo <= sizes[i] <= hi
    ensures |sizes| * lo <= Sum(sizes) <= |sizes| * hi
  {
    if sizes != [] {
      var init, n := sizes[..|sizes| - 1], |sizes| - 1;
      SumBounds(init, lo, hi);
      assert lo <= sizes[n] <= hi;
      MulSucc(n, lo);
      MulSucc(n, hi);
    }
  }

  lemma MulSucc(n: nat, x: nat)
    ensures (n + 1) * x == n * x + x
  {
  }

  /** The estimate lies between `chunkCount` times the smallest and
      `chunkCount` times the largest size reported so far. */
  lemma EstimateWithinSizes(chunkCount: nat, sizes: seq<nat>, lo: nat, hi: nat)
    requires sizes != []
    requires forall i :: 0 <= i < |sizes| ==> lo <= sizes[i] <= hi
    ensures chunkCount * lo <= Estimate(chunkCount, Sum(sizes), |sizes|) <= chunkCount * hi
  {
    SumBounds(sizes, lo, hi);
    ScaledQuotientAbove(chunkCount, lo, Sum(sizes), |sizes|);
    ScaledQuotientBelow(chunkCount, hi, Sum(sizes), |sizes|);
  }

  lemma ScaledQuotientAbove(n: nat, x: nat, total: nat, k: nat)
    requires k > 0
    requires k * x <= total
    ensures n * x <= (n * total) / k
  {
    MulMono(k * x, total, n);
    assert (n * x) * k == (k * x) * n;
    DivMono((n * x) * k, n * total, k);
    DivExact(n * x, k);
  }

  lemma ScaledQuotientBelow(n: nat, x: nat, total: nat, k: nat)
    requires k > 0
    requires total <= k * x
    ensures (n * total) / k <= n * x
  {
    MulMono(total, k * x, n);
    assert (n * x) * k == (k * x) * n;
    DivMono(n * total, (n * x) * k, k);
    DivExact(n * x, k);
  }

  lemma DivExact(q: nat, d: nat)
    requires d > 0
    ensures (q * d) / d == q
  {
    var r, m := (q * d) / d, (q * d) % d;
    assert q * d == r * d + m;
    if r < q {
      MulMono(r + 1, q, d);
    } else if r > q {
      MulMono(q + 1, r, d);
    }
  }

  /** When every segment has the same size, the estimate is exact:
      `chunkCount` times that size. */
  lemma EstimateOfUniformSizes(chunkCount: nat, sizes: seq<nat>, size: nat)
    requires sizes != []
    requires forall i :: 0 <= i < |sizes| ==> sizes[i] == size
    ensures Estimate(chunkCount, Sum(sizes), |sizes|) == chunkCount * size
  {
    EstimateWithinSizes(chunkCount, sizes, size, size);
  }
}
