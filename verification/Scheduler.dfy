/** Algorithm 1: the three-stage cascading filter from the worker status table to the candidate
    bitmap (userspace_simulation/src/scheduler.rs, and the same text in hermes/src/scheduler.rs).
    Any number of workers up to 64; f64 is idealised as real and the i64 sum as int, which
    SumFitsInI64 justifies for counters below 2^57. */
module Scheduler {
  import opened Words

  const HANG_THRESHOLD_NS := 200_000_000
  const THETA_RATIO := 0.5
  const THETA_MIN := 1.0

  datatype Snapshot = Snapshot(stamp: int, pending: int, conns: int)

  datatype ScheduleResult = ScheduleResult(bitmap: nat, afterStage1: nat, afterStage2: nat, afterStage3: nat)

  /** Stage 1: a zero stamp is a worker that has not started and counts as alive. */
  predicate Alive(s: Snapshot, now: int, threshold: int) {
    s.stamp == 0 || now - s.stamp < threshold
  }

  /** The live workers numbered i and above, in order. */
  function AliveFrom(snaps: seq<Snapshot>, now: int, threshold: int, i: nat): (c: seq<nat>)
    requires i <= |snaps|
    ensures forall k :: 0 <= k < |c| ==> i <= c[k] < |snaps|
    ensures forall j, k :: 0 <= j < k < |c| ==> c[j] < c[k]
    ensures forall w: nat :: w in c <==> i <= w < |snaps| && Alive(snaps[w], now, threshold)
    decreases |snaps| - i
  {
    if i == |snaps| then []
    else if Alive(snaps[i], now, threshold) then [i] + AliveFrom(snaps, now, threshold, i + 1)
    else AliveFrom(snaps, now, threshold, i + 1)
  }

  /** Candidates: distinct worker numbers within a table of W rows, in increasing order. */
  ghost predicate Candidates(c: seq<nat>, W: nat) {
    && (forall k :: 0 <= k < |c| ==> c[k] < W)
    && (forall j, k :: 0 <= j < k < |c| ==> c[j] < c[k])
  }

  function Sum(c: seq<nat>, m: seq<int>): int
    requires forall k :: 0 <= k < |c| ==> c[k] < |m|
  {
    if c == [] then 0 else m[c[0]] + Sum(c[1..], m)
  }

  /** avg + theta, with theta = max(0.5 avg, 1.0). */
  function Baseline(sum: int, k: nat): real
    requires k > 0
  {
    var avg := sum as real / k as real;
    var theta := if THETA_RATIO * avg >= THETA_MIN then THETA_RATIO * avg else THETA_MIN;
    avg + theta
  }

  /** The members of c whose metric is below the baseline, in order. */
  function Below(c: seq<nat>, m: seq<int>, baseline: real): (r: seq<nat>)
    requires forall k :: 0 <= k < |c| ==> c[k] < |m|
    ensures forall w :: w in r <==> w in c && m[w] as real < baseline
    ensures forall k :: 0 <= k < |r| ==> r[k] < |m|
  {
    if c == [] then []
    else if m[c[0]] as real < baseline then [c[0]] + Below(c[1..], m, baseline)
    else Below(c[1..], m, baseline)
  }

  /** One load filter. */
  function FilterBelowBaseline(c: seq<nat>, m: seq<int>): (r: seq<nat>)
    requires forall k :: 0 <= k < |c| ==> c[k] < |m|
    ensures forall w :: w in r ==> w in c
    ensures forall k :: 0 <= k < |r| ==> r[k] < |m|
  {
    if c == [] then []
    else
      var r := Below(c, m, Baseline(Sum(c, m), |c|));
      assert forall k :: 0 <= k < |r| ==> r[k] in r;
      r
  }

  /** The fold that ORs one bit per candidate into the map. */
  function FoldBits(c: seq<nat>, b: nat): nat {
    if c == [] then b else FoldBits(c[1..], Or(b, Pow2(c[0])))
  }

  function Conns(snaps: seq<Snapshot>): (m: seq<int>) { seq(|snaps|, i requires 0 <= i < |snaps| => snaps[i].conns) }

  function Pendings(snaps: seq<Snapshot>): (m: seq<int>) { seq(|snaps|, i requires 0 <= i < |snaps| => snaps[i].pending) }

  function Stage1(snaps: seq<Snapshot>, now: int, threshold: int): seq<nat> {
    AliveFrom(snaps, now, threshold, 0)
  }

  function Stage2(snaps: seq<Snapshot>, now: int, threshold: int): seq<nat> {
    FilterBelowBaseline(Stage1(snaps, now, threshold), Conns(snaps))
  }

  function Stage3(snaps: seq<Snapshot>, now: int, threshold: int): seq<nat> {
    FilterBelowBaseline(Stage2(snaps, now, threshold), Pendings(snaps))
  }

  function Schedule(snaps: seq<Snapshot>, now: int, threshold: int): ScheduleResult {
    ScheduleResult(FoldBits(Stage3(snaps, now, threshold), 0),
                   |Stage1(snaps, now, threshold)|,
                   |Stage2(snaps, now, threshold)|,
                   |Stage3(snaps, now, threshold)|)
  }

  // ---- the cutoff in integers ----

  /** Survival without division: below 3/2 of the mean, or below the mean plus one. */
  predicate Survives(m: int, sum: int, k: nat) {
    2 * k * m < 3 * sum || k * m < sum + k
  }

  lemma BaselineInIntegers(m: int, sum: int, k: nat)
    requires k > 0
    ensures m as real < Baseline(sum, k) <==> Survives(m, sum, k)
  {
    var avg := sum as real / k as real;
    BelowMean(m, sum, k);
    BelowMeanPlusOne(m, sum, k);
    assert m as real < Baseline(sum, k) <==> m as real < 1.5 * avg || m as real < avg + 1.0;
  }

  lemma MeanTimesCount(sum: int, k: nat)
    requires k > 0
    ensures (sum as real / k as real) * k as real == sum as real
  {
  }

  /** A candidate is below 3/2 of the mean exactly if 2km < 3 sum. */
  lemma BelowMean(m: int, sum: int, k: nat)
    requires k > 0
    ensures m as real < 1.5 * (sum as real / k as real) <==> 2 * k * m < 3 * sum
  {
    MeanTimesCount(sum, k);
    RealBelowMean(k as real, m as real, sum as real, sum as real / k as real);
    ProductAsReal(k, m);
    LessAsReals(2 * (k * m), 3 * sum);
    assert 2 * k * m == 2 * (k * m);
  }

  lemma RealBelowMean(k: real, m: real, sum: real, mean: real)
    requires k > 0.0 && mean * k == sum
    ensures m < 1.5 * mean <==> 2.0 * (k * m) < 3.0 * sum
  {
    RealLess(k, m, 1.5 * mean);
    ScaledMean(k, mean, 1.5);
  }

  /** It is below the mean plus one exactly if km < sum + k. */
  lemma BelowMeanPlusOne(m: int, sum: int, k: nat)
    requires k > 0
    ensures m as real < sum as real / k as real + 1.0 <==> k * m < sum + k
  {
    MeanTimesCount(sum, k);
    RealBelowMeanPlusOne(k as real, m as real, sum as real, sum as real / k as real);
    ProductAsReal(k, m);
    LessAsReals(k * m, sum + k);
  }

  lemma RealBelowMeanPlusOne(k: real, m: real, sum: real, mean: real)
    requires k > 0.0 && mean * k == sum
    ensures m < mean + 1.0 <==> k * m < sum + k
  {
    RealLess(k, m, mean + 1.0);
    MeanPlusOne(k, mean);
  }

  lemma MeanPlusOne(k: real, mean: real)
    ensures k * (mean + 1.0) == mean * k + k
  {
  }

  lemma LessAsReals(a: int, b: int)
    ensures a < b <==> a as real < b as real
  {
  }

  lemma RealLess(k: real, a: real, b: real)
    requires k > 0.0
    ensures a < b <==> k * a < k * b
  {
    RealSign(k, a - b);
    RealDistributes(k, a, b);
  }

  lemma ScaledMean(k: real, mean: real, x: real)
    ensures k * (x * mean) == x * (mean * k)
  {
  }

  lemma RealDistributes(a: real, b: real, c: real)
    ensures a * (b - c) == a * b - a * c
  {
  }

  lemma {:induction false} ProductAsReal(k: nat, m: int)
    ensures k as real * m as real == (k * m) as real
  {
    if k > 0 {
      var K, M, n := (k - 1) as real, m as real, (k - 1) * m;
      ProductAsReal(k - 1, m);
      assert K + 1.0 == k as real;
      RealSuccessorTimes(K, M);
      SuccessorTimes(k - 1, m);
      assert (n + m) as real == n as real + M;
      assert (k * m) as real == (n + m) as real;
      assert k as real * M == K * M + M;
    } else {
      ZeroTimes(m);
      assert (k * m) as real == 0.0 == k as real * m as real;
    }
  }

  lemma RealSuccessorTimes(K: real, M: real)
    ensures (K + 1.0) * M == K * M + M
  {
  }

  lemma SuccessorTimes(k: int, m: int)
    ensures (k + 1) * m == k * m + m
  {
  }

  lemma ZeroTimes(m: int)
    ensures 0 * m == 0
    ensures 0.0 * m as real == 0.0
  {
  }

  lemma RealSign(a: real, b: real)
    requires a > 0.0
    ensures a * b < 0.0 <==> b < 0.0
  {
  }

  /** The filter keeps exactly the candidates that pass the integer test. */
  lemma FilterMeaning(c: seq<nat>, m: seq<int>, w: nat)
    requires forall k :: 0 <= k < |c| ==> c[k] < |m|
    ensures w in FilterBelowBaseline(c, m) <==> w in c && Survives(m[w], Sum(c, m), |c|)
  {
    if c != [] && w in c { BaselineInIntegers(m[w], Sum(c, m), |c|); }
  }

  lemma {:induction false} BelowKeepsOrder(c: seq<nat>, m: seq<int>, baseline: real)
    requires Candidates(c, |m|)
    ensures Candidates(Below(c, m, baseline), |m|)
  {
    if c != [] {
      BelowKeepsOrder(c[1..], m, baseline);
      var r := Below(c[1..], m, baseline);
      forall k | 0 <= k < |r| ensures c[0] < r[k] { assert r[k] in c[1..]; }
    }
  }

  /** A filter pass leaves a set of candidates. */
  lemma FilterKeepsOrder(c: seq<nat>, m: seq<int>)
    requires Candidates(c, |m|)
    ensures Candidates(FilterBelowBaseline(c, m), |m|)
  {
    if c != [] { BelowKeepsOrder(c, m, Baseline(Sum(c, m), |c|)); }
  }

  // ---- how much a pass keeps ----

  /** A sum loses nothing when only candidates of non-negative value t are added back. */
  lemma {:induction false} DroppedValue(c: seq<nat>, m: seq<int>, baseline: real, t: seq<int>)
    requires |t| == |m| && forall j :: 0 <= j < |c| ==> c[j] < |m|
    requires forall j :: 0 <= j < |c| && m[c[j]] as real >= baseline ==> t[c[j]] >= 0
    ensures |Below(c, m, baseline)| <= |c|
    ensures Sum(Below(c, m, baseline), t) <= Sum(c, t)
  {
    if c != [] {
      var d := c[1..];
      forall j | 0 <= j < |d| && m[d[j]] as real >= baseline ensures t[d[j]] >= 0 {
        assert d[j] == c[j + 1];
      }
      DroppedValue(d, m, baseline, t);
      var r := Below(d, m, baseline);
      if m[c[0]] as real < baseline {
        assert ([c[0]] + r)[1..] == r;
      }
    }
  }

  function Affine(m: seq<int>, p: int, q: int): (t: seq<int>) {
    seq(|m|, i requires 0 <= i < |m| => p * m[i] - q)
  }

  lemma {:induction false} SumOfAffine(c: seq<nat>, m: seq<int>, p: int, q: int)
    requires forall j :: 0 <= j < |c| ==> c[j] < |m|
    ensures Sum(c, Affine(m, p, q)) == p * Sum(c, m) - q * |c|
  {
    if c != [] {
      SumOfAffine(c[1..], m, p, q);
      AffineStep(p, q, m[c[0]], Sum(c[1..], m), |c[1..]|);
    }
  }

  lemma AffineStep(p: int, q: int, x: int, s: int, n: int)
    ensures (p * x - q) + (p * s - q * n) == p * (x + s) - q * (n + 1)
  {
  }

  /** Of k candidates summing to `sum`, the n kept sum to `kept`; those dropped weigh at least 3/2
      of the mean each, and at least the mean plus one each. */
  ghost predicate Outweighed(k: int, sum: int, kept: int, n: int) {
    && (2 * k) * kept - (3 * sum) * n <= (2 * k) * sum - (3 * sum) * k
    && k * kept - (sum + k) * n <= k * sum - (sum + k) * k
  }

  /** What the dropped candidates weigh together: at least 3/2 of the mean each, and at least
      the mean plus one each. */
  lemma DroppedWeight(c: seq<nat>, m: seq<int>)
    requires c != [] && forall j :: 0 <= j < |c| ==> c[j] < |m|
    ensures var r, k, sum := FilterBelowBaseline(c, m), |c|, Sum(c, m);
            |r| <= k && Outweighed(k, sum, Sum(r, m), |r|)
  {
    DroppedBy(c, m, 2 * |c|, 3 * Sum(c, m));
    DroppedBy(c, m, |c|, Sum(c, m) + |c|);
  }

  lemma DroppedBy(c: seq<nat>, m: seq<int>, p: int, q: int)
    requires c != [] && forall j :: 0 <= j < |c| ==> c[j] < |m|
    requires (p == 2 * |c| && q == 3 * Sum(c, m)) || (p == |c| && q == Sum(c, m) + |c|)
    ensures var r := FilterBelowBaseline(c, m);
            |r| <= |c| && p * Sum(r, m) - q * |r| <= p * Sum(c, m) - q * |c|
  {
    var k, sum, t := |c|, Sum(c, m), Affine(m, p, q);
    forall j | 0 <= j < |c| && m[c[j]] as real >= Baseline(sum, k) ensures t[c[j]] >= 0 {
      BaselineInIntegers(m[c[j]], sum, k);
    }
    DroppedValue(c, m, Baseline(sum, k), t);
    SumOfAffine(c, m, p, q);
    SumOfAffine(FilterBelowBaseline(c, m), m, p, q);
  }

  lemma {:induction false} SumNonNegative(c: seq<nat>, m: seq<int>)
    requires forall j :: 0 <= j < |c| ==> c[j] < |m| && m[c[j]] >= 0
    ensures Sum(c, m) >= 0
  {
    if c != [] {
      assert c[0] < |m| && m[c[0]] >= 0;
      SumNonNegative(c[1..], m);
    }
  }

  /** For metrics of any sign a filter pass never empties a non-empty candidate set. */
  lemma FilterNeverEmpties(c: seq<nat>, m: seq<int>)
    requires forall j :: 0 <= j < |c| ==> c[j] < |m|
    ensures FilterBelowBaseline(c, m) == [] <==> c == []
  {
    if c != [] {
      DroppedWeight(c, m);
      NotAllDropped(|c|, Sum(c, m));
    }
  }

  lemma NotAllDropped(k: int, sum: int)
    requires k > 0
    ensures !Outweighed(k, sum, 0, 0)
  {
    assert (sum + k) * k == k * sum + k * k && k * k > 0;
  }

  lemma KeptNonNegative(c: seq<nat>, m: seq<int>)
    requires forall j :: 0 <= j < |c| ==> c[j] < |m| && m[c[j]] >= 0
    ensures var r := FilterBelowBaseline(c, m); forall j :: 0 <= j < |r| ==> r[j] < |m| && m[r[j]] >= 0
  {
    var r := FilterBelowBaseline(c, m);
    forall j | 0 <= j < |r| ensures r[j] < |m| && m[r[j]] >= 0 { assert r[j] in c; }
  }

  /** For non-negative metrics a pass keeps at least a third of its candidates. */
  lemma FilterKeepsAThird(c: seq<nat>, m: seq<int>)
    requires forall j :: 0 <= j < |c| ==> c[j] < |m| && m[c[j]] >= 0
    ensures |FilterBelowBaseline(c, m)| <= |c| <= 3 * |FilterBelowBaseline(c, m)|
  {
    if c != [] {
      var r := FilterBelowBaseline(c, m);
      KeptNonNegative(c, m);
      hide FilterBelowBaseline, Outweighed, Sum;
      DroppedWeight(c, m);
      SumNonNegative(c, m);
      SumNonNegative(r, m);
      ThirdArithmetic(|c|, Sum(c, m), Sum(r, m), |r|);
    }
  }

  /** If the dropped candidates outweigh 3/2 of the mean each, a third is kept. */
  lemma ThirdArithmetic(k: int, sum: int, kept: int, n: int)
    requires k > 0 && 0 <= n <= k && kept >= 0 && sum >= 0
    requires Outweighed(k, sum, kept, n)
    ensures k <= 3 * n
  {
    assert (2 * k) * kept >= 0 && k * kept >= 0;
    if sum > 0 {
      assert (3 * n - k) * sum == (3 * sum) * n - (3 * sum) * k + (2 * k) * sum;
      MulAtLeast(3 * n - k, sum);
    } else {
      assert (k - n) * k == (sum + k) * k - (sum + k) * n;
      MulAtLeast(k - n, k);
    }
  }

  /** A pass never raises the mean: sum_out / |out| <= sum_in / |in|. */
  lemma FilterLowersMean(c: seq<nat>, m: seq<int>)
    requires forall j :: 0 <= j < |c| ==> c[j] < |m|
    ensures Sum(FilterBelowBaseline(c, m), m) * |c| <= Sum(c, m) * |FilterBelowBaseline(c, m)|
  {
    if c != [] {
      hide Outweighed;
      var r := FilterBelowBaseline(c, m);
      DroppedWeight(c, m);
      MeanArithmetic(|c|, Sum(c, m), Sum(r, m), |r|);
    }
  }

  lemma MeanArithmetic(k: int, sum: int, kept: int, n: int)
    requires k > 0 && n <= k && Outweighed(k, sum, kept, n)
    ensures kept * k <= sum * n
  {
    assert (sum + k) * k - (sum + k) * n == sum * k - sum * n + k * (k - n);
    assert k * (k - n) >= 0;
  }

  /** Whoever is no more loaded than a survivor survives too. */
  lemma FilterDownwardClosed(c: seq<nat>, m: seq<int>, v: nat, w: nat)
    requires forall j :: 0 <= j < |c| ==> c[j] < |m|
    requires v in c && w in FilterBelowBaseline(c, m) && m[v] <= m[w]
    ensures v in FilterBelowBaseline(c, m)
  {
    assert m[v] as real <= m[w] as real;
  }

  /** The third is attained: of the metrics 0, 3, 3 only the first survives. */
  lemma ThirdIsTight()
    ensures FilterBelowBaseline([0, 1, 2], [0, 3, 3]) == [0]
  {
    var c, m := [0, 1, 2], [0, 3, 3];
    assert c[1..] == [1, 2] && c[1..][1..] == [2] && c[1..][1..][1..] == [];
    assert Sum(c, m) == 6;
    assert Baseline(6, 3) == 3.0;
  }

  // ---- a second pass ----

  lemma {:induction false} BelowKeepsAll(c: seq<nat>, m: seq<int>, baseline: real)
    requires forall j :: 0 <= j < |c| ==> c[j] < |m|
    ensures Below(c, m, baseline) == c <==> forall j :: 0 <= j < |c| ==> m[c[j]] as real < baseline
  {
    var r := Below(c, m, baseline);
    if c != [] {
      var first := c[0];
      BelowKeepsAll(c[1..], m, baseline);
      if m[c[0]] as real < baseline {
        assert r[1..] == Below(c[1..], m, baseline);
        assert forall j :: 0 < j < |c| ==> c[j] == c[1..][j - 1];
      } else {
        assert first in c && first !in r;
      }
    }
  }

  /** h is a candidate of greatest metric. */
  ghost predicate Heaviest(c: seq<nat>, m: seq<int>, h: nat)
    requires forall j :: 0 <= j < |c| ==> c[j] < |m|
  {
    h in c && forall j :: 0 <= j < |c| ==> m[c[j]] <= m[h]
  }

  /** A pass changes nothing exactly when its heaviest candidate passes the integer test. */
  lemma PassChangesNothingIff(c: seq<nat>, m: seq<int>, h: nat)
    requires forall j :: 0 <= j < |c| ==> c[j] < |m|
    requires Heaviest(c, m, h)
    ensures FilterBelowBaseline(c, m) == c <==> Survives(m[h], Sum(c, m), |c|)
  {
    var baseline := Baseline(Sum(c, m), |c|);
    BelowKeepsAll(c, m, baseline);
    BaselineInIntegers(m[h], Sum(c, m), |c|);
    var i :| 0 <= i < |c| && c[i] == h;
  }

  /** So repeating a pass changes nothing if and only if the heaviest survivor of the first is
      light enough among the survivors. */
  lemma SecondPassChangesNothingIff(c: seq<nat>, m: seq<int>, h: nat)
    requires forall j :: 0 <= j < |c| ==> c[j] < |m|
    requires Heaviest(FilterBelowBaseline(c, m), m, h)
    ensures var r := FilterBelowBaseline(c, m);
            FilterBelowBaseline(r, m) == r <==> Survives(m[h], Sum(r, m), |r|)
  {
    PassChangesNothingIff(FilterBelowBaseline(c, m), m, h);
  }

  /** Every non-empty candidate set has a heaviest member. */
  lemma {:induction false} SomeHeaviest(c: seq<nat>, m: seq<int>) returns (h: nat)
    requires c != [] && forall j :: 0 <= j < |c| ==> c[j] < |m|
    ensures Heaviest(c, m, h)
  {
    h := c[0];
    if |c| > 1 {
      var later := SomeHeaviest(c[1..], m);
      assert forall j :: 0 < j < |c| ==> c[j] == c[1..][j - 1];
      if m[later] > m[h] { h := later; }
    }
  }

  /** A pass is not idempotent: of the metrics 0, 3, 6 the first keeps two, the next one. */
  lemma FilterNotIdempotent()
    ensures var c, m := [0, 1, 2], [0, 3, 6];
            && FilterBelowBaseline(c, m) == [0, 1]
            && FilterBelowBaseline(FilterBelowBaseline(c, m), m) == [0]
  {
    var c, m := [0, 1, 2], [0, 3, 6];
    assert c[1..] == [1, 2] && c[1..][1..] == [2] && c[1..][1..][1..] == [];
    assert Sum(c, m) == 9;
    assert Baseline(9, 3) == 4.5;
    var d := [0, 1];
    assert d[1..] == [1] && d[1..][1..] == [];
    assert Sum(d, m) == 3;
    assert Baseline(3, 2) == 2.5;
  }

  // ---- the bitmap ----

  lemma {:induction false} FoldBitsMeaning(c: seq<nat>, b: nat, i: nat)
    ensures Bit(FoldBits(c, b), i) <==> Bit(b, i) || i in c
  {
    if c != [] {
      FoldBitsMeaning(c[1..], Or(b, Pow2(c[0])), i);
      BitOfOr(b, Pow2(c[0]), i);
      BitOfPow2(c[0], i);
    }
  }

  lemma {:induction false} RankOfSetBit(b: nat, i: nat, k: nat)
    ensures Rank(Or(b, Pow2(i)), k) == Rank(b, k) + (if i < k && !Bit(b, i) then 1 else 0)
  {
    if k > 0 {
      RankOfSetBit(b, i, k - 1);
      BitOfOr(b, Pow2(i), k - 1);
      BitOfPow2(i, k - 1);
    }
  }

  lemma {:induction false} RankOfFold(c: seq<nat>, b: nat, W: nat)
    requires Candidates(c, W) && forall k :: 0 <= k < |c| ==> !Bit(b, c[k])
    ensures Rank(FoldBits(c, b), W) == Rank(b, W) + |c|
  {
    if c != [] {
      var b' := Or(b, Pow2(c[0]));
      forall k | 0 <= k < |c[1..]| ensures !Bit(b', c[1..][k]) {
        assert c[1..][k] == c[k + 1] > c[0];
        BitOfOr(b, Pow2(c[0]), c[k + 1]);
        BitOfPow2(c[0], c[k + 1]);
      }
      RankOfFold(c[1..], b', W);
      RankOfSetBit(b, c[0], W);
    }
  }

  /** The map of W-row candidates has exactly their bits, none at or above W, and one per
      candidate. */
  lemma BitmapOfCandidates(c: seq<nat>, W: nat)
    requires Candidates(c, W)
    ensures forall i: nat :: Bit(FoldBits(c, 0), i) <==> i in c
    ensures FoldBits(c, 0) < Pow2(W) && CountOnes(FoldBits(c, 0)) == |c|
  {
    var b := FoldBits(c, 0);
    forall i: nat ensures Bit(b, i) <==> i in c {
      FoldBitsMeaning(c, 0, i);
      BitOfZero(i);
    }
    assert ClearFrom(b, W);
    BelowPow2(b, W);
    forall k | 0 <= k < |c| ensures !Bit(0, c[k]) { BitOfZero(c[k]); }
    RankOfFold(c, 0, W);
    RankOfZero(W);
    CountOnesIsRank(b, W);
  }

  lemma {:induction false} RankOfZero(k: nat)
    ensures Rank(0, k) == 0
  {
    if k > 0 {
      RankOfZero(k - 1);
      BitOfZero(k - 1);
    }
  }

  lemma StagesAreCandidates(snaps: seq<Snapshot>, now: int, threshold: int)
    ensures Candidates(Stage1(snaps, now, threshold), |snaps|)
    ensures Candidates(Stage2(snaps, now, threshold), |snaps|)
    ensures Candidates(Stage3(snaps, now, threshold), |snaps|)
  {
    FilterKeepsOrder(Stage1(snaps, now, threshold), Conns(snaps));
    FilterKeepsOrder(Stage2(snaps, now, threshold), Pendings(snaps));
  }

  /** The published map: a bit per stage-3 survivor, none at or above the worker count, popcount
      the stage-3 count, shrinking stage by stage, and zero exactly when stage 1 kept nobody. */
  lemma ScheduleBitmap(snaps: seq<Snapshot>, now: int, threshold: int)
    ensures var r := Schedule(snaps, now, threshold);
            && r.bitmap < Pow2(|snaps|)
            && CountOnes(r.bitmap) == r.afterStage3 <= r.afterStage2 <= r.afterStage1 <= |snaps|
            && (r.bitmap == 0 <==> forall w :: 0 <= w < |snaps| ==> !Alive(snaps[w], now, threshold))
    ensures forall w: nat :: Bit(Schedule(snaps, now, threshold).bitmap, w) <==> w in Stage3(snaps, now, threshold)
  {
    StagesAreCandidates(snaps, now, threshold);
    var c1, c2, c3 := Stage1(snaps, now, threshold), Stage2(snaps, now, threshold), Stage3(snaps, now, threshold);
    BitmapOfCandidates(c3, |snaps|);
    FilterShrinks(c1, Conns(snaps));
    FilterShrinks(c2, Pendings(snaps));
    FilterNeverEmpties(c1, Conns(snaps));
    FilterNeverEmpties(c2, Pendings(snaps));
    CandidatesBounded(c1, |snaps|);
    if c3 == [] {
      forall w | 0 <= w < |snaps| ensures !Alive(snaps[w], now, threshold) { assert w !in c1; }
    } else {
      assert Bit(FoldBits(c3, 0), c3[0]);
      BitOfZero(c3[0]);
      assert c1[0] in c1;
    }
  }

  lemma FilterShrinks(c: seq<nat>, m: seq<int>)
    requires forall j :: 0 <= j < |c| ==> c[j] < |m|
    ensures |FilterBelowBaseline(c, m)| <= |c|
  {
    if c != [] { DroppedWeight(c, m); }
  }

  lemma {:induction false} CandidatesBounded(c: seq<nat>, W: nat)
    requires Candidates(c, W)
    ensures |c| <= W
  {
    if c != [] {
      var last := |c| - 1;
      CandidatesBounded(c[..last], c[last]);
    }
  }

  /** Which bits are set, without division: the live workers whose connection count passes the
      integer test against all live workers, and whose pending count passes it against those. */
  lemma SetBitIff(snaps: seq<Snapshot>, now: int, threshold: int, w: nat)
    ensures var live, lighter := Stage1(snaps, now, threshold), Stage2(snaps, now, threshold);
            Bit(Schedule(snaps, now, threshold).bitmap, w) <==>
              && w < |snaps| && Alive(snaps[w], now, threshold)
              && Survives(snaps[w].conns, Sum(live, Conns(snaps)), |live|)
              && Survives(snaps[w].pending, Sum(lighter, Pendings(snaps)), |lighter|)
  {
    hide FilterBelowBaseline, Survives, Bit, FoldBits;
    ScheduleBitmap(snaps, now, threshold);
    if w < |snaps| {
      FilterMeaning(Stage1(snaps, now, threshold), Conns(snaps), w);
      FilterMeaning(Stage2(snaps, now, threshold), Pendings(snaps), w);
    }
  }

  /** The live workers; those of them whose connections pass the integer test against all of them;
      and those of these whose pending events pass it against these. */
  ghost function LiveSet(snaps: seq<Snapshot>, now: int, threshold: int): set<int> {
    set w | 0 <= w < |snaps| && Alive(snaps[w], now, threshold)
  }

  ghost function LighterSet(snaps: seq<Snapshot>, now: int, threshold: int): set<int> {
    var live := Stage1(snaps, now, threshold);
    set w | w in LiveSet(snaps, now, threshold) && Survives(snaps[w].conns, Sum(live, Conns(snaps)), |live|)
  }

  ghost function ChosenSet(snaps: seq<Snapshot>, now: int, threshold: int): set<int> {
    var lighter := Stage2(snaps, now, threshold);
    set w | w in LighterSet(snaps, now, threshold) && Survives(snaps[w].pending, Sum(lighter, Pendings(snaps)), |lighter|)
  }

  lemma StageMembers(snaps: seq<Snapshot>, now: int, threshold: int, w: int)
    ensures w in LiveSet(snaps, now, threshold) <==> w >= 0 && w in Stage1(snaps, now, threshold)
    ensures w in LighterSet(snaps, now, threshold) <==> w >= 0 && w in Stage2(snaps, now, threshold)
    ensures w in ChosenSet(snaps, now, threshold) <==> w >= 0 && w in Stage3(snaps, now, threshold)
  {
    hide Survives, FilterBelowBaseline, Alive;
    if 0 <= w < |snaps| {
      FilterMeaning(Stage1(snaps, now, threshold), Conns(snaps), w);
      FilterMeaning(Stage2(snaps, now, threshold), Pendings(snaps), w);
    }
  }

  /** What the stage counts count. */
  lemma StageCounts(snaps: seq<Snapshot>, now: int, threshold: int)
    ensures var r := Schedule(snaps, now, threshold);
            && r.afterStage1 == |LiveSet(snaps, now, threshold)|
            && r.afterStage2 == |LighterSet(snaps, now, threshold)|
            && r.afterStage3 == |ChosenSet(snaps, now, threshold)|
  {
    hide LiveSet, LighterSet, ChosenSet, Stage1, Stage2, Stage3, FoldBits, Members, Candidates;
    StagesAreCandidates(snaps, now, threshold);
    CandidatesCounted(Stage1(snaps, now, threshold), |snaps|);
    CandidatesCounted(Stage2(snaps, now, threshold), |snaps|);
    CandidatesCounted(Stage3(snaps, now, threshold), |snaps|);
    forall w: int
      ensures w in LiveSet(snaps, now, threshold) <==> w in Members(Stage1(snaps, now, threshold))
      ensures w in LighterSet(snaps, now, threshold) <==> w in Members(Stage2(snaps, now, threshold))
      ensures w in ChosenSet(snaps, now, threshold) <==> w in Members(Stage3(snaps, now, threshold))
    {
      StageMembers(snaps, now, threshold, w);
    }
    assert LiveSet(snaps, now, threshold) == Members(Stage1(snaps, now, threshold));
    assert LighterSet(snaps, now, threshold) == Members(Stage2(snaps, now, threshold));
    assert ChosenSet(snaps, now, threshold) == Members(Stage3(snaps, now, threshold));
  }

  function Members(c: seq<nat>): set<int> { set k | 0 <= k < |c| :: c[k] }

  lemma {:induction false} CandidatesCounted(c: seq<nat>, W: nat)
    requires Candidates(c, W)
    ensures |Members(c)| == |c| && forall w: int :: w in Members(c) <==> w >= 0 && w in c
  {
    if c != [] {
      var last := |c| - 1;
      CandidatesCounted(c[..last], W);
      assert c == c[..last] + [c[last]];
      assert Members(c) == Members(c[..last]) + {c[last]};
      assert c[last] !in Members(c[..last]);
    }
  }

  /** A set bit means the worker passed stage 1 in that pass. */
  lemma SetBitMeansAlive(snaps: seq<Snapshot>, now: int, threshold: int, w: nat)
    requires Bit(Schedule(snaps, now, threshold).bitmap, w)
    ensures w < |snaps| && Alive(snaps[w], now, threshold)
  {
    ScheduleBitmap(snaps, now, threshold);
    assert w in Stage1(snaps, now, threshold);
  }

  /** With non-negative counters the cascade keeps at least a ninth of the live workers. */
  lemma CascadeKeepsANinth(snaps: seq<Snapshot>, now: int, threshold: int)
    requires forall w :: 0 <= w < |snaps| ==> snaps[w].conns >= 0 && snaps[w].pending >= 0
    ensures var r := Schedule(snaps, now, threshold);
            r.afterStage1 <= 3 * r.afterStage2 && r.afterStage2 <= 3 * r.afterStage3
            && r.afterStage1 <= 9 * r.afterStage3
  {
    FilterKeepsAThird(Stage1(snaps, now, threshold), Conns(snaps));
    FilterKeepsAThird(Stage2(snaps, now, threshold), Pendings(snaps));
  }

  /** With at most 64 rows and counters below 2^57 the i64 accumulator cannot overflow. */
  lemma {:induction false} SumFitsInI64(c: seq<nat>, m: seq<int>)
    requires |c| <= 64
    requires forall j :: 0 <= j < |c| ==> c[j] < |m| && -0x200_0000_0000_0000 < m[c[j]] < 0x200_0000_0000_0000
    ensures -0x8000_0000_0000_0000 <= Sum(c, m) < 0x8000_0000_0000_0000
  {
    SumBounded(c, m);
  }

  lemma {:induction false} SumBounded(c: seq<nat>, m: seq<int>)
    requires forall j :: 0 <= j < |c| ==> c[j] < |m| && -0x200_0000_0000_0000 < m[c[j]] < 0x200_0000_0000_0000
    ensures -0x1FF_FFFF_FFFF_FFFF * |c| <= Sum(c, m) <= 0x1FF_FFFF_FFFF_FFFF * |c|
  {
    if c != [] {
      assert -0x200_0000_0000_0000 < m[c[0]] < 0x200_0000_0000_0000;
      SumBounded(c[1..], m);
    }
  }

  // ---- relabelling the workers ----

  /** p renumbers the W workers one to one. */
  ghost predicate Renumbering(p: seq<nat>, W: nat) {
    && |p| == W
    && (forall i :: 0 <= i < W ==> p[i] < W)
    && (forall i, j :: 0 <= i < j < W ==> p[i] != p[j])
    && (forall v: nat {:trigger v in p} :: v < W ==> v in p)
  }

  /** d holds exactly the new numbers of c's members. */
  ghost predicate Renumbered(c: seq<nat>, d: seq<nat>, p: seq<nat>, W: nat) {
    && Distinct(c, W) && Distinct(d, W)
    && |p| == W
    && forall i: nat :: i < W ==> (i in c <==> p[i] in d)
  }

  ghost predicate Distinct(c: seq<nat>, W: nat) {
    && (forall k :: 0 <= k < |c| ==> c[k] < W)
    && (forall j, k :: 0 <= j < k < |c| ==> c[j] != c[k])
  }

  ghost predicate SameUnder(m: seq<int>, m': seq<int>, p: seq<nat>, W: nat) {
    |m| == |m'| == |p| == W && forall i :: 0 <= i < W ==> p[i] < W && m'[p[i]] == m[i]
  }

  lemma {:induction false} SumWithout(c: seq<nat>, m: seq<int>, k: nat)
    requires k < |c| && forall j :: 0 <= j < |c| ==> c[j] < |m|
    ensures Sum(c, m) == m[c[k]] + Sum(c[..k] + c[k + 1..], m)
  {
    var rest := c[..k] + c[k + 1..];
    if k == 0 {
      assert rest == c[1..];
    } else {
      SumWithout(c[1..], m, k - 1);
      assert rest[0] == c[0] && rest[1..] == c[1..][..k - 1] + c[1..][k..];
    }
  }

  /** Renumbered candidates have the same number and the same total metric. */
  lemma {:induction false} SumRenumbered(c: seq<nat>, d: seq<nat>, p: seq<nat>, W: nat, m: seq<int>, m': seq<int>)
    requires Renumbering(p, W) && Renumbered(c, d, p, W) && SameUnder(m, m', p, W)
    ensures |c| == |d| && Sum(c, m) == Sum(d, m')
    decreases |c|
  {
    if c == [] {
      NothingRenumbered(d, p, W);
    } else {
      var v := p[c[0]];
      assert c[0] in c && v in d;
      var k :| 0 <= k < |d| && d[k] == v;
      var d' := d[..k] + d[k + 1..];
      RestRenumbered(c, d, p, W, k);
      SumRenumbered(c[1..], d', p, W, m, m');
      SumWithout(d, m', k);
    }
  }

  lemma NothingRenumbered(d: seq<nat>, p: seq<nat>, W: nat)
    requires Renumbering(p, W) && Renumbered([], d, p, W)
    ensures d == []
  {
    HasPreImage(d, p, W);
  }

  lemma HasPreImage(d: seq<nat>, p: seq<nat>, W: nat)
    requires Renumbering(p, W) && Distinct(d, W)
    ensures d == [] || exists i: nat :: i < W && p[i] in d
  {
    if d != [] {
      var v := d[0];
      assert v in p;
      var i :| 0 <= i < |p| && p[i] == v;
      assert p[i] in d;
    }
  }

  lemma RestRenumbered(c: seq<nat>, d: seq<nat>, p: seq<nat>, W: nat, k: nat)
    requires Renumbering(p, W) && Renumbered(c, d, p, W)
    requires c != [] && k < |d| && d[k] == p[c[0]]
    ensures Renumbered(c[1..], d[..k] + d[k + 1..], p, W)
  {
    var d' := d[..k] + d[k + 1..];
    forall i: nat | i < W ensures i in c[1..] <==> p[i] in d' {
      assert i in c[1..] <==> i in c && i != c[0];
      assert p[i] in d' <==> p[i] in d && p[i] != d[k];
    }
  }

  lemma FilterRenumbered(c: seq<nat>, d: seq<nat>, p: seq<nat>, W: nat, m: seq<int>, m': seq<int>)
    requires Renumbering(p, W) && Renumbered(c, d, p, W) && SameUnder(m, m', p, W)
    requires Candidates(c, W) && Candidates(d, W)
    ensures Renumbered(FilterBelowBaseline(c, m), FilterBelowBaseline(d, m'), p, W)
  {
    SumRenumbered(c, d, p, W, m, m');
    FilterKeepsOrder(c, m);
    FilterKeepsOrder(d, m');
    forall i: nat | i < W
      ensures i in FilterBelowBaseline(c, m) <==> p[i] in FilterBelowBaseline(d, m')
    {
      FilterMeaning(c, m, i);
      FilterMeaning(d, m', p[i]);
    }
  }

  /** The whole cascade commutes with renumbering the workers: the new map has bit p(i) exactly
      when the old one has bit i, and every stage keeps the same number. */
  lemma ScheduleCommutesWithRenumbering(snaps: seq<Snapshot>, snaps': seq<Snapshot>, p: seq<nat>, now: int,
                                        threshold: int)
    requires Renumbering(p, |snaps|) && |snaps'| == |snaps|
    requires forall i :: 0 <= i < |snaps| ==> snaps'[p[i]] == snaps[i]
    ensures var r, r' := Schedule(snaps, now, threshold), Schedule(snaps', now, threshold);
            && r'.(bitmap := 0) == r.(bitmap := 0)
            && forall i: nat :: i < |snaps| ==> (Bit(r.bitmap, i) <==> Bit(r'.bitmap, p[i]))
  {
    hide Stage1, Stage2, Stage3, Renumbered, FoldBits, Bit;
    StagesRenumbered(snaps, snaps', p, now, threshold);
    BitmapsRenumbered(snaps, snaps', p, now, threshold);
  }

  /** Every stage's survivors are renumbered, and as many as before. */
  lemma StagesRenumbered(snaps: seq<Snapshot>, snaps': seq<Snapshot>, p: seq<nat>, now: int, threshold: int)
    requires Renumbering(p, |snaps|) && |snaps'| == |snaps|
    requires forall i :: 0 <= i < |snaps| ==> snaps'[p[i]] == snaps[i]
    ensures Renumbered(Stage3(snaps, now, threshold), Stage3(snaps', now, threshold), p, |snaps|)
    ensures |Stage1(snaps, now, threshold)| == |Stage1(snaps', now, threshold)|
    ensures |Stage2(snaps, now, threshold)| == |Stage2(snaps', now, threshold)|
    ensures |Stage3(snaps, now, threshold)| == |Stage3(snaps', now, threshold)|
  {
    var W := |snaps|;
    StagesAreCandidates(snaps, now, threshold);
    StagesAreCandidates(snaps', now, threshold);
    LiveRenumbered(snaps, snaps', p, now, threshold);
    MetricsRenumbered(snaps, snaps', p);
    hide Renumbered, Renumbering, SameUnder, Candidates, FilterBelowBaseline, Stage1, Conns, Pendings;
    StageRenumbered(Stage1(snaps, now, threshold), Stage1(snaps', now, threshold), p, W, Conns(snaps), Conns(snaps'));
    StageRenumbered(Stage2(snaps, now, threshold), Stage2(snaps', now, threshold), p, W, Pendings(snaps),
                    Pendings(snaps'));
    SumRenumbered(Stage3(snaps, now, threshold), Stage3(snaps', now, threshold), p, W, Conns(snaps), Conns(snaps'));
  }

  lemma MetricsRenumbered(snaps: seq<Snapshot>, snaps': seq<Snapshot>, p: seq<nat>)
    requires Renumbering(p, |snaps|) && |snaps'| == |snaps|
    requires forall i :: 0 <= i < |snaps| ==> snaps'[p[i]] == snaps[i]
    ensures SameUnder(Conns(snaps), Conns(snaps'), p, |snaps|) && SameUnder(Pendings(snaps), Pendings(snaps'), p, |snaps|)
  {
  }

  lemma StageRenumbered(c: seq<nat>, d: seq<nat>, p: seq<nat>, W: nat, m: seq<int>, m': seq<int>)
    requires Renumbering(p, W) && Renumbered(c, d, p, W) && SameUnder(m, m', p, W)
    requires Candidates(c, W) && Candidates(d, W)
    ensures |c| == |d| && Renumbered(FilterBelowBaseline(c, m), FilterBelowBaseline(d, m'), p, W)
  {
    FilterRenumbered(c, d, p, W, m, m');
    SumRenumbered(c, d, p, W, m, m');
  }

  lemma LiveRenumbered(snaps: seq<Snapshot>, snaps': seq<Snapshot>, p: seq<nat>, now: int, threshold: int)
    requires Renumbering(p, |snaps|) && |snaps'| == |snaps|
    requires forall i :: 0 <= i < |snaps| ==> snaps'[p[i]] == snaps[i]
    ensures Renumbered(Stage1(snaps, now, threshold), Stage1(snaps', now, threshold), p, |snaps|)
  {
  }

  lemma BitmapsRenumbered(snaps: seq<Snapshot>, snaps': seq<Snapshot>, p: seq<nat>, now: int, threshold: int)
    requires |p| == |snaps| == |snaps'|
    requires Renumbered(Stage3(snaps, now, threshold), Stage3(snaps', now, threshold), p, |snaps|)
    ensures forall i: nat :: i < |snaps| ==>
              (Bit(Schedule(snaps, now, threshold).bitmap, i) <==> Bit(Schedule(snaps', now, threshold).bitmap, p[i]))
  {
    hide Schedule, Stage3, Bit, CountOnes, Pow2;
    ScheduleBitmap(snaps, now, threshold);
    ScheduleBitmap(snaps', now, threshold);
  }
}
