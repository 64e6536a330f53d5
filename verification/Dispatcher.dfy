/** Algorithm 2: choosing a worker from the candidate bitmap and the connection hash, in the
    simulated kernel (userspace_simulation/src/dispatcher.rs) and in the eBPF program
    (hermes-ebpf/src/main.rs). The worker count W is a parameter; the source fixes it at 4. */
module Dispatcher {
  import opened Words

  const NUM_WORKERS := 4
  const IPPROTO_TCP := 6

  /** Multiply the low 32 hash bits by n in 64 bits and keep the high word. */
  function ReciprocalScale(hash: U64, n: nat): (r: U32) {
    ((hash % TWO_TO_THE_32) * n / TWO_TO_THE_32) % TWO_TO_THE_32
  }

  /** The position the bit scan stops at: the set bit of `bitmap` in [i, W) whose rank is nth. */
  function SelectFrom(bitmap: nat, i: nat, W: nat, nth: nat): (r: Option<nat>)
    requires i <= W
    ensures r.Some? ==> i <= r.value < W && Bit(bitmap, r.value) && Rank(bitmap, r.value) == nth
    ensures r.None? && Rank(bitmap, i) <= nth ==> Rank(bitmap, W) <= nth
    decreases W - i
  {
    if i == W then None
    else if Bit(bitmap, i) && Rank(bitmap, i) == nth then Some(i)
    else SelectFrom(bitmap, i + 1, W, nth)
  }

  function Select(bitmap: nat, W: nat, nth: nat): Option<nat> {
    SelectFrom(bitmap, 0, W, nth)
  }

  function ReuseportHash(hash: U64, W: U32): nat {
    ReciprocalScale(hash, W)
  }

  /** The simulated dispatcher: with at most one candidate fall back to the plain hash. */
  function DispatchHermes(bitmap: U64, hash: U64, W: U32): nat
    requires W > 0
  {
    var n := CountOnes(bitmap);
    if n <= 1 then ReuseportHash(hash, W)
    else
      match Select(bitmap, W, ReciprocalScale(hash, n))
      case Some(w) => w
      case None => W - 1
  }

  /** The in-kernel selection. The map lookup may miss; None leaves the pick to the kernel. */
  function TrySelect(protocol: U32, lookup: Option<U64>, hash: U32, W: U32): Option<nat> {
    if protocol != IPPROTO_TCP || lookup.None? then None
    else
      var n := CountOnes(lookup.value);
      if n <= 1 then None else Select(lookup.value, W, ReciprocalScale(hash, n))
  }

  // ---- the two bit scans, as the loops they are ----

  /** The simulation's scan; past the last candidate it falls through to the last worker. */
  method FindNthSetBit(bitmap: U64, nth: U32, W: U32) returns (r: nat)
    requires W > 0
    ensures nth < Rank(bitmap, W) ==> r < W && Bit(bitmap, r) && Rank(bitmap, r) == nth
    ensures nth >= Rank(bitmap, W) ==> r == W - 1
    ensures Some(r) == Select(bitmap, W, nth) || (Select(bitmap, W, nth) == None && r == W - 1)
  {
    var seen := 0;
    for i := 0 to W
      invariant seen == Rank(bitmap, i) <= nth
      invariant Select(bitmap, W, nth) == SelectFrom(bitmap, i, W, nth)
    {
      MaskTestsBit(bitmap, i);
      if And(bitmap, Pow2(i)) != 0 {
        if seen == nth {
          RankPastBit(bitmap, i, W);
          return i;
        }
        seen := seen + 1;
      }
    }
    r := W - 1;
  }

  /** The eBPF scan; past the last candidate it selects nobody. */
  method FindNthSetBitInKernel(bitmap: U64, nth: U32, W: U32) returns (r: Option<nat>)
    ensures r.Some? <==> nth < Rank(bitmap, W)
    ensures r.Some? ==> r.value < W && Bit(bitmap, r.value) && Rank(bitmap, r.value) == nth
    ensures r == Select(bitmap, W, nth)
  {
    var seen := 0;
    for i := 0 to W
      invariant seen == Rank(bitmap, i) <= nth
      invariant Select(bitmap, W, nth) == SelectFrom(bitmap, i, W, nth)
    {
      MaskTestsBit(bitmap, i);
      if And(bitmap, Pow2(i)) != 0 {
        if seen == nth {
          RankPastBit(bitmap, i, W);
          return Some(i);
        }
        seen := seen + 1;
      }
    }
    r := None;
  }

  // ---- rank and select ----

  lemma CountOnesFits(bitmap: U64)
    ensures CountOnes(bitmap) == Rank(bitmap, 64) <= 64
  {
    Pow2OfWordSizes();
    CountOnesIsRank(bitmap, 64);
    RankMonotone(bitmap, 0, 64);
  }

  /** Select finds the candidate of every rank below the number of candidates, and no other. */
  lemma SelectInvertsRank(bitmap: nat, W: nat, nth: nat)
    ensures Select(bitmap, W, nth).Some? <==> nth < Rank(bitmap, W)
    ensures Select(bitmap, W, nth).Some? ==>
              var w := Select(bitmap, W, nth).value;
              w < W && Bit(bitmap, w) && Rank(bitmap, w) == nth
  {
    match Select(bitmap, W, nth)
    case Some(w) => RankPastBit(bitmap, w, W);
    case None =>
  }

  /** Two set bits of equal rank are the same bit. */
  lemma RankInjective(bitmap: nat, v: nat, w: nat)
    requires Bit(bitmap, v) && Bit(bitmap, w) && Rank(bitmap, v) == Rank(bitmap, w)
    ensures v == w
  {
    if v < w {
      RankPastBit(bitmap, v, w);
    } else if w < v {
      RankPastBit(bitmap, w, v);
    }
  }

  /** Selecting by a candidate's own rank gives the candidate back. */
  lemma RankInvertsSelect(bitmap: nat, W: nat, w: nat)
    requires w < W && Bit(bitmap, w)
    ensures Select(bitmap, W, Rank(bitmap, w)) == Some(w)
  {
    RankPastBit(bitmap, w, W);
    SelectInvertsRank(bitmap, W, Rank(bitmap, w));
    RankInjective(bitmap, w, Select(bitmap, W, Rank(bitmap, w)).value);
  }

  /** No candidate at or above W means the popcount counts exactly the scannable bits. */
  lemma PopcountOfLowBitmap(bitmap: U64, W: nat)
    requires bitmap < Pow2(W)
    ensures CountOnes(bitmap) == Rank(bitmap, W)
    ensures forall w: nat :: Bit(bitmap, w) ==> w < W
  {
    CountOnesIsRank(bitmap, W);
    BelowPow2(bitmap, W);
  }

  // ---- range reduction ----

  /** The scaled hash is below n, and is the quotient of the low word times n by 2^32:
      neither the 64-bit product nor the final truncation loses anything. */
  lemma ReciprocalScaleInRange(hash: U64, n: U32)
    requires n > 0
    ensures ReciprocalScale(hash, n) == (hash % TWO_TO_THE_32) * n / TWO_TO_THE_32 < n
    ensures (hash % TWO_TO_THE_32) * n < TWO_TO_THE_64
  {
    var h := hash % TWO_TO_THE_32;
    var q, r := h * n / TWO_TO_THE_32, h * n % TWO_TO_THE_32;
    assert h * n == q * TWO_TO_THE_32 + r;
    assert h * n <= (TWO_TO_THE_32 - 1) * n by {
      assert (TWO_TO_THE_32 - 1 - h) * n >= 0;
    }
    assert q < n;
  }

  function CeilDiv(a: nat, n: nat): nat
    requires n > 0
  {
    (a + n - 1) / n
  }

  /** The hashes scaled to j are a contiguous block. */
  lemma ScaledToJ(h: nat, n: nat, j: nat)
    requires n > 0
    ensures h * n / TWO_TO_THE_32 == j <==>
            CeilDiv(j * TWO_TO_THE_32, n) <= h < CeilDiv((j + 1) * TWO_TO_THE_32, n)
  {
    var M := TWO_TO_THE_32;
    CeilDivBound(j * M, n, h);
    CeilDivBound((j + 1) * M, n, h);
    assert h * n / M == j <==> j * M <= h * n < (j + 1) * M by {
      var q, r := h * n / M, h * n % M;
      assert h * n == q * M + r;
    }
  }

  /** h reaches ceil(a / n) exactly when h*n reaches a. */
  lemma CeilDivBound(a: nat, n: nat, h: nat)
    requires n > 0
    ensures CeilDiv(a, n) <= h <==> a <= h * n
  {
    var q, r := (a + n - 1) / n, (a + n - 1) % n;
    assert a + n - 1 == q * n + r;
    assert (h - q) * n == h * n - q * n;
    if h >= q {
      assert (h - q) * n >= 0;
    } else {
      MulAtLeast(h - q, n);
    }
  }

  /** Consecutive multiples of M, rounded up after division by n, are floor(M/n) or
      ceil(M/n) apart. */
  lemma BlockSize(a: nat, M: nat, n: nat)
    requires n > 0
    ensures M / n <= CeilDiv(a + M, n) - CeilDiv(a, n) <= CeilDiv(M, n)
  {
    var x, y := CeilDiv(a, n), M / n;
    var z := CeilDiv(M, n);
    CeilDivBound(a, n, x);
    CeilDivBound(M, n, z);
    assert M == y * n + M % n;
    assert (x + z) * n == x * n + z * n;
    CeilDivBound(a + M, n, x + z);
    if x + y > 0 {
      // x + y - 1 is not enough: x - 1 does not reach a, and y*n does not exceed M
      if x > 0 { CeilDivBound(a, n, x - 1); }
      assert (x + y - 1) * n == (x - 1) * n + y * n;
      CeilDivBound(a + M, n, x + y - 1);
    }
  }

  // ---- hash balance ----

  /** The 32-bit hashes that scale to j. */
  ghost function ScaledHashes(n: nat, j: nat): set<int> {
    set h | h in Interval(0, TWO_TO_THE_32) && ReciprocalScale(h, n) == j
  }

  /** The 32-bit hashes Algorithm 2 sends to worker w. */
  ghost function HermesHashes(bitmap: U64, W: U32, w: nat): set<int>
    requires W > 0
  {
    set h | h in Interval(0, TWO_TO_THE_32) && DispatchHermes(bitmap, h, W) == w
  }

  /** Scaling into [0, n) splits the 2^32 hashes evenly: every j gets floor or ceil of 2^32/n. */
  lemma ScaleBalance(n: U32, j: nat)
    requires j < n
    ensures TWO_TO_THE_32 / n <= |ScaledHashes(n, j)| <= CeilDiv(TWO_TO_THE_32, n)
  {
    hide ReciprocalScale, ScaledHashes;
    var a := j * TWO_TO_THE_32;
    var lo, hi := CeilDiv(a, n), CeilDiv(a + TWO_TO_THE_32, n);
    assert a + TWO_TO_THE_32 == (j + 1) * TWO_TO_THE_32;
    BlockSize(a, TWO_TO_THE_32, n);
    forall h: int ensures h in ScaledHashes(n, j) <==> h in Interval(lo, hi) {
      ScaledBlock(n, j, h);
    }
    assert ScaledHashes(n, j) == Interval(lo, hi);
  }

  lemma ScaledBlock(n: U32, j: nat, h: int)
    requires j < n
    ensures h in ScaledHashes(n, j) <==>
            CeilDiv(j * TWO_TO_THE_32, n) <= h < CeilDiv((j + 1) * TWO_TO_THE_32, n)
  {
    var M := TWO_TO_THE_32;
    CeilDivBound((j + 1) * M, n, M);
    assert (j + 1) * M <= M * n by { assert (n - j - 1) * M >= 0; }
    if 0 <= h < M {
      LowWordOfWord(h);
      ReciprocalScaleInRange(h, n);
      ScaledToJ(h, n, j);
    }
  }

  lemma LowWordOfWord(h: U32)
    ensures h % TWO_TO_THE_32 == h
  {
  }

  /** Hash balance of Algorithm 2: with n >= 2 candidates, all below W, each candidate receives
      floor(2^32/n) or ceil(2^32/n) of the hash values and every other worker none. */
  lemma HermesBalance(bitmap: U64, W: U32, w: nat)
    requires W > 0 && bitmap < Pow2(W) && CountOnes(bitmap) >= 2
    ensures var n, got := CountOnes(bitmap), |HermesHashes(bitmap, W, w)|;
            if Bit(bitmap, w) then TWO_TO_THE_32 / n <= got <= CeilDiv(TWO_TO_THE_32, n) else got == 0
  {
    var n := CountOnes(bitmap);
    CountOnesFits(bitmap);
    PopcountOfLowBitmap(bitmap, W);
    forall h: U32 ensures
      DispatchHermes(bitmap, h, W) == w <==> Bit(bitmap, w) && ReciprocalScale(h, n) == Rank(bitmap, w)
    {
      HermesPicksCandidate(bitmap, h, W);
      var v := DispatchHermes(bitmap, h, W);
      if Bit(bitmap, w) && ReciprocalScale(h, n) == Rank(bitmap, w) {
        RankInjective(bitmap, v, w);
      }
    }
    if Bit(bitmap, w) {
      RankPastBit(bitmap, w, W);
      ScaleBalance(n, Rank(bitmap, w));
      assert HermesHashes(bitmap, W, w) == ScaledHashes(n, Rank(bitmap, w));
    } else {
      assert HermesHashes(bitmap, W, w) == {};
    }
  }

  /** With two or more candidates below W the pick is a candidate, the one whose rank is the
      scaled hash; the fall-through of the scan is not reached. */
  lemma HermesPicksCandidate(bitmap: U64, hash: U64, W: U32)
    requires W > 0 && bitmap < Pow2(W) && CountOnes(bitmap) >= 2
    ensures var nth := ReciprocalScale(hash, CountOnes(bitmap));
            var w := DispatchHermes(bitmap, hash, W);
            w < W && Bit(bitmap, w) && Rank(bitmap, w) == nth && Select(bitmap, W, nth) == Some(w)
  {
    CountOnesFits(bitmap);
    PopcountOfLowBitmap(bitmap, W);
    ReciprocalScaleInRange(hash, CountOnes(bitmap));
    SelectInvertsRank(bitmap, W, ReciprocalScale(hash, CountOnes(bitmap)));
  }

  /** With at most one candidate, the lone one included, the pick is the plain hash scaled to all
      W workers. */
  lemma FallbackIsPlainHash(bitmap: U64, hash: U64, W: U32)
    requires W > 0 && CountOnes(bitmap) <= 1
    ensures DispatchHermes(bitmap, hash, W) == ReuseportHash(hash, W) == (hash % TWO_TO_THE_32) * W / TWO_TO_THE_32 < W
  {
    ReciprocalScaleInRange(hash, W);
  }

  /** So the fallback spreads the hashes over all workers: each gets floor or ceil of 2^32/W. */
  lemma FallbackBalance(bitmap: U64, W: U32, w: nat)
    requires w < W && CountOnes(bitmap) <= 1
    ensures TWO_TO_THE_32 / W <= |HermesHashes(bitmap, W, w)| <= CeilDiv(TWO_TO_THE_32, W)
  {
    hide ReciprocalScale;
    assert HermesHashes(bitmap, W, w) == ScaledHashes(W, w);
    ScaleBalance(W, w);
  }

  /** The pick for every bitmap and hash: the plain hash with at most one candidate; else the set
      bit below W whose rank is the hash scaled to the popcount, or W-1 when the scan finds none. */
  lemma HermesMeaning(bitmap: U64, hash: U64, W: U32)
    requires W > 0
    ensures var n, w := CountOnes(bitmap), DispatchHermes(bitmap, hash, W);
            var nth := (hash % TWO_TO_THE_32) * n / TWO_TO_THE_32;
            if n <= 1 then w == (hash % TWO_TO_THE_32) * W / TWO_TO_THE_32
            else if nth < Rank(bitmap, W) then w < W && Bit(bitmap, w) && Rank(bitmap, w) == nth
            else w == W - 1
  {
    var n := CountOnes(bitmap);
    CountOnesFits(bitmap);
    if n <= 1 {
      FallbackIsPlainHash(bitmap, hash, W);
    } else {
      ReciprocalScaleInRange(hash, n);
      SelectInvertsRank(bitmap, W, ReciprocalScale(hash, n));
    }
  }

  /** The kernel's pick for every packet: somebody exactly for TCP, a map hit, two or more bits set
      and a scaled hash that is the rank of a bit below W, and then that bit. */
  lemma TrySelectMeaning(protocol: U32, lookup: Option<U64>, hash: U32, W: U32)
    ensures var picked := TrySelect(protocol, lookup, hash, W);
            if protocol == 6 && lookup.Some? && CountOnes(lookup.value) >= 2
            then
              var nth := hash * CountOnes(lookup.value) / TWO_TO_THE_32;
              && (picked.Some? <==> nth < Rank(lookup.value, W))
              && (picked.Some? ==> picked.value < W && Bit(lookup.value, picked.value) && Rank(lookup.value, picked.value) == nth)
            else picked == None
  {
    if lookup.Some? && CountOnes(lookup.value) >= 2 {
      var n := CountOnes(lookup.value);
      CountOnesFits(lookup.value);
      LowWordOfWord(hash);
      ReciprocalScaleInRange(hash, n);
      SelectInvertsRank(lookup.value, W, ReciprocalScale(hash, n));
    }
  }

  /** Whatever the bitmap, the dispatcher names an existing worker. */
  lemma DispatchInRange(bitmap: U64, hash: U64, W: U32)
    requires W > 0
    ensures DispatchHermes(bitmap, hash, W) < W
    ensures ReuseportHash(hash, W) < W
  {
    ReciprocalScaleInRange(hash, W);
  }

  // ---- the two versions agree ----

  /** The kernel selects exactly for TCP packets whose map lookup hits a bitmap with two or more
      candidates, and then picks what the simulated dispatcher picks for every 64-bit hash with
      those low 32 bits. */
  lemma KernelAgreesWithSimulation(protocol: U32, lookup: Option<U64>, hash: U64, W: U32)
    requires W > 0 && (lookup.Some? ==> lookup.value < Pow2(W))
    ensures var picked := TrySelect(protocol, lookup, hash % TWO_TO_THE_32, W);
            && (picked.Some? <==> protocol == IPPROTO_TCP && lookup.Some? && CountOnes(lookup.value) >= 2)
            && (picked.Some? ==> picked.value == DispatchHermes(lookup.value, hash, W))
  {
    if lookup.Some? && CountOnes(lookup.value) >= 2 {
      HermesPicksCandidate(lookup.value, hash, W);
      LowWordOfWord(hash % TWO_TO_THE_32);
    }
  }

  /** The popcount ranges over 64 bits but the scan over W. With two or more bits set, the kernel
      selects somebody for every hash if and only if no bit lies at or above W. */
  lemma KernelTotalIffNoHighBit(bitmap: U64, W: U32)
    requires 0 < W <= 64 && CountOnes(bitmap) >= 2
    ensures (forall hash: U32 :: TrySelect(IPPROTO_TCP, Some(bitmap), hash, W).Some?) <==> bitmap < Pow2(W)
  {
    var n := CountOnes(bitmap);
    CountOnesFits(bitmap);
    if bitmap < Pow2(W) {
      forall hash: U32 ensures TrySelect(IPPROTO_TCP, Some(bitmap), hash, W).Some? {
        KernelAgreesWithSimulation(IPPROTO_TCP, Some(bitmap), hash, W);
        LowWordOfWord(hash);
      }
    } else {
      HighBitHidesACandidate(bitmap, W);
      LastHashHasLastRank(n);
      SelectInvertsRank(bitmap, W, n - 1);
      assert TrySelect(IPPROTO_TCP, Some(bitmap), TWO_TO_THE_32 - 1, W).None?;
    }
  }

  lemma LastHashHasLastRank(n: nat)
    requires 0 < n <= 64
    ensures ReciprocalScale(TWO_TO_THE_32 - 1, n) == n - 1
  {
    var M := TWO_TO_THE_32;
    LowWordOfWord(M - 1);
    DivUnique((M - 1) * n, M, n - 1, M - n);
    LowWordOfWord(n - 1);
  }

  lemma HighBitHidesACandidate(bitmap: U64, W: nat)
    requires W <= 64 && bitmap >= Pow2(W)
    ensures Rank(bitmap, W) < CountOnes(bitmap)
  {
    BelowPow2(bitmap, W);
    var k: nat :| k >= W && Bit(bitmap, k);
    Pow2OfWordSizes();
    BelowPow2(bitmap, 64);
    RankMonotone(bitmap, W, k);
    RankPastBit(bitmap, k, 64);
    CountOnesFits(bitmap);
  }

  /** The simulated pick is a set bit for every hash if and only if no bit lies at or above W or
      the last worker, where the scan falls through, is itself a candidate. */
  lemma SimulationPicksSetBitIff(bitmap: U64, W: U32)
    requires 0 < W <= 64 && CountOnes(bitmap) >= 2
    ensures (forall hash: U32 :: Bit(bitmap, DispatchHermes(bitmap, hash, W)))
            <==> bitmap < Pow2(W) || Bit(bitmap, W - 1)
  {
    var n := CountOnes(bitmap);
    CountOnesFits(bitmap);
    if bitmap < Pow2(W) {
      forall hash: U32 ensures Bit(bitmap, DispatchHermes(bitmap, hash, W)) { HermesPicksCandidate(bitmap, hash, W); }
    } else if Bit(bitmap, W - 1) {
      forall hash: U32 ensures Bit(bitmap, DispatchHermes(bitmap, hash, W)) {
        SelectInvertsRank(bitmap, W, ReciprocalScale(hash, n));
      }
    } else {
      HighBitHidesACandidate(bitmap, W);
      LastHashHasLastRank(n);
      SelectInvertsRank(bitmap, W, n - 1);
      assert DispatchHermes(bitmap, TWO_TO_THE_32 - 1, W) == W - 1;
    }
  }

  /** Why the scheduler must keep high bits clear: with bits 0 and W set, the largest hash makes
      the simulated scan fall through to worker W-1, which is not a candidate. */
  lemma HighBitMisroutes(W: U32)
    requires 2 <= W < 64
    ensures var bitmap := 1 + Pow2(W);
            && bitmap < TWO_TO_THE_64
            && !Bit(bitmap, W - 1)
            && DispatchHermes(bitmap, TWO_TO_THE_32 - 1, W) == W - 1
  {
    hide SelectFrom, ReciprocalScale, CountOnes;
    var bitmap := 1 + Pow2(W);
    Pow2Monotone(W, 63);
    Pow2OfWordSizes();
    assert bitmap == 1 + 2 * Pow2(W - 1);
    forall i: nat ensures Bit(bitmap, i) <==> i == 0 || i == W {
      if i > 0 {
        BitOfPow2(W - 1, i - 1);
        assert bitmap / 2 == Pow2(W - 1);
      }
    }
    RankOfPair(bitmap, W, W);
    RankOfPair(bitmap, W, 64);
    CountOnesFits(bitmap);
    assert CountOnes(bitmap) == 2;
    LastHashHasLastRank(2);
    SelectInvertsRank(bitmap, W, 1);
  }

  lemma {:induction false} RankOfPair(bitmap: nat, W: nat, k: nat)
    requires W > 0 && forall i: nat :: Bit(bitmap, i) <==> i == 0 || i == W
    ensures Rank(bitmap, k) == (if k > 0 then 1 else 0) + (if k > W then 1 else 0)
  {
    if k > 0 { RankOfPair(bitmap, W, k - 1); }
  }
}
