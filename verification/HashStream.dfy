/** The generator's synthetic connection hash: a seeded xor mixed by Knuth's constant
    (userspace_simulation/src/generator.rs), and what it means for the reuseport policy. */
module HashStream {
  import opened Words
  import opened Dispatcher

  const SEED_MIX: U64 := 0xff51afd7ed558ccd
  const KNUTH: U64 := 0x9e3779b97f4a7c15

  // KNUTH is odd, so it has inverses modulo 2^64 and modulo 2^32.
  const KNUTH_INVERSE: U64 := 0xf1de83e19937733d
  const KNUTH_LOW_INVERSE: U32 := 0x9937733d

  function SeedMask(seed: U64): U64 {
    seed * SEED_MIX % TWO_TO_THE_64
  }

  /** Xor with a mask, then a wrapping multiply by c modulo m. */
  function Mix(x: nat, mask: nat, c: nat, m: nat): nat
    requires m > 0
  {
    Xor(x, mask) * c % m
  }

  function Unmix(h: nat, mask: nat, inverse: nat, m: nat): nat
    requires m > 0
  {
    Xor(h * inverse % m, mask)
  }

  /** The 64-bit hash of a connection id. */
  function ConnHash(id: U64, seed: U64): U64 {
    Mix(id, SeedMask(seed), KNUTH, TWO_TO_THE_64)
  }

  function ConnUnhash(h: U64, seed: U64): nat {
    Unmix(h, SeedMask(seed), KNUTH_INVERSE, TWO_TO_THE_64)
  }

  lemma XorFits(a: nat, b: nat, k: nat)
    requires a < Pow2(k) && b < Pow2(k)
    ensures Xor(a, b) < Pow2(k)
  {
    XorLow(a, b, k);
    ModUnchanged(a, Pow2(k));
    ModUnchanged(b, Pow2(k));
  }

  lemma ModUnchanged(a: nat, m: nat)
    requires a < m
    ensures a % m == a
  {
    DivUnique(a, m, 0, a);
  }

  /** Multiplying by c and then by its inverse modulo m restores the word. */
  lemma MulInverse(x: nat, c: nat, inv: nat, m: nat)
    requires x < m && c * inv % m == 1
    ensures (x * c % m) * inv % m == x
  {
    ModMul(x * c, inv, m);
    var q := c * inv / m;
    assert c * inv == q * m + 1;
    assert x * c * inv == x * (c * inv) == x * (q * m + 1) == x + (x * q) * m;
    ModAddMultiple(x, x * q, m);
    ModUnchanged(x, m);
  }

  /** On k-bit words, mixing and unmixing with inverse multipliers undo each other. */
  lemma MixBijection(x: nat, mask: nat, c: nat, inverse: nat, k: nat)
    requires x < Pow2(k) && mask < Pow2(k) && c * inverse % Pow2(k) == 1
    ensures Unmix(x, mask, inverse, Pow2(k)) < Pow2(k)
    ensures Unmix(Mix(x, mask, c, Pow2(k)), mask, inverse, Pow2(k)) == x
    ensures Mix(Unmix(x, mask, inverse, Pow2(k)), mask, c, Pow2(k)) == x
  {
    var m := Pow2(k);
    XorFits(x, mask, k);
    XorInvolution(x, mask);
    MulInverse(Xor(x, mask), c, inverse, m);
    var y := x * inverse % m;
    XorFits(y, mask, k);
    XorInvolution(y, mask);
    MulInverse(x, inverse, c, m);
  }

  /** The hash is a bijection on 64-bit words: each direction undoes the other. */
  lemma HashBijection(x: U64, seed: U64)
    ensures ConnUnhash(x, seed) < TWO_TO_THE_64
    ensures ConnUnhash(ConnHash(x, seed), seed) == x
    ensures ConnHash(ConnUnhash(x, seed), seed) == x
  {
    Pow2OfWordSizes();
    MixBijection(x, SeedMask(seed), KNUTH, KNUTH_INVERSE, 64);
  }

  /** With seed 0 the hash is the id times Knuth's constant. */
  lemma UnseededHash(id: U64)
    ensures ConnHash(id, 0) == id * 0x9e3779b97f4a7c15 % TWO_TO_THE_64
  {
    assert SeedMask(0) == 0;
    assert Xor(id, 0) == id;
  }

  /** A seed xors the seed's multiple of 0xff51afd7ed558ccd into the id before that. */
  lemma SeedPermutesIds(id: U64, seed: U64)
    ensures var id' := Xor(id, seed * 0xff51afd7ed558ccd % TWO_TO_THE_64);
            id' < TWO_TO_THE_64 && ConnHash(id, seed) == ConnHash(id', 0)
  {
    Pow2OfWordSizes();
    XorFits(id, SeedMask(seed), 64);
    UnseededHash(Xor(id, SeedMask(seed)));
  }

  /** Distinct connection ids never collide. */
  lemma HashInjective(a: U64, b: U64, seed: U64)
    requires ConnHash(a, seed) == ConnHash(b, seed)
    ensures a == b
  {
    HashBijection(a, seed);
    HashBijection(b, seed);
  }

  // ---- one aligned block of 2^32 ids ----

  function LowHash(low: U32, mask: U32): U32 {
    Mix(low, mask, KNUTH, TWO_TO_THE_32)
  }

  function LowUnhash(h: U32, mask: U32): nat {
    Unmix(h, mask, KNUTH_LOW_INVERSE, TWO_TO_THE_32)
  }

  lemma LowHashBijection(x: U32, mask: U32)
    ensures LowUnhash(x, mask) < TWO_TO_THE_32
    ensures LowUnhash(LowHash(x, mask), mask) == x
    ensures LowHash(LowUnhash(x, mask), mask) == x
  {
    Pow2OfWordSizes();
    MixBijection(x, mask, KNUTH, KNUTH_LOW_INVERSE, 32);
  }

  /** The low hash word depends on the low id word alone. */
  lemma LowWordOfHash(id: U64, seed: U64)
    ensures ConnHash(id, seed) % TWO_TO_THE_32 == LowHash(id % TWO_TO_THE_32, SeedMask(seed) % TWO_TO_THE_32)
  {
    var mask := SeedMask(seed);
    var x := Xor(id, mask);
    ModOfMod(x * KNUTH, TWO_TO_THE_64, TWO_TO_THE_32);
    ModMul(x, KNUTH, TWO_TO_THE_32);
    Pow2OfWordSizes();
    XorLow(id, mask, 32);
  }

  /** The ids of block q, the aligned run [q * 2^32, (q + 1) * 2^32). */
  ghost function Block(q: U32): (s: set<int>) {
    Interval(q * TWO_TO_THE_32, q * TWO_TO_THE_32 + TWO_TO_THE_32)
  }

  /** The ids of block q that the reuseport policy sends to worker w. */
  ghost function BlockIdsFor(q: U32, seed: U64, W: U32, w: nat): set<int> {
    set id | id in Block(q) && ReuseportHash(ConnHash(id, seed), W) == w
  }

  /** Range reduction sees only the low word. */
  lemma ScaleSeesLowWord(hash: U64, W: U32, w: nat)
    ensures ReuseportHash(hash, W) == w <==> hash % TWO_TO_THE_32 in ScaledHashes(W, w)
  {
    LowWordOfWord(hash % TWO_TO_THE_32);
  }

  /** Over an aligned block the low hash word takes every 32-bit value exactly once. */
  lemma BlockCoversEveryLowHash(q: U32, seed: U64, v: U32)
    ensures exists id :: id in Block(q) && ConnHash(id, seed) % TWO_TO_THE_32 == v
    ensures forall a, b | a in Block(q) && b in Block(q) ::
              ConnHash(a, seed) % TWO_TO_THE_32 == v == ConnHash(b, seed) % TWO_TO_THE_32 ==> a == b
  {
    var mask := SeedMask(seed) % TWO_TO_THE_32;
    LowHashBijection(v, mask);
    var id := q * TWO_TO_THE_32 + LowUnhash(v, mask);
    assert id in Block(q);
    BlockMember(id, q, LowUnhash(v, mask));
    LowWordOfHash(id, seed);
    forall a, b | a in Block(q) && b in Block(q)
      && ConnHash(a, seed) % TWO_TO_THE_32 == v == ConnHash(b, seed) % TWO_TO_THE_32
      ensures a == b
    {
      LowWordOfHash(a, seed);
      LowWordOfHash(b, seed);
      LowHashBijection(a % TWO_TO_THE_32, mask);
      LowHashBijection(b % TWO_TO_THE_32, mask);
      ModInjective(a, b, TWO_TO_THE_32);
    }
  }

  lemma BlockMember(id: int, q: U32, low: U32)
    requires id == q * TWO_TO_THE_32 + low
    ensures id % TWO_TO_THE_32 == low && 0 <= id < TWO_TO_THE_64
  {
    DivUnique(id, TWO_TO_THE_32, q, low);
  }

  // Both directions of the match between block ids and hashes, total on int.

  ghost function IdHash(seed: U64, id: int): int {
    if 0 <= id < TWO_TO_THE_64 then ConnHash(id, seed) % TWO_TO_THE_32 else -1
  }

  ghost function HashId(q: U32, seed: U64, v: int): int {
    if 0 <= v < TWO_TO_THE_32 then q * TWO_TO_THE_32 + LowUnhash(v, SeedMask(seed) % TWO_TO_THE_32) else -1
  }

  lemma IdHashInverts(q: U32, seed: U64, id: int)
    requires id in Block(q)
    ensures 0 <= IdHash(seed, id) < TWO_TO_THE_32
    ensures HashId(q, seed, IdHash(seed, id)) == id
  {
    var low := id - q * TWO_TO_THE_32;
    BlockMember(id, q, low);
    LowWordOfHash(id, seed);
    LowHashBijection(low, SeedMask(seed) % TWO_TO_THE_32);
  }

  lemma HashIdInverts(q: U32, seed: U64, v: U32)
    ensures HashId(q, seed, v) in Block(q)
    ensures IdHash(seed, HashId(q, seed, v)) == v
  {
    var mask := SeedMask(seed) % TWO_TO_THE_32;
    LowHashBijection(v, mask);
    BlockMember(HashId(q, seed, v), q, LowUnhash(v, mask));
    LowWordOfHash(HashId(q, seed, v), seed);
  }

  lemma BlockTarget(q: U32, seed: U64, W: U32, w: nat, id: int)
    requires id in Block(q)
    ensures id in BlockIdsFor(q, seed, W, w) <==> IdHash(seed, id) in ScaledHashes(W, w)
  {
    ScaleSeesLowWord(ConnHash(id, seed), W, w);
  }

  /** Reuseport balance over any block: floor or ceil of 2^32/W connections per worker. */
  lemma ReuseportBalance(q: U32, seed: U64, W: U32, w: nat)
    requires w < W
    ensures TWO_TO_THE_32 / W <= |BlockIdsFor(q, seed, W, w)| <= CeilDiv(TWO_TO_THE_32, W)
  {
    var ids, hashes := BlockIdsFor(q, seed, W, w), ScaledHashes(W, w);
    forall id | id in ids
      ensures IdHash(seed, id) in hashes && HashId(q, seed, IdHash(seed, id)) == id
    {
      IdHashInverts(q, seed, id);
      BlockTarget(q, seed, W, w, id);
    }
    forall v | v in hashes
      ensures HashId(q, seed, v) in ids && IdHash(seed, HashId(q, seed, v)) == v
    {
      HashIdInverts(q, seed, v);
      BlockTarget(q, seed, W, w, HashId(q, seed, v));
    }
    SameSizeByInverses(ids, hashes, id => IdHash(seed, id), v => HashId(q, seed, v));
    ScaleBalance(W, w);
  }

  /** With the source's four workers each gets exactly 2^30 connections of every block. */
  lemma ReuseportBalanceOfFour(q: U32, seed: U64, w: nat)
    requires w < NUM_WORKERS
    ensures |BlockIdsFor(q, seed, NUM_WORKERS, w)| == 0x4000_0000
  {
    ReuseportBalance(q, seed, NUM_WORKERS, w);
  }
}
