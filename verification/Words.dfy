/** Machine words as bounded naturals, with the bit operators the Rust code applies to them.
    A `u32` is a natural below 2^32 and a `u64` one below 2^64; wrapping arithmetic is written
    out with `%`. And, Or and Xor are the bitwise operators, defined digit by digit, and Bit
    is what a shift-and-mask test observes. */
module Words {

  const TWO_TO_THE_32 := 0x1_0000_0000
  const TWO_TO_THE_64 := 0x1_0000_0000_0000_0000

  type U32 = x: nat | x < TWO_TO_THE_32
  type U64 = x: nat | x < TWO_TO_THE_64

  datatype Option<+T> = None | Some(value: T)

  function Pow2(k: nat): (p: nat)
    ensures p > 0
  {
    if k == 0 then 1 else 2 * Pow2(k - 1)
  }

  /** Bit `i` of `a`. */
  predicate Bit(a: nat, i: nat) {
    if i == 0 then a % 2 == 1 else Bit(a / 2, i - 1)
  }

  function And(a: nat, b: nat): nat {
    if a == 0 || b == 0 then 0 else 2 * And(a / 2, b / 2) + (if a % 2 == 1 && b % 2 == 1 then 1 else 0)
  }

  function Or(a: nat, b: nat): nat {
    if a == 0 then b else 2 * Or(a / 2, b / 2) + (if a % 2 == 1 || b % 2 == 1 then 1 else 0)
  }

  function Xor(a: nat, b: nat): nat
    decreases a + b
  {
    if a == 0 then b else if b == 0 then a else 2 * Xor(a / 2, b / 2) + (if a % 2 != b % 2 then 1 else 0)
  }

  /** `count_ones`: the number of set bits. */
  function CountOnes(a: nat): nat {
    if a == 0 then 0 else a % 2 + CountOnes(a / 2)
  }

  /** The number of set bits strictly below position `i`. */
  function Rank(a: nat, i: nat): nat {
    if i == 0 then 0 else Rank(a, i - 1) + (if Bit(a, i - 1) then 1 else 0)
  }

  lemma {:induction false} BitOfZero(i: nat)
    ensures !Bit(0, i)
  {
    if i > 0 { BitOfZero(i - 1); }
  }

  lemma {:induction false} BitOfPow2(k: nat, i: nat)
    ensures Bit(Pow2(k), i) <==> i == k
  {
    if k == 0 {
      if i > 0 { BitOfZero(i - 1); }
    } else if i > 0 {
      BitOfPow2(k - 1, i - 1);
    }
  }

  lemma {:induction false} BitOfOr(a: nat, b: nat, i: nat)
    ensures Bit(Or(a, b), i) <==> Bit(a, i) || Bit(b, i)
  {
    if a == 0 {
      BitOfZero(i);
    } else if i > 0 {
      BitOfOr(a / 2, b / 2, i - 1);
    }
  }

  ghost predicate ClearFrom(a: nat, k: nat) {
    forall i: nat :: i >= k ==> !Bit(a, i)
  }

  lemma ClearFromHalf(a: nat, k: nat)
    ensures ClearFrom(a, k + 1) <==> ClearFrom(a / 2, k)
  {
    if ClearFrom(a, k + 1) {
      forall i: nat | i >= k ensures !Bit(a / 2, i) { assert !Bit(a, i + 1); }
    }
    if ClearFrom(a / 2, k) {
      forall i: nat | i >= k + 1 ensures !Bit(a, i) { assert !Bit(a / 2, i - 1); }
    }
  }

  /** A nonzero word has a set bit. */
  lemma {:induction false} SomeBitSet(a: nat) returns (i: nat)
    requires a > 0
    ensures Bit(a, i)
  {
    if a % 2 == 1 {
      i := 0;
    } else {
      i := SomeBitSet(a / 2);
      i := i + 1;
    }
  }

  /** A word below 2^k is exactly one with no bit at or above k. */
  lemma {:induction false} BelowPow2(a: nat, k: nat)
    ensures a < Pow2(k) <==> ClearFrom(a, k)
  {
    if k > 0 {
      BelowPow2(a / 2, k - 1);
      ClearFromHalf(a, k - 1);
    } else if a > 0 {
      var i := SomeBitSet(a);
    } else {
      forall i: nat ensures !Bit(0, i) { BitOfZero(i); }
    }
  }

  /** `b & (1 << i) != 0`, the test in the dispatchers, observes bit `i`. */
  lemma {:induction false} MaskTestsBit(b: nat, i: nat)
    ensures And(b, Pow2(i)) != 0 <==> Bit(b, i)
  {
    if b != 0 && i > 0 {
      MaskTestsBit(b / 2, i - 1);
    } else if b != 0 {
      assert Pow2(0) / 2 == 0;
      assert And(b / 2, 0) == 0;
    } else {
      BitOfZero(i);
    }
  }

  lemma {:induction false} RankShift(a: nat, i: nat)
    ensures Rank(a, i + 1) == a % 2 + Rank(a / 2, i)
  {
    if i > 0 {
      RankShift(a, i - 1);
    } else {
      assert Rank(a, 1) == Rank(a, 0) + (if Bit(a, 0) then 1 else 0);
    }
  }

  /** Counting set bits below any width that bounds the word counts all of them. */
  lemma {:induction false} CountOnesIsRank(a: nat, k: nat)
    requires a < Pow2(k)
    ensures CountOnes(a) == Rank(a, k)
  {
    if k > 0 {
      RankShift(a, k - 1);
      CountOnesIsRank(a / 2, k - 1);
    }
  }

  lemma {:induction false} RankMonotone(a: nat, i: nat, j: nat)
    requires i <= j
    ensures Rank(a, i) <= Rank(a, j) <= Rank(a, i) + (j - i)
    decreases j
  {
    if i < j { RankMonotone(a, i, j - 1); }
  }

  /** The rank grows strictly past a set bit. */
  lemma RankPastBit(a: nat, i: nat, j: nat)
    requires i < j && Bit(a, i)
    ensures Rank(a, i) < Rank(a, j)
  {
    RankMonotone(a, i + 1, j);
  }

  lemma {:induction false} XorUnfolds(a: nat, b: nat)
    ensures Xor(a, b) / 2 == Xor(a / 2, b / 2)
    ensures Xor(a, b) % 2 == if a % 2 != b % 2 then 1 else 0
    decreases a + b
  {
    if a != 0 && b == 0 {
      assert Xor(a / 2, 0) == a / 2;
    }
  }

  lemma {:induction false} XorOfSelf(b: nat)
    ensures Xor(b, b) == 0
  {
    if b != 0 {
      XorOfSelf(b / 2);
      XorUnfolds(b, b);
    }
  }

  /** Xor with the same word undoes itself. */
  lemma {:induction false} XorInvolution(a: nat, b: nat)
    ensures Xor(Xor(a, b), b) == a
    decreases a + b
  {
    if a == 0 {
      XorOfSelf(b);
    } else if b != 0 {
      XorInvolution(a / 2, b / 2);
      XorUnfolds(a, b);
      XorUnfolds(Xor(a, b), b);
    }
  }

  /** The low k bits of a xor are the xor of the low k bits. */
  lemma {:induction false} XorLow(a: nat, b: nat, k: nat)
    ensures Xor(a, b) % Pow2(k) == Xor(a % Pow2(k), b % Pow2(k))
  {
    if k > 0 {
      var x, y, z := a % Pow2(k), b % Pow2(k), Xor(a, b);
      var low := Xor(a / 2, b / 2) % Pow2(k - 1);
      assert z % Pow2(k) == 2 * low + (if a % 2 != b % 2 then 1 else 0) by {
        LowBits(z, k);
        XorUnfolds(a, b);
      }
      assert low == Xor(x / 2, y / 2) && x % 2 == a % 2 && y % 2 == b % 2 by {
        XorLow(a / 2, b / 2, k - 1);
        LowBits(a, k);
        LowBits(b, k);
      }
      XorOfHalves(x, y);
    }
  }

  lemma XorOfHalves(x: nat, y: nat)
    ensures Xor(x, y) == 2 * Xor(x / 2, y / 2) + (if x % 2 != y % 2 then 1 else 0)
  {
    XorUnfolds(x, y);
    var z := Xor(x, y);
    assert z == 2 * (z / 2) + z % 2;
  }

  lemma LowBits(a: nat, k: nat)
    requires k > 0
    ensures a % Pow2(k) == 2 * ((a / 2) % Pow2(k - 1)) + a % 2
    ensures (a % Pow2(k)) / 2 == (a / 2) % Pow2(k - 1)
    ensures (a % Pow2(k)) % 2 == a % 2
  {
    var p := Pow2(k - 1);
    var q, r := (a / 2) / p, (a / 2) % p;
    assert a / 2 == q * p + r;
    assert a == q * (2 * p) + (2 * r + a % 2) by {
      assert q * (2 * p) == 2 * (q * p);
    }
    DivUnique(a, 2 * p, q, 2 * r + a % 2);
  }

  lemma {:induction false} Pow2Sum(i: nat, j: nat)
    ensures Pow2(i + j) == Pow2(i) * Pow2(j)
  {
    if i > 0 {
      Pow2Sum(i - 1, j);
      assert Pow2(i) * Pow2(j) == 2 * (Pow2(i - 1) * Pow2(j));
    }
  }

  lemma Pow2OfWordSizes()
    ensures Pow2(32) == TWO_TO_THE_32 && Pow2(64) == TWO_TO_THE_64 && 2 * Pow2(63) == TWO_TO_THE_64
  {
    assert Pow2(8) == 0x100;
    Pow2Sum(8, 8);
    Pow2Sum(16, 16);
    Pow2Sum(32, 32);
  }

  lemma {:induction false} Pow2Monotone(i: nat, j: nat)
    requires i <= j
    ensures Pow2(i) <= Pow2(j)
    decreases j
  {
    if i < j { Pow2Monotone(i, j - 1); }
  }

  // ---- division with remainder ----

  lemma MulAtLeast(k: int, m: int)
    requires m > 0
    ensures k >= 1 ==> k * m >= m
    ensures k <= -1 ==> k * m <= -m
  {
    if k >= 1 {
      assert (k - 1) * m >= 0;
    } else if k <= -1 {
      assert (-1 - k) * m >= 0;
    }
  }

  lemma DivUnique(a: int, m: int, q: int, r: int)
    requires m > 0 && 0 <= r < m && a == q * m + r
    ensures a / m == q && a % m == r
  {
    var q', r' := a / m, a % m;
    assert a == q' * m + r' && 0 <= r' < m;
    assert (q' - q) * m == q' * m - q * m == r - r';
    MulAtLeast(q' - q, m);
  }

  /** Adding a multiple of the modulus changes nothing. */
  lemma ModAddMultiple(a: int, k: int, m: int)
    requires m > 0
    ensures (a + k * m) % m == a % m
  {
    var q, r := a / m, a % m;
    assert a == q * m + r;
    assert (q + k) * m == q * m + k * m;
    DivUnique(a + k * m, m, q + k, r);
  }

  /** A factor may be reduced before multiplying. */
  lemma ModMul(a: int, b: int, m: int)
    requires m > 0
    ensures ((a % m) * b) % m == (a * b) % m
  {
    var q, r := a / m, a % m;
    assert a == q * m + r;
    assert a * b == r * b + (q * b) * m by {
      assert (q * m + r) * b == (q * m) * b + r * b;
      assert (q * m) * b == (q * b) * m;
    }
    ModAddMultiple(r * b, q * b, m);
  }

  /** Reducing modulo a multiple first does not change the residue. */
  lemma ModOfMod(a: int, m: int, c: int)
    requires m > 0 && c > 0 && m % c == 0
    ensures (a % m) % c == a % c
  {
    var k, q, r := m / c, a / m, a % m;
    assert m == k * c;
    assert a == q * m + r;
    assert q * m == (q * k) * c;
    ModAddMultiple(r, q * k, c);
  }

  /** Congruent numbers less than m apart are equal. */
  lemma ModInjective(a: int, b: int, m: int)
    requires m > 0 && a % m == b % m && -m < a - b < m
    ensures a == b
  {
    var p, q := a / m, b / m;
    assert a == p * m + a % m && b == q * m + b % m;
    assert (p - q) * m == p * m - q * m;
    MulAtLeast(p - q, m);
  }

  // ---- counting ----

  /** The integers from lo up to, but not including, hi. */
  ghost function Interval(lo: int, hi: int): (s: set<int>)
    ensures forall x :: x in s <==> lo <= x < hi
    ensures |s| == if lo < hi then hi - lo else 0
    decreases hi - lo
  {
    if lo < hi then Interval(lo, hi - 1) + {hi - 1} else {}
  }

  lemma Member<T>(s: set<T>) returns (x: T)
    requires s != {}
    ensures x in s
  {
    x :| x in s;
  }

  /** Two sets matched one to one by mutually inverse maps have the same size. */
  lemma {:induction false} SameSizeByInverses(a: set<int>, b: set<int>, f: int -> int, g: int -> int)
    requires forall x :: x in a ==> f(x) in b && g(f(x)) == x
    requires forall y :: y in b ==> g(y) in a && f(g(y)) == y
    ensures |a| == |b|
    decreases |a|
  {
    if |a| == 0 {
      if b != {} {
        var y := Member(b);
        assert false;
      }
    } else {
      var x := Member(a);
      SameSizeByInverses(a - {x}, b - {f(x)}, f, g);
    }
  }
}
