/** splitmix64 on unbounded integers: the numbers behind the sampler's draws. */
module SplitMix {
  /** The 64-bit words: the mask is a remainder, the shift a quotient. */
  const WORDS: nat := 0x1_0000_0000_0000_0000
  type Word = n: nat | n < WORDS

  function Xor(a: nat, b: nat): nat {
    if a == 0 && b == 0 then 0 else (a + b) % 2 + 2 * Xor(a / 2, b / 2)
  }

  function Pow2(n: nat): (p: nat)
    ensures p >= 1
  {
    if n == 0 then 1 else 2 * Pow2(n - 1)
  }

  /** Bit k of n, from the lowest. */
  function Bit(n: nat, k: nat): nat {
    if k == 0 then n % 2 else Bit(n / 2, k - 1)
  }

  /** Every bit is set where one of the two is, and not both. */
  lemma {:induction false} XorBits(a: nat, b: nat, k: nat)
    ensures Bit(Xor(a, b), k) == if Bit(a, k) == Bit(b, k) then 0 else 1
    decreases k
  {
    XorHalves(a, b);
    hide Xor;
    if k > 0 {
      XorBits(a / 2, b / 2, k - 1);
    }
  }

  lemma LastBits(p: nat, x: nat, q: nat, y: nat)
    requires x < 2 && y < 2
    ensures (2 * p + x + (2 * q + y)) % 2 == if x == y then 0 else 1
  {
    assert 2 * p + x + (2 * q + y) == 2 * (p + q) + (x + y);
  }

  lemma BitFirst(r: nat, x: nat)
    requires r < 2
    ensures (r + 2 * x) / 2 == x && (r + 2 * x) % 2 == r
  {
  }

  lemma XorSteps(a: nat, b: nat)
    ensures Xor(a, b) == (a + b) % 2 + 2 * Xor(a / 2, b / 2)
  {
  }

  lemma XorHalves(a: nat, b: nat)
    ensures Xor(a, b) / 2 == Xor(a / 2, b / 2) && Xor(a, b) % 2 == if a % 2 == b % 2 then 0 else 1
  {
    hide Xor;
    XorSteps(a, b);
    BitFirst((a + b) % 2, Xor(a / 2, b / 2));
    LastBits(a / 2, a % 2, b / 2, b % 2);
    assert a == 2 * (a / 2) + a % 2 && b == 2 * (b / 2) + b % 2;
  }

  lemma {:induction false} XorFits(a: nat, b: nat, n: nat)
    requires a < Pow2(n) && b < Pow2(n)
    ensures Xor(a, b) < Pow2(n)
  {
    if n > 0 {
      XorFits(a / 2, b / 2, n - 1);
    }
  }

  lemma WordBits()
    ensures Pow2(64) == WORDS
  {
    assert Pow2(8) == 256;
    assert Pow2(16) == 65536;
    assert Pow2(24) == 65536 * 256;
    assert Pow2(32) == 65536 * 65536;
    assert Pow2(40) == 65536 * 65536 * 256;
    assert Pow2(48) == 65536 * 65536 * 65536;
    assert Pow2(56) == 65536 * 65536 * 65536 * 256;
  }

  /** z >> k, where p is 2^k. */
  function Shift(z: nat, p: nat): nat
    requires p > 0
  {
    z / p
  }

  /** z ^ (z >> k). */
  function Spread(z: nat, p: nat): nat
    requires p > 0
  {
    Xor(z, Shift(z, p))
  }

  lemma SpreadFits(z: Word, p: nat)
    requires p > 0
    ensures Spread(z, p) < WORDS
  {
    WordBits();
    XorFits(z, Shift(z, p), 64);
  }

  lemma HalfOfQuotient(a: nat, p: nat)
    requires p > 0
    ensures a / p / 2 == a / 2 / p
  {
    var q, r := a / 2 / p, a / 2 % p;
    assert a == 2 * (q * p + r) + a % 2;
    var s := 2 * r + a % 2;
    assert a == (2 * q) * p + s && 0 <= s < 2 * p;
    if s < p {
      QuotientIs(a, p, 2 * q, s);
    } else {
      assert (2 * q + 1) * p == (2 * q) * p + p;
      QuotientIs(a, p, 2 * q + 1, s - p);
    }
  }

  lemma QuotientIs(a: nat, p: nat, q: nat, r: nat)
    requires r < p && a == q * p + r
    ensures a / p == q
  {
    var d := a / p - q;
    assert d * p == r - a % p by {
      assert d * p == a / p * p - q * p;
    }
    assert d < 1 || d * p >= p;
    assert d >= 0 || d * p + p <= 0;
  }

  lemma Halves(a: nat, p: nat)
    requires p > 1
    ensures Spread(a, p) / 2 == Spread(a / 2, p)
    ensures Spread(a, p) % 2 == (a + Shift(a, p)) % 2
  {
    HalfOfQuotient(a, p);
    if a == 0 {
      QuotientIs(0, p, 0, 0);
    }
  }

  /** The topmost bits stay as they are, and each of them gives a lower one back. */
  lemma {:induction false} SpreadDiffers(a: nat, b: nat, p: nat)
    requires p > 1 && p % 2 == 0 && Spread(a, p) == Spread(b, p)
    ensures a == b
    decreases a + b
  {
    hide Spread, Shift;
    if a != 0 || b != 0 {
      Halves(a, p);
      Halves(b, p);
      SpreadDiffers(a / 2, b / 2, p);
      SameQuotient(a, b, p);
      SameLastBit(a, b, Shift(a, p));
    }
  }

  lemma SameLastBit(a: nat, b: nat, q: nat)
    requires a / 2 == b / 2 && (a + q) % 2 == (b + q) % 2
    ensures a == b
  {
  }

  /** p is even, so the last bit does not reach the quotient. */
  lemma SameQuotient(a: nat, b: nat, p: nat)
    requires p > 1 && p % 2 == 0 && a / 2 == b / 2
    ensures Shift(a, p) == Shift(b, p)
  {
    HalvedQuotient(a, p);
    HalvedQuotient(b, p);
  }

  lemma HalvedQuotient(a: nat, p: nat)
    requires p > 1 && p % 2 == 0
    ensures a / p == (a / 2) / (p / 2)
  {
    var h := p / 2;
    var q, r := a / 2 / h, a / 2 % h;
    assert a == 2 * (q * h + r) + a % 2;
    assert 2 * (q * h) == q * p;
    QuotientIs(a, p, q, 2 * r + a % 2);
  }

  function Scale(z: int, c: int): Word { (z * c) % WORDS }

  /** A factor with an inverse d keeps words apart. */
  lemma ScaleDiffers(x: int, y: int, c: int, d: int, k: int)
    requires c * d == 1 + k * WORDS
    requires Scale(x, c) == Scale(y, c) && x - y < WORDS && y - x < WORDS
    ensures x == y
  {
    var e := x - y;
    var m := x * c / WORDS - y * c / WORDS;
    assert e * c == m * WORDS by {
      assert e * c == x * c - y * c;
    }
    calc {
      m * d * WORDS;
      e * c * d;
      e * (1 + k * WORDS);
      e + e * k * WORDS;
    }
    assert e == (m * d - e * k) * WORDS;
  }

  const GAMMA := 0x9E3779B97F4A7C15
  const FIRST := 0xBF58476D1CE4E5B9
  const SECOND := 0x94D049BB133111EB

  lemma GammaDiffers(x: int, y: int)
    requires Scale(x, GAMMA) == Scale(y, GAMMA) && x - y < WORDS && y - x < WORDS
    ensures x == y
  {
    ScaleDiffers(x, y, GAMMA, 0xF1DE83E19937733D, 0x957BBF35006ED677);
  }

  lemma FirstDiffers(x: Word, y: Word)
    requires Scale(x, FIRST) == Scale(y, FIRST)
    ensures x == y
  {
    ScaleDiffers(x, y, FIRST, 0x96DE1B173F119089, 0x70C3BCA78F27F46C);
  }

  lemma SecondDiffers(x: Word, y: Word)
    requires Scale(x, SECOND) == Scale(y, SECOND)
    ensures x == y
  {
    ScaleDiffers(x, y, SECOND, 0x319642B2D24D8EC3, 0x1CD336EDA85F1453);
  }

  /** The output of a state. */
  function Mix(state: Word): (z: nat) {
    Spread(Scale(Spread(Scale(Spread(state, 0x4000_0000), FIRST), 0x800_0000), SECOND), 0x8000_0000)
  }

  lemma MixFits(state: Word)
    ensures Mix(state) < WORDS
  {
    SpreadFits(Scale(Spread(Scale(Spread(state, 0x4000_0000), FIRST), 0x800_0000), SECOND), 0x8000_0000);
  }

  /** Different states give different numbers. */
  lemma MixDiffers(s: Word, t: Word)
    requires Mix(s) == Mix(t)
    ensures s == t
  {
    hide Spread, Scale;
    SpreadFits(s, 0x4000_0000);
    SpreadFits(t, 0x4000_0000);
    var a: Word, a': Word := Spread(s, 0x4000_0000), Spread(t, 0x4000_0000);
    var b, b' := Scale(a, FIRST), Scale(a', FIRST);
    SpreadFits(b, 0x800_0000);
    SpreadFits(b', 0x800_0000);
    var c: Word, c': Word := Spread(b, 0x800_0000), Spread(b', 0x800_0000);
    SpreadDiffers(Scale(c, SECOND), Scale(c', SECOND), 0x8000_0000);
    SecondDiffers(c, c');
    SpreadDiffers(b, b', 0x800_0000);
    FirstDiffers(a, a');
    SpreadDiffers(s, t, 0x4000_0000);
  }

  /** The state after n numbers were drawn. */
  function StateAt(seed: Word, n: nat): Word {
    (seed + n * GAMMA) % WORDS
  }

  lemma OneMore(seed: Word, n: nat)
    ensures (StateAt(seed, n) + GAMMA) % WORDS == StateAt(seed, n + 1)
  {
    AddRemainder(seed + n * GAMMA, GAMMA);
    assert seed + n * GAMMA + GAMMA == seed + (n + 1) * GAMMA;
  }

  lemma AddRemainder(x: int, y: int)
    ensures (x % WORDS + y) % WORDS == (x + y) % WORDS
  {
  }

  lemma SameRemainder(s: int, x: int, y: int)
    requires (s + x) % WORDS == (s + y) % WORDS
    ensures x % WORDS == y % WORDS
  {
  }

  lemma SameStride(seed: Word, i: nat, j: nat)
    requires StateAt(seed, i) == StateAt(seed, j)
    ensures Scale(i, GAMMA) == Scale(j, GAMMA)
  {
    SameRemainder(seed, i * GAMMA, j * GAMMA);
  }

  /** The n-th number drawn after a seed. */
  function Drawn(seed: Word, n: nat): nat {
    Mix(StateAt(seed, n))
  }

  /** Of 2^64 numbers drawn in a row no two are equal. */
  lemma NumbersDiffer(seed: Word, i: nat, j: nat)
    requires i != j && i - j < WORDS && j - i < WORDS
    ensures Drawn(seed, i) != Drawn(seed, j)
  {
    hide Mix, StateAt, Scale;
    if Drawn(seed, i) == Drawn(seed, j) {
      MixDiffers(StateAt(seed, i), StateAt(seed, j));
      SameStride(seed, i, j);
      GammaDiffers(i, j);
    }
  }

  /** 53 bits of a number as a real below 1. */
  function Unit(z: Word): (u: real)
    ensures 0.0 <= u < 1.0
  {
    (z / 2048) as real / 9007199254740992.0
  }

  /** A draw is the number over 2^64, rounded down to a multiple of 1 / 2^53. */
  lemma UnitRounds(z: Word)
    ensures var u := Unit(z);
            && u * WORDS as real <= z as real < (u + 1.0 / 9007199254740992.0) * WORDS as real
            && (u * 9007199254740992.0).Floor as real == u * 9007199254740992.0
  {
    var k := z / 2048;
    assert k as real == Unit(z) * 9007199254740992.0;
    assert 2048 * k <= z < 2048 * (k + 1);
  }

  /** The generator. */
  class Rng {
    var state: Word
    ghost var seed: Word
    ghost var drawn: nat                   // how many numbers were drawn

    ghost predicate Valid()
      reads this
    {
      state == StateAt(seed, drawn)
    }

    constructor (seed: nat)
      ensures Valid() && this.seed == seed % WORDS && drawn == 0
    {
      state := seed % WORDS;
      this.seed, drawn := seed % WORDS, 0;
    }

    /** The next of the numbers after the seed. */
    method Next() returns (z: Word)
      requires Valid()
      modifies this
      ensures Valid() && seed == old(seed) && drawn == old(drawn) + 1 && z == Drawn(seed, drawn)
    {
      hide Mix, StateAt;
      OneMore(seed, drawn);
      state := (state + GAMMA) % WORDS;
      drawn := drawn + 1;
      MixFits(state);
      z := Mix(state);
    }

    method Uniform() returns (u: real)
      requires Valid()
      modifies this
      ensures Valid() && seed == old(seed) && drawn == old(drawn) + 1
      ensures Drawn(seed, drawn) < WORDS && u == Unit(Drawn(seed, drawn))
    {
      var z := Next();
      u := Unit(z);
    }
  }
}
