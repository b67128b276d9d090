/** The polyphase resampler: which input samples and which phase row each output
    takes, and that the blocks write every output once. */
module Resample {
  const MAX_PHASES: nat := 4096
  const BLOCK: nat := 8192

  /** Where output k lies: past input sample `base` by `rest` of `up` parts. */
  function Base(k: nat, up: nat, down: nat): nat
    requires up > 0
  {
    k * down / up
  }

  function Rest(k: nat, up: nat, down: nat): (r: nat)
    requires up > 0
    ensures r < up
  {
    k * down % up
  }

  function Phases(up: nat): nat {
    if up < MAX_PHASES then up else MAX_PHASES
  }

  function Phase(k: nat, up: nat, down: nat): nat
    requires up > 0
  {
    Rest(k, up, down) * Phases(up) / up
  }

  function OutLength(n: nat, src: nat, dst: nat): nat
    requires src > 0
  {
    (n * dst + src / 2) / src
  }

  /** The input with silence around it. */
  function At(x: seq<real>, i: int): real {
    if 0 <= i < |x| then x[i] else 0.0
  }

  /** Taps 0 .. m - 1 of output k: tap j weighs input sample base + j - half. */
  function Taps(x: seq<real>, half: nat, table: (int, int) -> real, base: int, phase: int, m: nat): real {
    if m == 0 then 0.0
    else Taps(x, half, table, base, phase, m - 1) + At(x, base + m - 1 - half) * table(phase, m - 1)
  }

  function Output(x: seq<real>, half: nat, table: (int, int) -> real, up: nat, down: nat, k: nat): real
    requires up > 0
  {
    Taps(x, half, table, Base(k, up, down), Phase(k, up, down), 2 * half + 1)
  }

  /** A single 1 at place i. */
  function Impulse(n: nat, i: nat): (x: seq<real>)
    ensures |x| == n
  {
    seq(n, k => if k == i then 1.0 else 0.0)
  }

  function Sum(x: seq<real>, y: seq<real>): (z: seq<real>)
    requires |x| == |y|
    ensures |z| == |x|
  {
    seq(|x|, k requires 0 <= k < |x| => x[k] + y[k])
  }

  /** What one input sample adds to an output: the tap that stands over it, or nothing. */
  lemma {:induction false} ImpulseTaps(n: nat, i: nat, half: nat, table: (int, int) -> real, base: int, phase: int,
                                       m: nat)
    requires i < n
    ensures Taps(Impulse(n, i), half, table, base, phase, m) ==
            if 0 <= i - base + half < m then table(phase, i - base + half) else 0.0
  {
    if m > 0 {
      ImpulseTaps(n, i, half, table, base, phase, m - 1);
      assert At(Impulse(n, i), base + m - 1 - half) == if base + m - 1 - half == i then 1.0 else 0.0;
    }
  }

  /** An output weighs the input samples at most `half` from its base, each by its own tap. */
  lemma OutputOfImpulse(n: nat, i: nat, half: nat, table: (int, int) -> real, up: nat, down: nat, k: nat)
    requires i < n && up > 0
    ensures var base, phase := Base(k, up, down), Phase(k, up, down);
            Output(Impulse(n, i), half, table, up, down, k) ==
            if base - half <= i <= base + half then table(phase, i - base + half) else 0.0
  {
    ImpulseTaps(n, i, half, table, Base(k, up, down), Phase(k, up, down), 2 * half + 1);
  }

  /** An output of a sum is the sum of the outputs. */
  lemma {:induction false} TapsAdd(x: seq<real>, y: seq<real>, half: nat, table: (int, int) -> real, base: int,
                                   phase: int, m: nat)
    requires |x| == |y|
    ensures Taps(Sum(x, y), half, table, base, phase, m) ==
            Taps(x, half, table, base, phase, m) + Taps(y, half, table, base, phase, m)
  {
    if m > 0 {
      TapsAdd(x, y, half, table, base, phase, m - 1);
      var i := base + m - 1 - half;
      assert At(Sum(x, y), i) == At(x, i) + At(y, i);
      var tap := table(phase, m - 1);
      assert (At(x, i) + At(y, i)) * tap == At(x, i) * tap + At(y, i) * tap;
    }
  }

  // ----- arithmetic -----

  lemma DivLess(a: nat, b: nat, c: nat)
    requires c > 0 && a < b * c
    ensures a / c < b
  {
  }

  lemma MulCancel(a: nat, b: nat, g: nat)
    requires g > 0 && a * g < b * g
    ensures a < b
  {
  }

  lemma MulLess(r: nat, up: nat, p: nat)
    requires r < up && p > 0
    ensures r * p < p * up
  {
  }

  lemma MulAtLeast(d: nat, up: nat)
    requires d > 0
    ensures d * up >= up
  {
  }

  lemma MulDiv(r: nat, up: nat)
    requires up > 0
    ensures r * up / up == r
  {
    var a := r * up;
    var q, m := a / up, a % up;
    assert q * up + m == a;
    if q < r {
      MulAtLeast(r - q, up);
    }
  }

  lemma DivBounds(a: nat, up: nat)
    requires up > 0
    ensures a / up * up <= a < (a / up + 1) * up
  {
    assert a == a / up * up + a % up;
    assert (a / up + 1) * up == a / up * up + up;
  }

  /** Output k lies at input position k * src / dst: `base` samples and `rest` of `up` parts. */
  lemma PositionIs(src: nat, dst: nat, g: nat, up: nat, down: nat, k: nat)
    requires up > 0 && up * g == dst && down * g == src
    ensures k * src == Base(k, up, down) * dst + Rest(k, up, down) * g
    ensures g > 0 ==> Rest(k, up, down) * g < dst
  {
    var b, r := Base(k, up, down), Rest(k, up, down);
    assert k * down == b * up + r;
    MulThrough(k, down, src, g);
    MulThrough(b, up, dst, g);
    assert (b * up + r) * g == (b * up) * g + r * g;
    if g > 0 {
      MulLess(r, up, g);
    }
  }

  /** The phase row is in the table, and is the exact offset while the table
      has a row for each of the `up` parts. */
  lemma PhaseInTable(k: nat, up: nat, down: nat)
    requires up > 0
    ensures Phase(k, up, down) < Phases(up)
    ensures Phase(k, up, down) * up <= Rest(k, up, down) * Phases(up) < (Phase(k, up, down) + 1) * up
    ensures up <= MAX_PHASES ==> Phase(k, up, down) == Rest(k, up, down)
  {
    MulLess(Rest(k, up, down), up, Phases(up));
    DivLess(Rest(k, up, down) * Phases(up), Phases(up), up);
    DivBounds(Rest(k, up, down) * Phases(up), up);
    MulDiv(Rest(k, up, down), up);
  }

  /** The output length is n * dst / src, rounded to the nearest. */
  lemma OutLengthRounds(n: nat, src: nat, dst: nat)
    requires src > 0
    ensures var m := OutLength(n, src, dst);
            2 * (m * src) <= 2 * (n * dst) + src && 2 * (n * dst) < 2 * (m * src) + src + 1
  {
    var a, m := n * dst + src / 2, OutLength(n, src, dst);
    assert m * src + a % src == a;
  }

  lemma MulGrows(k: nat, m: nat, src: nat)
    requires k < m
    ensures k * src + src <= m * src
  {
    assert (k + 1) * src <= m * src;
  }

  lemma MulThrough(a: nat, b: nat, c: nat, g: nat)
    requires b * g == c
    ensures a * c == (a * b) * g
  {
  }

  /** Before rounding, an output starts before the input ends. */
  lemma StartsInside(n: nat, src: nat, dst: nat, k: nat)
    requires src > 0 && k < OutLength(n, src, dst)
    ensures k * src < n * dst
  {
    OutLengthRounds(n, src, dst);
    MulGrows(k, OutLength(n, src, dst), src);
  }

  /** Every output's base sample is an input sample. */
  lemma BaseIsInput(n: nat, src: nat, dst: nat, g: nat, up: nat, down: nat, k: nat)
    requires src > 0 && dst > 0 && g > 0 && up * g == dst && down * g == src && up > 0
    requires k < OutLength(n, src, dst)
    ensures Base(k, up, down) < n
  {
    hide OutLength;
    StartsInside(n, src, dst, k);
    MulThrough(k, down, src, g);
    MulThrough(n, up, dst, g);
    MulCancel(k * down, n * up, g);
    DivLess(k * down, n, up);
  }

  lemma Divided(a: nat, g: nat)
    requires a > 0 && g > 0 && a % g == 0
    ensures a / g > 0 && a / g * g == a
  {
  }

  // ----- the resampler -----

  predicate Divides(d: nat, a: nat, b: nat) {
    d > 0 && a % d == 0 && b % d == 0
  }

  lemma DividesIsSmall(d: nat, a: nat, b: nat)
    requires a > 0 && Divides(d, a, b)
    ensures d <= a
  {
  }

  /** math.gcd. */
  method Gcd(a: nat, b: nat) returns (g: nat)
    requires a > 0 && b > 0
    ensures Divides(g, a, b) && forall d: nat :: Divides(d, a, b) ==> d <= g
    ensures a % g == 0 && b % g == 0
  {
    g := a;
    forall d: nat | Divides(d, a, b)
      ensures d <= a
    {
      DividesIsSmall(d, a, b);
    }
    assert Divides(1, a, b);
    while !Divides(g, a, b)
      invariant g > 0
      invariant forall d: nat :: Divides(d, a, b) ==> d <= g
      decreases g
    {
      g := g - 1;
    }
  }

  /** The padded input. */
  function Padded(x: seq<real>, half: nat): (xp: seq<real>)
    ensures |xp| == |x| + 2 * half + 1
    ensures forall i :: 0 <= i < |xp| ==> xp[i] == At(x, i - half)
  {
    seq(half, i => 0.0) + x + seq(half + 1, i => 0.0)
  }

  /** resample: `half` and the table come from the kernel; every output is
      written once, block by block. */
  method Resample(x: seq<real>, src: nat, dst: nat, half: nat, table: (int, int) -> real)
    returns (out: array<real>, ghost g: nat, ghost up: nat, ghost down: nat)
    requires src > 0 && dst > 0
    ensures fresh(out)
    ensures src == dst || x == [] ==> out[..] == x
    ensures Divides(g, src, dst) && (forall d: nat :: Divides(d, src, dst) ==> d <= g)
    ensures up > 0 && up * g == dst && down * g == src
    ensures src != dst && x != [] ==>
              && out.Length == OutLength(|x|, src, dst)
              && forall k :: 0 <= k < out.Length ==> out[k] == Output(x, half, table, up, down, k)
  {
    var d := Gcd(src, dst);
    Divided(src, d);
    Divided(dst, d);
    g, up, down := d, dst / d, src / d;
    if src == dst || x == [] {
      out := new real[|x|](i requires 0 <= i < |x| => x[i]);
      return;
    }
    var xp := Padded(x, half);
    out := new real[OutLength(|x|, src, dst)];
    var b0 := 0;
    while b0 < out.Length
      invariant 0 <= b0
      invariant forall k :: 0 <= k < b0 && k < out.Length ==> out[k] == Output(x, half, table, up, down, k)
    {
      var end := if b0 + BLOCK < out.Length then b0 + BLOCK else out.Length;
      WriteBlock(x, xp, src, dst, d, half, table, dst / d, src / d, out, b0, end);
      b0 := b0 + BLOCK;
    }
  }

  /** One block of outputs. */
  method WriteBlock(x: seq<real>, xp: seq<real>, src: nat, dst: nat, g: nat, half: nat, table: (int, int) -> real,
                    up: nat, down: nat, out: array<real>, b0: nat, end: nat)
    requires src > 0 && dst > 0 && g > 0 && up > 0 && up * g == dst && down * g == src
    requires xp == Padded(x, half) && out.Length == OutLength(|x|, src, dst) && b0 <= end <= out.Length
    modifies out
    ensures forall k :: 0 <= k < out.Length ==>
              out[k] == if b0 <= k < end then Output(x, half, table, up, down, k) else old(out[k])
  {
    for k := b0 to end
      invariant forall i :: 0 <= i < out.Length ==>
                  out[i] == if b0 <= i < k then Output(x, half, table, up, down, i) else old(out[i])
    {
      var num := k * down;
      var base := num / up;
      var ph := (num - base * up) * Phases(up) / up;
      assert num - base * up == num % up;
      BaseIsInput(|x|, src, dst, g, up, down, k);
      PhaseInTable(k, up, down);
      assert 0 <= ph < Phases(up);
      var s := Dot(x, xp, half, table, base, ph);
      out[k] := s;
    }
  }

  /** einsum of one row: reads the padded input inside its bounds only. */
  method Dot(x: seq<real>, xp: seq<real>, half: nat, table: (int, int) -> real, base: nat, ph: nat) returns (s: real)
    requires xp == Padded(x, half) && base < |x|
    ensures s == Taps(x, half, table, base, ph, 2 * half + 1)
  {
    s := 0.0;
    for j := 0 to 2 * half + 1
      invariant s == Taps(x, half, table, base, ph, j)
    {
      s := s + xp[base + j] * table(ph, j);
    }
  }
}
