/** The seeded Park-Miller "minimal standard" generator (class StableRandom).
    The generator's state is an explicit value threaded through every call. */
module StableRandom {
  import opened Wrappers

  /** 2^31 - 1, the (prime) modulus. */
  const Modulus: int := 2147483647
  /** 7^5, the multiplier. */
  const Multiplier: int := 16807

  /** Bezout coefficients for Multiplier and Modulus:
      BezoutA * Multiplier + BezoutB * Modulus == 1. */
  const BezoutA: int := -739806647
  const BezoutB: int := 5790

  datatype Rng = Rng(seed: int)

  /** A value drawn from the generator together with the advanced generator. */
  datatype Draw<+T> = Draw(value: T, rng: Rng)

  /** The seeds from which the generator stays in range forever. */
  predicate ValidSeed(seed: int) {
    1 <= seed <= Modulus - 1
  }

  /** JavaScript's `%` on integers: truncates toward zero, so the remainder
      has the sign of the dividend (Dafny's own `%` is Euclidean). */
  function JsRem(a: int, b: int): (r: int)
    requires b > 0
    ensures a >= 0 ==> 0 <= r < b
    ensures a < 0 ==> -b < r <= 0
    ensures a >= 0 ==> r == a % b
  {
    if a >= 0 then a % b else -((-a) % b)
  }

  /** The constructor: a falsy seed (absent or 0) is replaced by an
      entropy-derived value `Math.floor(Math.random() * Modulus)`, which the
      caller supplies as `entropy`. */
  function Create(seed: Option<int>, entropy: int): (r: Rng)
    requires 0 <= entropy < Modulus
    ensures seed.Some? && seed.value != 0 ==> r.seed == seed.value
    ensures seed.None? || seed.value == 0 ==> r.seed == entropy
    ensures (seed.Some? && ValidSeed(seed.value)) || ((seed.None? || seed.value == 0) && entropy != 0)
            ==> ValidSeed(r.seed)
  {
    match seed
    case Some(s) => if s != 0 then Rng(s) else Rng(entropy)
    case None => Rng(entropy)
  }

  /** One multiplicative step of the state: a valid seed stays valid,
      because Multiplier is invertible modulo the prime Modulus. */
  function Step(seed: int): (next: int)
    ensures ValidSeed(seed) ==> ValidSeed(next)
  {
    if ValidSeed(seed) then
      StepStaysValid(seed);
      JsRem(seed * Multiplier, Modulus)
    else
      JsRem(seed * Multiplier, Modulus)
  }

  /** `next()`: advance the state and map it to a real. */
  function Next(r: Rng): (d: Draw<real>)
    ensures d.rng.seed == Step(r.seed)
    ensures d.value < 1.0
    ensures ValidSeed(r.seed) ==> ValidSeed(d.rng.seed) && 0.0 <= d.value < 1.0
  {
    var s := Step(r.seed);
    Draw((s - 1) as real / (Modulus - 1) as real, Rng(s))
  }

  /** Multiplier is invertible modulo Modulus, witnessed by Bezout's identity. */
  lemma BezoutIdentity()
    ensures BezoutA * Multiplier + BezoutB * Modulus == 1
  {
  }

  /** No seed in range is sent to 0: if Modulus divided seed * Multiplier it
      would divide seed = seed * (BezoutA * Multiplier + BezoutB * Modulus). */
  lemma StepStaysValid(seed: int)
    requires ValidSeed(seed)
    ensures ValidSeed(JsRem(seed * Multiplier, Modulus))
  {
    var p := seed * Multiplier;
    assert p >= 0;
    var q := p / Modulus;
    var s := p % Modulus;
    assert p == q * Modulus + s;
    BezoutIdentity();
    calc {
      seed;
      seed * (BezoutA * Multiplier + BezoutB * Modulus);
      BezoutA * (seed * Multiplier) + (seed * BezoutB) * Modulus;
      BezoutA * (q * Modulus + s) + (seed * BezoutB) * Modulus;
      BezoutA * s + (BezoutA * q + seed * BezoutB) * Modulus;
    }
  }

  /** `n` applications of `next()`; the state after `n` draws. */
  function Advance(r: Rng, n: nat): Rng
    decreases n
  {
    if n == 0 then r else Advance(Next(r).rng, n - 1)
  }

  lemma {:induction false} AdvanceStaysValid(r: Rng, n: nat)
    requires ValidSeed(r.seed)
    ensures ValidSeed(Advance(r, n).seed)
    decreases n
  {
    if n > 0 {
      AdvanceStaysValid(Next(r).rng, n - 1);
    }
  }

  /** The state 0 is a fixed point and `next()` then yields a negative value:
      `setSeed(0)` leaves the range [0, 1). */
  lemma SeedZeroIsFixedPoint()
    ensures Next(Rng(0)).rng == Rng(0)
    ensures Next(Rng(0)).value < 0.0
  {
  }

  /** From the seed 0 the swap index of `shuffle` is -1, outside the array. */
  lemma SeedZeroSwapIndex()
    ensures NextInt(Rng(0), 0, 1).value == -1
  {
    var v := Next(Rng(0)).value;
    assert -1.0 <= v * 2.0 < 0.0;
  }

  /** A seed equal to the modulus is sent to 0 and stays there. */
  lemma SeedModulusCollapses()
    ensures Next(Rng(Modulus)).rng == Rng(0)
    ensures Advance(Rng(Modulus), 3) == Rng(0)
  {
  }

  /** Multiply a draw in [0, 1) by a positive width and floor it. */
  lemma FloorOfScaledDraw(v: real, n: int)
    requires 0.0 <= v < 1.0
    requires n >= 1
    ensures 0 <= (v * n as real).Floor <= n - 1
  {
    var x := v * n as real;
    assert 0.0 <= x;
    assert x < n as real by {
      assert (1.0 - v) * n as real > 0.0;
    }
    assert x.Floor as real <= x;
  }

  /** A value below 1 scaled by a positive width floors below the width,
      whatever its sign. */
  lemma FloorBelowWidth(v: real, n: int)
    requires v < 1.0 && n >= 1
    ensures (v * n as real).Floor <= n - 1
  {
    assert v * n as real < n as real by {
      assert (1.0 - v) * n as real > 0.0;
    }
  }

  /** `nextInt(min, max)`: an integer in [min, max] inclusive; from a seed
      out of range it can fall below min but never above max. */
  function NextInt(r: Rng, min: int, max: int): (d: Draw<int>)
    ensures d.rng == Next(r).rng
    ensures min <= max ==> d.value <= max
    ensures ValidSeed(r.seed) && min <= max ==> min <= d.value <= max
  {
    var n := Next(r);
    assert ValidSeed(r.seed) && min <= max ==> 0 <= (n.value * (max - min + 1) as real).Floor <= max - min by {
      if ValidSeed(r.seed) && min <= max { FloorOfScaledDraw(n.value, max - min + 1); }
    }
    assert min <= max ==> (n.value * (max - min + 1) as real).Floor <= max - min by {
      if min <= max { FloorBelowWidth(n.value, max - min + 1); }
    }
    Draw((n.value * (max - min + 1) as real).Floor + min, n.rng)
  }

  /** `choose(array)`: `array[nextInt(0, length - 1)]`; on an empty array the
      index 0 reads `undefined`, modelled as None. */
  function Choose<T>(r: Rng, a: seq<T>): (d: Draw<Option<T>>)
    ensures d.rng == Next(r).rng
    ensures |a| == 0 ==> d.value.None?
    ensures ValidSeed(r.seed) && |a| > 0 ==> d.value.Some? && d.value.value in a
  {
    var k := NextInt(r, 0, |a| - 1);
    if 0 <= k.value < |a| then Draw(Some(a[k.value]), k.rng) else Draw(None, k.rng)
  }

  /** Every element of `a`, defined. */
  function Defined<T>(a: seq<T>): (d: seq<Option<T>>)
    ensures |d| == |a| && forall k :: 0 <= k < |a| ==> d[k] == Some(a[k])
  {
    seq(|a|, k requires 0 <= k < |a| => Some(a[k]))
  }

  /** The element at index j of the working array `result`, whose negative
      indices are plain properties kept in `extra`; reading one that was
      never written gives `undefined` (None). */
  function ReadAt<T>(result: seq<Option<T>>, extra: map<int, Option<T>>, j: int): Option<T>
    requires j < |result|
  {
    if j >= 0 then result[j] else if j in extra then extra[j] else None
  }

  /** `shuffle(array)`: a Durstenfeld shuffle of a copy of the input.  The
      input is a value and is never modified.  From a valid seed every swap
      index j lies in [0, i] and the result is a permutation.  From a seed
      out of range j can be negative: `result[j]` then reads `undefined` (or
      what an earlier step stored under that property) into `result[i]`,
      and the write goes to a property that is not an element. */
  method Shuffle<T>(r: Rng, a: seq<T>) returns (result: seq<Option<T>>, r': Rng)
    ensures |result| == |a|
    ensures forall k :: 0 <= k < |result| && result[k].Some? ==> result[k].value in a
    ensures r' == Advance(r, if |a| > 0 then |a| - 1 else 0)
    ensures ValidSeed(r.seed) ==> multiset(result) == multiset(Defined(a)) && ValidSeed(r'.seed)
  {
    result := Defined(a);
    var extra: map<int, Option<T>> := map[];
    r' := r;
    var i := |result| - 1;
    while i > 0
      invariant -1 <= i < |result| == |a|
      invariant |a| > 0 ==> 0 <= i
      invariant forall k :: 0 <= k < |result| && result[k].Some? ==> result[k].value in a
      invariant forall j :: j in extra && extra[j].Some? ==> extra[j].value in a
      invariant ValidSeed(r.seed) ==> multiset(result) == multiset(Defined(a)) && ValidSeed(r'.seed)
      invariant r' == Advance(r, if |a| > 0 then |a| - 1 - i else 0)
      decreases i
    {
      var d := NextInt(r', 0, i);
      var j := d.value;
      AdvanceOneMore(r, |a| - 1 - i);
      r' := d.rng;
      var temp := result[i];
      result := result[i := ReadAt(result, extra, j)];
      if j >= 0 {
        result := result[j := temp];
      } else {
        extra := extra[j := temp];
      }
      i := i - 1;
    }
  }

  lemma {:induction false} AdvanceOneMore(r: Rng, n: nat)
    ensures Advance(r, n + 1) == Next(Advance(r, n)).rng
    decreases n
  {
    if n > 0 {
      AdvanceOneMore(Next(r).rng, n - 1);
    }
  }

  /** `setSeed(seed)`: `seed >>> 0`, i.e. reduction modulo 2^32. */
  function SetSeed(seed: int): (r: Rng)
    ensures 0 <= r.seed < 0x1_0000_0000
    ensures (r.seed - seed) % 0x1_0000_0000 == 0
  {
    Rng(seed % 0x1_0000_0000)
  }

  /** `getSeed()`: after `SetSeed` the state reads back unchanged when it was
      already a 32-bit unsigned value. */
  function GetSeed(r: Rng): int {
    r.seed
  }

  lemma SetSeedGetSeed(seed: int)
    requires 0 <= seed < 0x1_0000_0000
    ensures GetSeed(SetSeed(seed)) == seed
  {
  }

  /** `setSeed` accepts seeds outside the generator's valid range. */
  lemma SetSeedCanLeaveRange()
    ensures !ValidSeed(SetSeed(0).seed)
    ensures !ValidSeed(SetSeed(Modulus).seed)
  {
  }
}
