/** The single-line resonance model `line(freqs, f, a, q)`.

    Around the centre frequency `f` the line has a hard window of half-width
    `df = f / max(50, q/100)`; every grid point outside the window gets exactly 0.
    Inside it the value is a clipped weight times `a f^2 / q^2 / (x^2 (x^2 - f^2)^2)`.
    The exponential is a parameter `exp`, so nothing here depends on its values
    unless a lemma states the property of `exp` it needs. */
module LineModel {

  function Abs(x: real): real {
    if x < 0.0 then -x else x
  }

  /** `max(50, q*1e-2)`. */
  function Spread(q: real): (s: real)
    ensures s >= 50.0 && s >= q * 0.01
    ensures s == 50.0 || s == q * 0.01
  {
    if 50.0 >= q * 0.01 then 50.0 else q * 0.01
  }

  /** Half-width of the window around the line centre. */
  function HalfWidth(f: real, q: real): real {
    f / Spread(q)
  }

  /** Frequency `x` lies in the closed window `[f - df, f + df]`. */
  predicate InWindow(x: real, f: real, q: real) {
    f - HalfWidth(f, q) <= x <= f + HalfWidth(f, q)
  }

  /** Every in-window grid point keeps the resonance formula finite: the quality
      factor, the frequency and its distance to the centre are all nonzero. */
  predicate Regular(freqs: seq<real>, f: real, q: real) {
    forall i :: 0 <= i < |freqs| ==> Finite(freqs[i], f, q)
  }

  /** The formula is defined at grid point `x`, or `x` lies outside the window. */
  predicate Finite(x: real, f: real, q: real) {
    InWindow(x, f, q) ==> x != 0.0 && x != f && q != 0.0
  }

  /** A nonzero in-window frequency forces a positive centre, a positive half-width
      and a positive frequency; in particular `x + f` is positive. */
  lemma WindowIsPositive(x: real, f: real, q: real)
    requires InWindow(x, f, q) && x != 0.0
    ensures f > 0.0 && HalfWidth(f, q) > 0.0 && x > 0.0
  {
    var s := Spread(q);
    var df := HalfWidth(f, q);
    assert df * s == f;
    assert df >= 0.0;
    assert df != 0.0;
    assert f > 0.0;
    assert df * 50.0 <= df * s;
    assert df < f;
  }

  /** `z = exp(-(|x - f| - df)/df)`, clipped to at most 1. */
  function Weight(exp: real -> real, x: real, f: real, df: real): (z: real)
    requires df != 0.0
    ensures z <= 1.0
    ensures exp(-(Abs(x - f) - df) / df) <= 1.0 ==> z == exp(-(Abs(x - f) - df) / df)
    ensures exp(-(Abs(x - f) - df) / df) > 1.0 ==> z == 1.0
  {
    var raw := exp(-(Abs(x - f) - df) / df);
    if raw > 1.0 then 1.0 else raw
  }

  function Square(u: real): real {
    u * u
  }

  /** The denominator `x^2 (x^2 - f^2)^2`, positive at a regular in-window point. */
  function Denominator(x: real, f: real): real {
    Square(x) * Square(Square(x) - Square(f))
  }

  /** The line strength `a f^2 / q^2`. */
  function Strength(f: real, a: real, q: real): real
    requires q != 0.0
  {
    SquarePositive(q);
    a * Square(f) / Square(q)
  }

  /** The value at an in-window grid point `x`: weight times strength over the denominator. */
  function Resonance(exp: real -> real, x: real, f: real, a: real, q: real): real
    requires InWindow(x, f, q) && x != 0.0 && x != f && q != 0.0
  {
    DenominatorPositive(x, f, q);
    WindowIsPositive(x, f, q);
    Weight(exp, x, f, HalfWidth(f, q)) * Strength(f, a, q) / Denominator(x, f)
  }

  lemma DenominatorPositive(x: real, f: real, q: real)
    requires InWindow(x, f, q) && x != 0.0 && x != f
    ensures Denominator(x, f) > 0.0
  {
    WindowIsPositive(x, f, q);
    DifferenceOfSquares(x, f);
    NonzeroProduct(x - f, x + f, Square(x) - Square(f));
    SquarePositive(x);
    SquarePositive(Square(x) - Square(f));
    PositiveProduct(Square(x), Square(Square(x) - Square(f)), Denominator(x, f));
  }

  lemma DifferenceOfSquares(x: real, f: real)
    ensures Square(x) - Square(f) == (x - f) * (x + f)
  {
  }

  lemma PositiveProduct(u: real, v: real, uv: real)
    requires u > 0.0 && v > 0.0 && uv == u * v
    ensures uv > 0.0
  {
  }

  lemma NegativeProduct(u: real, v: real, uv: real)
    requires u < 0.0 && v < 0.0 && uv == u * v
    ensures uv > 0.0
  {
  }

  lemma MixedProduct(u: real, v: real, uv: real)
    requires u < 0.0 && v > 0.0 && uv == u * v
    ensures uv < 0.0
  {
  }

  lemma NonzeroProduct(u: real, v: real, uv: real)
    requires u != 0.0 && v > 0.0 && uv == u * v
    ensures uv != 0.0
  {
    if u > 0.0 {
      PositiveProduct(u, v, uv);
    } else {
      MixedProduct(u, v, uv);
    }
  }

  lemma NonnegativeProduct(u: real, v: real, uv: real)
    requires u >= 0.0 && v >= 0.0 && uv == u * v
    ensures uv >= 0.0
  {
  }

  lemma NonnegativeQuotient(n: real, d: real, nd: real)
    requires n >= 0.0 && d > 0.0 && nd == n / d
    ensures nd >= 0.0
  {
    assert nd * d == n;
  }

  lemma SquarePositive(u: real)
    requires u != 0.0
    ensures Square(u) > 0.0
  {
    if u > 0.0 {
      PositiveProduct(u, u, Square(u));
    } else {
      NegativeProduct(u, u, Square(u));
    }
  }

  lemma SquareNonnegative(u: real)
    ensures Square(u) >= 0.0
  {
    if u != 0.0 {
      SquarePositive(u);
    }
  }

  /** A non-negative amplitude gives a non-negative strength. */
  lemma StrengthNonnegative(f: real, a: real, q: real)
    requires a >= 0.0 && q != 0.0
    ensures Strength(f, a, q) >= 0.0
  {
    SquareNonnegative(f);
    SquarePositive(q);
    NonnegativeProduct(a, Square(f), a * Square(f));
    NonnegativeQuotient(a * Square(f), Square(q), Strength(f, a, q));
  }

  /** The pointwise line model: the resonance inside the window, exactly zero outside. */
  function LineAt(exp: real -> real, x: real, f: real, a: real, q: real): real
    requires Finite(x, f, q)
  {
    if InWindow(x, f, q) then Resonance(exp, x, f, a, q) else 0.0
  }

  /** `truth = (f-df <= freqs)*(freqs <= f+df)`. */
  function Mask(freqs: seq<real>, f: real, q: real): (m: seq<bool>)
    ensures |m| == |freqs|
    ensures forall i :: 0 <= i < |freqs| ==> m[i] == InWindow(freqs[i], f, q)
  {
    seq(|freqs|, i requires 0 <= i < |freqs| => InWindow(freqs[i], f, q))
  }

  /** `freqs[truth]`: the selected elements, in order. The element at a selected
      position `i` lands at the number of selected positions before it. */
  function Compress(xs: seq<real>, mask: seq<bool>): (r: seq<real>)
    requires |mask| == |xs|
    ensures |r| == Count(mask)
    ensures forall y :: y in r ==> exists i :: 0 <= i < |xs| && mask[i] && xs[i] == y
    ensures forall i :: 0 <= i < |xs| && mask[i] ==> Count(mask[..i]) < |r| && r[Count(mask[..i])] == xs[i]
  {
    if |xs| == 0 then []
    else
      var rest := Compress(xs[1..], mask[1..]);
      CountPrefixes(mask);
      if mask[0] then [xs[0]] + rest else rest
  }

  /** The number of true entries. */
  function Count(mask: seq<bool>): nat {
    if |mask| == 0 then 0 else (if mask[0] then 1 else 0) + Count(mask[1..])
  }

  /** Counting a prefix of a non-empty mask: the head, then a prefix of the tail. */
  lemma CountPrefixes(mask: seq<bool>)
    requires |mask| > 0
    ensures forall i :: 1 <= i <= |mask| ==>
      Count(mask[..i]) == (if mask[0] then 1 else 0) + Count(mask[1..][..i - 1])
  {
    forall i | 1 <= i <= |mask|
      ensures Count(mask[..i]) == (if mask[0] then 1 else 0) + Count(mask[1..][..i - 1])
    {
      assert mask[..i][1..] == mask[1..][..i - 1];
    }
  }

  /** `psd = zeros_like(freqs); psd[truth] = vals`: the values go, in order, to the
      selected positions and every other position holds 0. */
  function Scatter(mask: seq<bool>, vals: seq<real>): (r: seq<real>)
    requires |vals| == Count(mask)
    ensures |r| == |mask|
    ensures forall i :: 0 <= i < |mask| && !mask[i] ==> r[i] == 0.0
    ensures forall i :: 0 <= i < |mask| && mask[i] ==> Count(mask[..i]) < |vals| && r[i] == vals[Count(mask[..i])]
  {
    if |mask| == 0 then []
    else
      CountPrefixes(mask);
      if mask[0] then [vals[0]] + Scatter(mask[1..], vals[1..])
      else [0.0] + Scatter(mask[1..], vals)
  }

  /** Every frequency of `xs` lies in the window and keeps the formula finite. */
  predicate RegularInside(xs: seq<real>, f: real, q: real) {
    forall k :: 0 <= k < |xs| ==> InWindow(xs[k], f, q) && xs[k] != 0.0 && xs[k] != f && q != 0.0
  }

  /** The resonance values over the in-window frequencies, as the vectorised formula
      computes them. */
  function Resonances(exp: real -> real, inside: seq<real>, f: real, a: real, q: real): (r: seq<real>)
    requires RegularInside(inside, f, q)
    ensures |r| == |inside|
    ensures forall k :: 0 <= k < |inside| ==> r[k] == Resonance(exp, inside[k], f, a, q)
  {
    if |inside| == 0 then []
    else [Resonance(exp, inside[0], f, a, q)] + Resonances(exp, inside[1..], f, a, q)
  }

  /** `line(freqs, f, a, q)`: a vector as long as the grid, equal to the resonance at
      every in-window point and exactly 0 at every other point. */
  function LineVector(exp: real -> real, freqs: seq<real>, f: real, a: real, q: real): (r: seq<real>)
    requires Regular(freqs, f, q)
    ensures |r| == |freqs|
    ensures forall i :: 0 <= i < |freqs| ==> !InWindow(freqs[i], f, q) ==> r[i] == 0.0
    ensures forall i :: 0 <= i < |freqs| ==> r[i] == LineAt(exp, freqs[i], f, a, q)
  {
    var truth := Mask(freqs, f, q);
    var inside := Compress(freqs, truth);
    MaskedWriteIsPointwise(exp, freqs, f, a, q);
    Scatter(truth, Resonances(exp, inside, f, a, q))
  }

  /** The compressed grid holds only regular in-window frequencies. */
  lemma {:induction false} InsideIsRegular(freqs: seq<real>, f: real, q: real)
    requires Regular(freqs, f, q)
    ensures RegularInside(Compress(freqs, Mask(freqs, f, q)), f, q)
  {
    if |freqs| > 0 {
      var rest := freqs[1..];
      assert Mask(freqs, f, q)[1..] == Mask(rest, f, q);
      assert Regular(rest, f, q) by {
        assert forall i :: 0 <= i < |rest| ==> rest[i] == freqs[i + 1];
      }
      InsideIsRegular(rest, f, q);
      var inner := Compress(rest, Mask(rest, f, q));
      if InWindow(freqs[0], f, q) {
        assert Compress(freqs, Mask(freqs, f, q)) == [freqs[0]] + inner;
        assert forall k :: 1 <= k < |inner| + 1 ==> ([freqs[0]] + inner)[k] == inner[k - 1];
      } else {
        assert Compress(freqs, Mask(freqs, f, q)) == inner;
      }
    }
  }

  /** Writing the compressed in-window values back through the mask agrees with the
      pointwise model at every grid point. */
  lemma {:induction false} MaskedWriteIsPointwise(exp: real -> real, freqs: seq<real>, f: real, a: real, q: real)
    requires Regular(freqs, f, q)
    ensures RegularInside(Compress(freqs, Mask(freqs, f, q)), f, q)
    ensures
      var inside := Compress(freqs, Mask(freqs, f, q));
      var r := Scatter(Mask(freqs, f, q), Resonances(exp, inside, f, a, q));
      forall i :: 0 <= i < |freqs| ==> r[i] == LineAt(exp, freqs[i], f, a, q)
  {
    var inside := Compress(freqs, Mask(freqs, f, q));
    InsideIsRegular(freqs, f, q);
    if |freqs| > 0 {
      var rest := freqs[1..];
      assert Mask(freqs, f, q)[1..] == Mask(rest, f, q);
      assert Regular(rest, f, q) by {
        assert forall i :: 0 <= i < |rest| ==> rest[i] == freqs[i + 1];
      }
      MaskedWriteIsPointwise(exp, rest, f, a, q);
      var r := Scatter(Mask(freqs, f, q), Resonances(exp, inside, f, a, q));
      var inner := Compress(rest, Mask(rest, f, q));
      if InWindow(freqs[0], f, q) {
        assert inside == [freqs[0]] + inner;
        assert Resonances(exp, inside, f, a, q) == [Resonance(exp, freqs[0], f, a, q)] + Resonances(exp, inner, f, a, q);
      } else {
        assert inside == inner;
      }
      assert r[1..] == Scatter(Mask(rest, f, q), Resonances(exp, inner, f, a, q));
      assert forall i :: 1 <= i < |freqs| ==> r[i] == r[1..][i - 1] && freqs[i] == rest[i - 1];
    }
  }

  /** `exp` maps every argument to a positive value. */
  ghost predicate PositiveExp(exp: real -> real) {
    forall t :: exp(t) > 0.0
  }

  lemma PositiveExpAt(exp: real -> real, t: real)
    requires PositiveExp(exp)
    ensures exp(t) > 0.0
  {
  }

  /** `exp` is at least 1 on non-negative arguments, as the exponential is. */
  ghost predicate GrowingExp(exp: real -> real) {
    forall t :: t >= 0.0 ==> exp(t) >= 1.0
  }

  /** Inside the window the exponent is never negative, so with an exponential that
      is at least 1 there the clip saturates and the weight is exactly 1 at every
      in-window point, the edges included. */
  lemma WeightSaturates(exp: real -> real, x: real, f: real, q: real)
    requires GrowingExp(exp)
    requires InWindow(x, f, q) && x != 0.0
    ensures HalfWidth(f, q) > 0.0
    ensures Weight(exp, x, f, HalfWidth(f, q)) == 1.0
  {
    WindowIsPositive(x, f, q);
    var df := HalfWidth(f, q);
    assert Abs(x - f) <= df;
    NonnegativeQuotient(-(Abs(x - f) - df), df, -(Abs(x - f) - df) / df);
  }

  /** Hence an in-window value is the bare resonance term `a f^2 / q^2 / (x^2 (x^2 - f^2)^2)`. */
  lemma ResonanceIsBare(exp: real -> real, x: real, f: real, a: real, q: real)
    requires GrowingExp(exp)
    requires InWindow(x, f, q) && x != 0.0 && x != f && q != 0.0
    ensures Denominator(x, f) > 0.0
    ensures Resonance(exp, x, f, a, q) == Strength(f, a, q) / Denominator(x, f)
  {
    DenominatorPositive(x, f, q);
    WeightSaturates(exp, x, f, q);
  }

  /** With a positive exponential and a non-negative amplitude every in-window value
      is non-negative. */
  lemma ResonanceNonnegative(exp: real -> real, x: real, f: real, a: real, q: real)
    requires PositiveExp(exp) && a >= 0.0
    requires InWindow(x, f, q) && x != 0.0 && x != f && q != 0.0
    ensures Resonance(exp, x, f, a, q) >= 0.0
  {
    WindowIsPositive(x, f, q);
    var df := HalfWidth(f, q);
    var z := Weight(exp, x, f, df);
    PositiveExpAt(exp, -(Abs(x - f) - df) / df);
    StrengthNonnegative(f, a, q);
    NonnegativeProduct(z, Strength(f, a, q), z * Strength(f, a, q));
    DenominatorPositive(x, f, q);
    NonnegativeQuotient(z * Strength(f, a, q), Denominator(x, f), Resonance(exp, x, f, a, q));
  }

  /** The model at any grid point is non-negative under the same hypotheses. */
  lemma LineNonnegative(exp: real -> real, freqs: seq<real>, f: real, a: real, q: real)
    requires PositiveExp(exp) && a >= 0.0
    requires Regular(freqs, f, q)
    ensures forall i :: 0 <= i < |freqs| ==> LineVector(exp, freqs, f, a, q)[i] >= 0.0
  {
    forall i | 0 <= i < |freqs| && InWindow(freqs[i], f, q)
      ensures Resonance(exp, freqs[i], f, a, q) >= 0.0
    {
      ResonanceNonnegative(exp, freqs[i], f, a, q);
    }
  }

  /** A line at 100 Hz with quality 100 has half-width 2, so its window is [98, 102]:
      a 200 Hz grid point gets exactly 0, and a grid point at exactly 100 Hz makes the
      formula divide by zero. */
  lemma HundredHertzLine(exp: real -> real)
    ensures Spread(100.0) == 50.0 && HalfWidth(100.0, 100.0) == 2.0
    ensures InWindow(98.0, 100.0, 100.0) && InWindow(102.0, 100.0, 100.0)
    ensures !InWindow(97.9, 100.0, 100.0) && !InWindow(102.1, 100.0, 100.0)
    ensures !Regular([100.0, 200.0], 100.0, 100.0)
    ensures Regular([99.0, 200.0], 100.0, 100.0) && LineVector(exp, [99.0, 200.0], 100.0, 1.0, 100.0)[1] == 0.0
  {
    assert InWindow([100.0, 200.0][0], 100.0, 100.0);
  }
}
