/**
  The square root and the normalisation of embedding vectors, over reals: twelve Newton steps from the value
  itself, and what that makes of the promise of unit length.
 */
module NewtonRoot {

  /** Newton's iteration for the square root, started at the value. */
  function Newton(v: real, steps: nat): (x: real)
    requires v > 0.0
    ensures x > 0.0
  {
    if steps == 0 then v
    else
      var x := Newton(v, steps - 1);
      StepPositive(v, x);
      0.5 * (x + v / x)
  }

  lemma StepPositive(v: real, x: real)
    requires v > 0.0 && x > 0.0
    ensures v / x > 0.0
  {
    var q := v / x;
    assert q * x == v && (-q) * x == -v;
    if q <= 0.0 {
      Product(-q, x);
    }
  }

  lemma Product(a: real, b: real)
    requires a >= 0.0 && b >= 0.0
    ensures a * b >= 0.0
  {}

  function Square(x: real): real {
    x * x
  }

  /** How far the square of an iterate exceeds the value. */
  function Excess(v: real, steps: nat): real
    requires v > 0.0
  {
    Square(Newton(v, steps)) - v
  }

  function Pow4(k: nat): (p: real)
    ensures p >= 1.0
  {
    if k == 0 then 1.0 else 4.0 * Pow4(k - 1)
  }

  method Sqrt(v: real) returns (x: real)
    ensures v <= 0.0 ==> x == 0.0
    ensures v > 0.0 ==> x == Newton(v, 12)
    ensures v > 0.0 ==> x > 0.0 && 0.0 <= x * x - v && Pow4(12) * (x * x - v) <= Square(v - 1.0)
  {
    if v <= 0.0 {
      return 0.0;
    }
    x := v;
    for i := 0 to 12
      invariant x > 0.0 && x == Newton(v, i)
    {
      StepPositive(v, x);
      x := 0.5 * (x + v / x);
    }
    ExcessBound(v, 12);
  }

  // ---------------------------------------------------------------- accuracy

  /** One step: the new excess is a square over the old square, so never negative. */
  lemma StepExcess(v: real, x: real, q: real)
    requires x > 0.0 && q * x == v
    ensures var y := 0.5 * (x + q); Square(y) - v == 0.25 * Square(x - q)
  {
    var y := 0.5 * (x + q);
    assert Square(x + q) == x * x + 2.0 * (q * x) + q * q;
    assert Square(x - q) == x * x - 2.0 * (q * x) + q * q;
    assert Square(y) == 0.25 * Square(x + q);
  }

  lemma GapExcess(v: real, x: real, q: real)
    requires x > 0.0 && q * x == v
    ensures (x - q) * x == Square(x) - v
  {}

  lemma SquareNonNegative(x: real)
    ensures Square(x) >= 0.0
  {}

  lemma SquareOfProduct(a: real, b: real)
    ensures Square(a * b) == Square(a) * Square(b)
  {
    assert (a * b) * (a * b) == (a * a) * (b * b);
  }

  lemma Cancel(a: real, b: real, c: real)
    requires c > 0.0 && a * c <= b * c
    ensures a <= b
  {
    assert (a - b) * c == a * c - b * c;
    if a > b {
      Positive(a - b, c);
    }
  }

  lemma Positive(a: real, b: real)
    requires a > 0.0 && b > 0.0
    ensures a * b > 0.0
  {}

  /** From above the root a step leaves at most a quarter of the excess. */
  lemma StepQuarters(v: real, x: real, q: real)
    requires v > 0.0 && x > 0.0 && q * x == v && Square(x) >= v
    ensures var y := 0.5 * (x + q); 4.0 * (Square(y) - v) <= Square(x) - v
  {
    var e := Square(x) - v;
    StepExcess(v, x, q);
    GapExcess(v, x, q);
    SquareOfProduct(x - q, x);
    assert Square(x - q) * Square(x) == Square(e);
    Product(e, v);
    assert e * Square(x) == e * (e + v) == e * e + e * v;
    assert Square(x - q) * Square(x) <= e * Square(x);
    Positive(x, x);
    Cancel(Square(x - q), e, Square(x));
  }

  lemma ExcessNonNegative(v: real, steps: nat)
    requires v > 0.0 && steps > 0
    ensures Excess(v, steps) >= 0.0
  {
    var x := Newton(v, steps - 1);
    StepExcess(v, x, v / x);
    SquareNonNegative(x - v / x);
  }

  /** The first step takes the mean of the value and one. */
  lemma FirstExcess(v: real)
    requires v > 0.0
    ensures Excess(v, 1) == 0.25 * Square(v - 1.0)
  {
    assert Newton(v, 0) == v && v / v == 1.0;
    StepExcess(v, v, 1.0);
  }

  /** After k steps the square exceeds the value by at most (v - 1)^2 / 4^k. */
  lemma {:induction false} ExcessBound(v: real, steps: nat)
    requires v > 0.0 && steps > 0
    ensures 0.0 <= Excess(v, steps) && Pow4(steps) * Excess(v, steps) <= Square(v - 1.0)
  {
    ExcessNonNegative(v, steps);
    if steps == 1 {
      FirstExcess(v);
      assert Pow4(1) == 4.0 * Pow4(0) == 4.0;
    } else {
      ExcessBound(v, steps - 1);
      var x := Newton(v, steps - 1);
      StepQuarters(v, x, v / x);
      ScaledBound(Pow4(steps - 1), Excess(v, steps), Excess(v, steps - 1));
    }
  }

  lemma ScaledBound(p: real, e: real, d: real)
    requires p >= 0.0 && 4.0 * e <= d
    ensures 4.0 * p * e <= p * d
  {
    Product(p, d - 4.0 * e);
    assert p * (d - 4.0 * e) == p * d - 4.0 * p * e;
  }

  /** Newton's method never arrives, unless it starts there. */
  lemma {:induction false} ExactIffOne(v: real, steps: nat)
    requires v > 0.0 && steps > 0
    ensures Excess(v, steps) == 0.0 <==> v == 1.0
  {
    if steps == 1 {
      FirstExcess(v);
      ZeroSquare(v - 1.0);
    } else {
      ExactIffOne(v, steps - 1);
      var x := Newton(v, steps - 1);
      var gap := x - v / x;
      StepExcess(v, x, v / x);
      GapExcess(v, x, v / x);
      ZeroSquare(gap);
      ZeroProduct(gap, x);
    }
  }

  lemma ZeroSquare(a: real)
    ensures Square(a) == 0.0 <==> a == 0.0
  {
    ZeroProduct(a, a);
  }

  lemma ZeroProduct(a: real, b: real)
    ensures a * b == 0.0 <==> a == 0.0 || b == 0.0
  {
    if a > 0.0 && b > 0.0 {
      Positive(a, b);
    } else if a > 0.0 && b < 0.0 {
      Positive(a, -b);
      assert a * (-b) == -(a * b);
    } else if a < 0.0 && b > 0.0 {
      Positive(-a, b);
      assert (-a) * b == -(a * b);
    } else if a < 0.0 && b < 0.0 {
      Positive(-a, -b);
      assert (-a) * (-b) == a * b;
    }
  }

  // ---------------------------------------------------------------- vectors

  function SumOfSquares(s: seq<real>): (r: real)
    ensures r >= 0.0
  {
    if |s| == 0 then 0.0
    else
      SquareNonNegative(s[|s| - 1]);
      SumOfSquares(s[..|s| - 1]) + Square(s[|s| - 1])
  }

  function Scaled(s: seq<real>, c: real): (r: seq<real>)
    ensures |r| == |s|
  {
    seq(|s|, i requires 0 <= i < |s| => s[i] * c)
  }

  function Normalized(s: seq<real>): seq<real> {
    var sum := SumOfSquares(s);
    if sum == 0.0 then s else Scaled(s, 1.0 / Newton(sum, 12))
  }

  lemma SumStep(s: seq<real>, i: nat)
    requires i < |s|
    ensures SumOfSquares(s[..i + 1]) == SumOfSquares(s[..i]) + s[i] * s[i]
  {
    assert s[..i + 1][..i] == s[..i];
  }

  method Normalize(vec: array<real>)
    modifies vec
    ensures vec[..] == Normalized(old(vec[..]))
  {
    ghost var was := vec[..];
    var sum := 0.0;
    for i := 0 to vec.Length
      invariant vec[..] == was && sum == SumOfSquares(was[..i])
    {
      SumStep(was, i);
      sum := sum + vec[i] * vec[i];
    }
    assert was[..vec.Length] == was;
    if sum == 0.0 {
      return;
    }
    var root := Sqrt(sum);
    Scale(vec, 1.0 / root);
  }

  method Scale(vec: array<real>, norm: real)
    modifies vec
    ensures vec[..] == Scaled(old(vec[..]), norm)
  {
    for i := 0 to vec.Length
      invariant forall k :: 0 <= k < i ==> vec[k] == old(vec[k]) * norm
      invariant forall k :: i <= k < vec.Length ==> vec[k] == old(vec[k])
    {
      vec[i] := vec[i] * norm;
    }
    forall k | 0 <= k < vec.Length
      ensures vec[..][k] == Scaled(old(vec[..]), norm)[k]
    {
      assert vec[k] == old(vec[k]) * norm;
    }
  }

  lemma {:induction false} ScaledSquares(s: seq<real>, c: real)
    ensures SumOfSquares(Scaled(s, c)) == Square(c) * SumOfSquares(s)
  {
    if |s| == 0 {
      ZeroProduct(Square(c), 0.0);
    } else {
      var n := |s| - 1;
      ScaledPrefix(s, c, n);
      ScaledSquares(s[..n], c);
      assert Scaled(s, c)[n] == s[n] * c;
      SumStep(Scaled(s, c), n);
      SumStep(s, n);
      assert s[..n + 1] == s && Scaled(s, c)[..n + 1] == Scaled(s, c);
      AddScaled(SumOfSquares(s[..n]), s[n], c);
    }
  }

  lemma ScaledPrefix(s: seq<real>, c: real, n: nat)
    requires n <= |s|
    ensures Scaled(s, c)[..n] == Scaled(s[..n], c)
  {
    forall i | 0 <= i < n
      ensures Scaled(s, c)[..n][i] == Scaled(s[..n], c)[i]
    {
      assert s[..n][i] == s[i];
    }
  }

  lemma AddScaled(part: real, a: real, c: real)
    ensures Square(c) * part + Square(a * c) == Square(c) * (part + Square(a))
  {
    SquareOfProduct(a, c);
    Distribute(Square(c), part, Square(a));
  }

  lemma Distribute(a: real, b: real, c: real)
    ensures a * (b + c) == a * b + c * a
  {}

  lemma {:induction false} ZeroVectorIff(s: seq<real>)
    ensures SumOfSquares(s) == 0.0 <==> forall i :: 0 <= i < |s| ==> s[i] == 0.0
  {
    if |s| > 0 {
      var n := |s| - 1;
      ZeroVectorIff(s[..n]);
      ZeroSquare(s[n]);
      SquareNonNegative(s[n]);
      assert forall i :: 0 <= i < n ==> s[..n][i] == s[i];
    }
  }

  /** The squared norm of a normalised vector is the sum over the square of the computed root. */
  lemma NormalizedSquares(s: seq<real>)
    requires SumOfSquares(s) > 0.0
    ensures var x := Newton(SumOfSquares(s), 12); SumOfSquares(Normalized(s)) * Square(x) == SumOfSquares(s)
  {
    var sum := SumOfSquares(s);
    var x := Newton(sum, 12);
    var c := 1.0 / x;
    ScaledSquares(s, c);
    assert c * x == 1.0;
    SquareOfProduct(c, x);
    InverseScale(Square(c), Square(x), sum);
  }

  lemma InverseScale(c: real, x: real, sum: real)
    requires c * x == 1.0
    ensures (c * sum) * x == sum
  {
    assert (c * sum) * x == (c * x) * sum;
  }

  /** A non-zero vector keeps its direction: it is scaled by a positive factor. */
  lemma DirectionKept(s: seq<real>)
    requires exists i :: 0 <= i < |s| && s[i] != 0.0
    ensures SumOfSquares(s) > 0.0
    ensures var c := 1.0 / Newton(SumOfSquares(s), 12);
            c > 0.0 && |Normalized(s)| == |s| && forall i :: 0 <= i < |s| ==> Normalized(s)[i] == s[i] * c
  {
    ZeroVectorIff(s);
    StepPositive(1.0, Newton(SumOfSquares(s), 12));
  }

  /** Normalised vectors are at most of unit length, and short of it by at most (sum - 1)^2 / 4^12 over the sum. */
  lemma NormBounds(s: seq<real>)
    requires SumOfSquares(s) > 0.0
    ensures var sum, r := SumOfSquares(s), SumOfSquares(Normalized(s));
            r <= 1.0 && Pow4(12) * (sum * (1.0 - r)) <= Square(sum - 1.0)
  {
    var sum := SumOfSquares(s);
    NormalizedSquares(s);
    ExcessBound(sum, 12);
    var r := SumOfSquares(Normalized(s));
    BelowOne(sum, r, Square(Newton(sum, 12)));
    Product(Pow4(12), Excess(sum, 12) - sum * (1.0 - r));
    assert Pow4(12) * (Excess(sum, 12) - sum * (1.0 - r)) == Pow4(12) * Excess(sum, 12) - Pow4(12) * (sum * (1.0 - r));
  }

  lemma BelowOne(sum: real, r: real, xx: real)
    requires 0.0 < sum <= xx && r * xx == sum
    ensures r <= 1.0 && sum * (1.0 - r) <= xx - sum
  {
    assert 1.0 * xx == xx;
    Cancel(r, 1.0, xx);
    Product(xx - sum, 1.0 - r);
    assert xx * (1.0 - r) == xx - r * xx;
    assert (xx - sum) * (1.0 - r) == xx * (1.0 - r) - sum * (1.0 - r);
  }

  /** They are of unit length exactly when the vector was. */
  lemma UnitIff(s: seq<real>)
    requires SumOfSquares(s) > 0.0
    ensures SumOfSquares(Normalized(s)) == 1.0 <==> SumOfSquares(s) == 1.0
  {
    var sum := SumOfSquares(s);
    NormalizedSquares(s);
    ExactIffOne(sum, 12);
    ExactRatio(sum, SumOfSquares(Normalized(s)), Square(Newton(sum, 12)));
  }

  lemma ExactRatio(sum: real, r: real, xx: real)
    requires sum > 0.0 && r * xx == sum
    ensures r == 1.0 <==> xx == sum
  {
    assert (r - 1.0) * xx == sum - xx;
    ZeroProduct(r - 1.0, xx);
  }
}
