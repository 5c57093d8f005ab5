/** Integer powers of a real base greater than one, the exact counterpart of exp(i * log_gamma). */
module Powers {

  function PowN(g: real, n: nat): real {
    if n == 0 then 1.0 else g * PowN(g, n - 1)
  }

  lemma {:induction false} PowNPositive(g: real, n: nat)
    requires g > 0.0
    ensures PowN(g, n) > 0.0
  {
    if n > 0 {
      PowNPositive(g, n - 1);
    }
  }

  /** gamma^i for any integer i. */
  function Pow(g: real, i: int): (r: real)
    requires g > 0.0
    ensures r > 0.0
  {
    PowNPositive(g, if i >= 0 then i else -i);
    if i >= 0 then PowN(g, i) else 1.0 / PowN(g, -i)
  }

  lemma ScaleLess(c: real, x: real, y: real)
    requires c > 0.0 && x < y
    ensures c * x < c * y
  {
  }

  lemma ScaleAtMost(c: real, x: real, y: real)
    requires c >= 0.0 && x <= y
    ensures c * x <= c * y
  {
  }

  lemma DivMul(a: real, b: real)
    requires a != 0.0 && b != 0.0
    ensures a * (1.0 / (a * b)) == 1.0 / b
  {
    assert a * b != 0.0;
    calc {
      a * (1.0 / (a * b));
    ==
      a / (a * b);
    ==
      1.0 / b;
    }
  }

  lemma PowStep(g: real, i: int)
    requires g > 0.0
    ensures Pow(g, i + 1) == g * Pow(g, i)
  {
    if i < 0 {
      PowNPositive(g, -i - 1);
      assert PowN(g, -i) == g * PowN(g, -i - 1);
      DivMul(g, PowN(g, -i - 1));
    }
  }

  lemma PowGrows(g: real, i: int)
    requires g > 1.0
    ensures Pow(g, i) < Pow(g, i + 1)
  {
    var p := Pow(g, i);
    PowStep(g, i);
    ScaleLess(p, 1.0, g);
    assert p * 1.0 == p && p * g == g * p;
  }

  lemma {:induction false} PowIncreasing(g: real, i: int, j: int)
    requires g > 1.0 && i < j
    ensures Pow(g, i) < Pow(g, j)
    decreases j - i
  {
    if i < j - 1 {
      PowIncreasing(g, i, j - 1);
    }
    PowGrows(g, j - 1);
  }

  lemma PowMonotone(g: real, i: int, j: int)
    requires g > 1.0 && i <= j
    ensures Pow(g, i) <= Pow(g, j)
  {
    if i < j {
      PowIncreasing(g, i, j);
    }
  }

  lemma SquareAboveOne(g: real)
    requires g > 1.0
    ensures g * g > g > 1.0
  {
  }

  lemma {:induction false} PowNOfSquare(g: real, n: nat)
    ensures PowN(g * g, n) == PowN(g, 2 * n)
  {
    if n > 0 {
      PowNOfSquare(g, n - 1);
      assert PowN(g, 2 * n) == g * PowN(g, 2 * n - 1) == g * (g * PowN(g, 2 * n - 2));
    }
  }

  /** Squaring the base doubles the exponent: the algebra behind the uniform collapse. */
  lemma PowOfSquare(g: real, i: int)
    requires g > 1.0
    ensures g * g > 1.0
    ensures Pow(g * g, i) == Pow(g, 2 * i)
  {
    SquareAboveOne(g);
    PowNOfSquare(g, if i >= 0 then i else -i);
  }

  lemma BernoulliStep(d: real, p: real, m: real)
    requires d > 0.0 && m >= 1.0 && p >= 1.0 + d * (m - 1.0)
    ensures (1.0 + d) * p >= 1.0 + d * m
  {
    ScaleAtMost(d, 0.0, m - 1.0);
    ScaleAtMost(d, 1.0, p);
    Distribute(d, m, 1.0);
    assert (1.0 + d) * p == p + d * p;
  }

  lemma Distribute(d: real, x: real, y: real)
    ensures d * (x - y) == d * x - d * y
  {
  }

  /** Bernoulli's inequality, d being g - 1. */
  lemma {:induction false} Bernoulli(g: real, n: nat, d: real)
    requires g > 1.0 && g == 1.0 + d
    ensures PowN(g, n) >= 1.0 + d * n as real
  {
    if n > 0 {
      Bernoulli(g, n - 1, d);
      assert (n - 1) as real == n as real - 1.0;
      BernoulliStep(d, PowN(g, n - 1), n as real);
    }
  }

  lemma AboveQuotient(d: real, y: real, n: int)
    requires d > 0.0 && y >= 0.0 && n == (y / d).Floor + 1
    ensures n > 0 && d * n as real > y
  {
    var q := y / d;
    assert d * q == y;
    assert q >= 0.0;
    assert q < n as real;
    ScaleLess(d, q, n as real);
  }

  /** An exponent that lifts g above x. */
  function Exceeding(g: real, x: real): (n: nat)
    requires g > 1.0
    ensures PowN(g, n) > x
  {
    if x < 1.0 then
      0
    else
      var n := ((x - 1.0) / (g - 1.0)).Floor + 1;
      AboveQuotient(g - 1.0, x - 1.0, n);
      Bernoulli(g, n, g - 1.0);
      n
  }
}
