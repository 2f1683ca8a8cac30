/** The smaller and the larger of two numbers, and rounding up. */
module Naturals {
  function Min(a: nat, b: nat): nat {
    if a <= b then a else b
  }

  function Max(a: nat, b: nat): nat {
    if a >= b then a else b
  }
}

module Reals {
  function Min(a: real, b: real): real {
    if a <= b then a else b
  }

  function Max(a: real, b: real): real {
    if a >= b then a else b
  }

  function Ceil(x: real): (n: int)
    ensures x <= n as real < x + 1.0
  {
    -((-x).Floor)
  }

  /** The sum of `n` equal summands. */
  ghost function Sum(n: nat, x: real): real {
    if n == 0 then 0.0 else Sum(n - 1, x) + x
  }

  lemma {:induction false} SumIsProduct(n: nat, x: real)
    ensures Sum(n, x) == n as real * x
  {
    if n > 0 {
      SumIsProduct(n - 1, x);
      assert n as real * x == (n - 1) as real * x + x;
    }
  }

  lemma {:induction false} SumGrows(m: nat, n: nat, x: real)
    requires m <= n && x >= 0.0
    ensures Sum(m, x) <= Sum(n, x)
    decreases n
  {
    if m < n {
      SumGrows(m, n - 1, x);
    }
  }

  lemma {:induction false} SumAdds(n: nat, x: real, y: real)
    ensures Sum(n, x + y) == Sum(n, x) + Sum(n, y)
  {
    if n > 0 {
      SumAdds(n - 1, x, y);
    }
  }

  /** Equal steps, however small, get past any bound. */
  lemma {:induction false} Archimedes(x: real, e: real) returns (n: nat)
    requires e > 0.0
    ensures n >= 1 && Sum(n, e) > x
  {
    if x < 0.0 {
      n := 1;
    } else {
      var q := x / e;
      assert q >= 0.0 && q * e == x;
      n := q.Floor + 1;
      var d := n as real - q;
      assert d > 0.0 && d * e > 0.0;
      assert n as real * e == q * e + d * e;
      SumIsProduct(n, e);
    }
  }

  /** A length divided into equal parts, each shorter than a bound. */
  lemma {:induction false} Parts(length: real, bound: real) returns (n: nat, part: real)
    requires length >= 0.0 && bound > 0.0
    ensures n >= 1 && 0.0 <= part < bound && Sum(n, part) == length
  {
    n := Archimedes(length, bound);
    SumIsProduct(n, bound);
    part := length / n as real;
    assert part * n as real == length;
    SumIsProduct(n, part);
    var d := bound - part;
    assert d * n as real == bound * n as real - length > 0.0;
  }
}
