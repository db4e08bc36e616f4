// Laws of products, so that other proofs need no nonlinear search.

module Arithmetic {
  lemma Distribute(a: int, b: int, c: int)
    ensures a * (b + c) == a * b + a * c
  {
  }

  lemma Monotone(a: int, b: int, c: int)
    requires a >= 0 && b <= c
    ensures a * b <= a * c
  {
    Distribute(a, b, c - b);
    NonNegative(a, c - b);
  }

  lemma NonNegative(a: int, b: int)
    requires a >= 0 && b >= 0
    ensures a * b >= 0
  {
  }

  /** Multiples of a width are a width apart. */
  lemma Apart(width: int, i: int, j: int)
    requires width > 0
    ensures i < j <==> width * i < width * j
    ensures i < j ==> width * i + width <= width * j
  {
    if i < j {
      Monotone(width, i + 1, j);
      Distribute(width, i, 1);
    } else {
      Monotone(width, j, i);
    }
  }

  lemma Quotient(width: nat, q: int, r: nat, x: int)
    requires r < width && x == width * q + r
    ensures x / width == q && x % width == r
  {
    var p := x / width;
    if p < q {
      Apart(width, p, q);
    } else if q < p {
      Apart(width, q, p);
    }
  }

  // ---------------------------------------------------------------- real factors

  lemma ScaleNext(x: real, n: nat)
    ensures x * (n + 1) as real == x * n as real + x
  {
    assert (n + 1) as real == n as real + 1.0;
  }

  lemma Scale(x: real, y: real, n: real)
    requires n > 0.0 && x <= y
    ensures x * n <= y * n
  {
    assert (y - x) * n >= 0.0;
  }

  lemma Unscale(x: real, y: real, n: real)
    requires n > 0.0 && x * n <= y * n
    ensures x <= y
  {
    assert y < x ==> (x - y) * n > 0.0;
  }
}
