/** Bitwise "and" on unsigned numbers, and what masks of the form `n - 1` compute with it. */
module Bits {

  function And(a: nat, b: nat): nat {
    if a == 0 || b == 0 then 0 else 2 * And(a / 2, b / 2) + (a % 2) * (b % 2)
  }

  predicate IsPowerOfTwo(n: nat) {
    n == 1 || (n > 1 && n % 2 == 0 && IsPowerOfTwo(n / 2))
  }

  /** The largest power of two dividing `n`: what is left of `n` is odd. */
  function TwoPart(n: nat): (t: nat)
    requires n >= 1
    ensures 1 <= t <= n && IsPowerOfTwo(t) && n % t == 0 && (n / t) % 2 == 1
  {
    if n % 2 == 1 then 1
    else
      var t := TwoPart(n / 2);
      DoubleDivides(n / 2, t);
      2 * t
  }

  lemma {:induction false} DoubleDivides(m: nat, t: nat)
    requires t >= 1 && m % t == 0
    ensures (2 * m) % (2 * t) == 0 && (2 * m) / (2 * t) == m / t
  {
    assert m == t * (m / t);
    assert 2 * m == (2 * t) * (m / t);
    ModUnique(2 * m, 2 * t, m / t, 0);
  }

  lemma {:induction false} Multiples(n: int, d: int)
    requires n > 0
    ensures d >= 1 ==> n * d >= n
    ensures d <= -1 ==> n * d <= -n
  {
  }

  lemma {:induction false} Distribute(n: int, a: int, b: int)
    ensures n * (a - b) == n * a - n * b
  {
  }

  lemma {:induction false} NextMultiple(n: int, q: int)
    ensures n * (q + 1) == n * q + n
  {
  }

  lemma {:induction false} ModUnique(x: int, n: int, q: int, r: int)
    requires n > 0 && x == n * q + r && 0 <= r < n
    ensures x % n == r && x / n == q
  {
    var q', r' := x / n, x % n;
    var p, p' := n * q, n * q';
    assert x == p + r && x == p' + r';
    Distribute(n, q, q');
    Multiples(n, q - q');
  }

  /** One bit at a time: `x % (2 * n)` from `(x / 2) % n`. */
  lemma {:induction false} ModDouble(x: nat, n: nat)
    requires n >= 1
    ensures x % (2 * n) == 2 * ((x / 2) % n) + x % 2
  {
    var q, r := (x / 2) / n, (x / 2) % n;
    assert x / 2 == n * q + r;
    assert x == (2 * n) * q + (2 * r + x % 2) by {
      assert x == 2 * (x / 2) + x % 2;
      assert 2 * (n * q) == (2 * n) * q;
    }
    ModUnique(x, 2 * n, q, 2 * r + x % 2);
  }

  /** A mask of `n - 1` is the remainder by `n` when `n` is a power of two. */
  lemma {:induction false} MaskPower(x: nat, n: nat)
    requires IsPowerOfTwo(n)
    ensures And(x, n - 1) == x % n
    decreases n
  {
    if n > 1 {
      assert (n - 1) / 2 == n / 2 - 1 && (n - 1) % 2 == 1;
      MaskPower(x / 2, n / 2);
      ModDouble(x, n / 2);
    }
  }

  /**
   For any other `n` the mask counts modulo the largest power of two dividing `n`, as long as the
   count never exceeds it.
   */
  lemma {:induction false} MaskCounts(x: nat, n: nat)
    requires n >= 1 && x <= TwoPart(n)
    ensures And(x, n - 1) == x % TwoPart(n)
    decreases n
  {
    if n % 2 == 1 {
      assert x <= 1;
      assert n > 1 ==> (n - 1) % 2 == 0;
    } else {
      assert (n - 1) / 2 == n / 2 - 1 && (n - 1) % 2 == 1;
      MaskCounts(x / 2, n / 2);
      ModDouble(x, TwoPart(n / 2));
    }
  }

  function Or(a: nat, b: nat): nat {
    if a == 0 then b else if b == 0 then a
    else 2 * Or(a / 2, b / 2) + if a % 2 == 1 || b % 2 == 1 then 1 else 0
  }

  /** Shifting by five and or-ing in a number below 32 appends a digit in base 32. */
  lemma {:induction false} OrAdds(a: nat, b: nat)
    requires b < 32
    ensures Or(32 * a, b) == 32 * a + b
  {
    var b1 := b / 2;
    var b2 := b1 / 2;
    var b3 := b2 / 2;
    var b4 := b3 / 2;
    assert b4 < 2;
    OrAppends(a, b4);
    OrAppends(2 * a, b3);
    OrAppends(4 * a, b2);
    OrAppends(8 * a, b1);
    OrAppends(16 * a, b);
  }

  /** One step of it: a double `a` leaves room for one more bit of `b`. */
  lemma {:induction false} OrAppends(a: nat, b: nat)
    requires Or(a, b / 2) == a + b / 2
    ensures Or(2 * a, b) == 2 * a + b
  {
  }

  /** No larger power of two divides `n`. */
  lemma {:induction false} TwoPartIsLargest(n: nat, p: nat)
    requires n >= 1 && IsPowerOfTwo(p) && n % p == 0
    ensures p <= TwoPart(n) && TwoPart(n) % p == 0
    decreases n
  {
    if p > 1 {
      HalfDivides(n, p);
      TwoPartIsLargest(n / 2, p / 2);
      DoubleDivides(TwoPart(n / 2), p / 2);
    }
  }

  lemma {:induction false} HalfDivides(n: nat, p: nat)
    requires n >= 1 && p > 1 && p % 2 == 0 && n % p == 0
    ensures n % 2 == 0 && (n / 2) % (p / 2) == 0
  {
    var h, q := p / 2, n / p;
    assert n == p * q && p == 2 * h;
    assert n == 2 * (h * q);
    ModUnique(n / 2, h, q, 0);
  }
}
