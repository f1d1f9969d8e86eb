/** Datatypes and arithmetic shared by the modules of this project. */
module Common {
  datatype Option<+T> = None | Some(value: T)

  datatype Result<+T, +E> = Ok(value: T) | Err(error: E)

  function Min(a: int, b: int): (m: int)
    ensures m <= a && m <= b && (m == a || m == b)
  {
    if a <= b then a else b
  }


  function Max(a: int, b: int): (m: int)
    ensures m >= a && m >= b && (m == a || m == b)
  {
    if a <= b then b else a
  }

  /** Adding a new element raises the cardinality of a set by one. */
  lemma InsertGrows<T>(s: set<T>, x: T)
    requires x !in s
    ensures |s + {x}| == |s| + 1
  {
  }

  lemma MultipleIsFar(x: int, d: int)
    requires d >= 0
    ensures x >= 1 ==> x * d >= d
    ensures x <= -1 ==> x * d <= -d
  {
    if x >= 1 {
      assert x * d == d + (x - 1) * d;
    } else if x <= -1 {
      assert x * d == -d + (x + 1) * d;
    }
  }

  lemma DivModUnique(n: nat, d: nat, q: int, r: nat)
    requires n == q * d + r && r < d
    ensures n / d == q && n % d == r
  {
    assert (q - n / d) * d == n % d - r;
    MultipleIsFar(q - n / d, d);
  }

  lemma DivModShift(n: nat, d: nat)
    requires n >= d >= 1
    ensures n / d == (n - d) / d + 1 && n % d == (n - d) % d
  {
    var m := n - d;
    assert (m / d + 1) * d == m / d * d + d;
    DivModUnique(n, d, m / d + 1, m % d);
  }

  /** The remainder of a sum, from the remainder of one part. */
  lemma ModOfSum(t: nat, k: nat, d: nat)
    requires d >= 1
    ensures (t + k) % d == (t % d + k) % d
    ensures t % d + k < d ==> (t + k) % d == t % d + k && (t + k) / d == t / d
    ensures t % d + k >= d ==> (t + k) % d < k
  {
    var s := t % d + k;
    assert t + k == (t / d + s / d) * d + s % d by { assert (t / d + s / d) * d == t / d * d + s / d * d; }
    DivModUnique(t + k, d, t / d + s / d, s % d);
    if s >= d {
      DivModShift(s, d);
      ModSmall(s - d, d);
    } else {
      ModSmall(s, d);
    }
  }

  lemma ModSmall(n: nat, d: nat)
    requires d >= 1
    ensures n % d <= n && n / d >= 0
    ensures n < d ==> n % d == n && n / d == 0
  {
    if n < d {
      DivModUnique(n, d, 0, n);
    }
  }

  lemma MulMonotone(a: nat, b: nat, d: nat)
    requires a <= b
    ensures a * d <= b * d
  {
    assert b * d == a * d + (b - a) * d;
    MultipleIsFar(b - a, d);
  }

  lemma PositiveFactors(p: nat, d: nat)
    ensures p * d > 0 <==> p > 0 && d > 0
  {
    if p > 0 {
      MultipleIsFar(p, d);
    }
  }

  lemma QuotientBelow(i: nat, p: nat, d: nat)
    requires d > 0 && i < p * d
    ensures i / d < p
  {
    if p <= i / d {
      MulMonotone(p, i / d, d);
    }
  }

  lemma FlatBelow(q: nat, r: nat, p: nat, d: nat)
    requires q < p && r < d
    ensures q * d + r < p * d
  {
    MulMonotone(q + 1, p, d);
    assert (q + 1) * d == q * d + d;
  }

  lemma DivMonotone(i: nat, j: nat, d: nat)
    requires i < j && d > 0
    ensures i / d < j / d || (i / d == j / d && i % d < j % d)
  {
    if j / d < i / d {
      MulMonotone(j / d + 1, i / d, d);
    }
  }

  lemma DivTwice(n: nat, a: nat, b: nat)
    requires a > 0 && b > 0
    ensures a * b > 0 && n / (a * b) == n / a / b
  {
    var q := n / a / b;
    var r := n % a + a * (n / a % b);
    assert n / a == b * q + n / a % b;
    assert n == a * (n / a) + n % a;
    assert a * (b * q + n / a % b) == a * b * q + a * (n / a % b);
    assert a * (n / a % b) + a <= a * b by { MulMonotone(n / a % b + 1, b, a); }
    assert a * b > 0 by { MulMonotone(1, b, a); }
    assert q * (a * b) == a * b * q;
    DivModUnique(n, a * b, q, r);
  }

  /** A product by name, so that proofs can leave it folded. */
  function Mul(a: nat, b: nat): nat { a * b }

  lemma MulSucc(n: nat, u: nat)
    ensures Mul(n + 1, u) == Mul(n, u) + u
  {
  }

  lemma MulZero(u: nat)
    ensures Mul(0, u) == 0
  {
  }

  lemma MulFits(r: nat, n: nat, u: nat)
    requires r < n
    ensures Mul(r, u) + u <= Mul(n, u)
  {
    MulMonotone(r + 1, n, u);
    MulSucc(r, u);
  }

  lemma MulAssociative(a: nat, b: nat, c: nat)
    ensures a * b * c == a * (b * c)
  {
  }
}
