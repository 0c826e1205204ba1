/** Trial division: factorisation and primality. */
module Factors {

  predicate IsProduct(k: int, d: int, n: int) {
    k * d == n
  }

  ghost predicate Divides(d: int, n: int) {
    exists k :: IsProduct(k, d, n)
  }

  ghost predicate Prime(n: int) {
    2 <= n && forall d | 2 <= d < n :: !Divides(d, n)
  }

  function Product(factors: seq<int>): int {
    if factors == [] then 1 else factors[0] * Product(factors[1..])
  }

  predicate NonDecreasing(factors: seq<int>) {
    forall i, j | 0 <= i < j < |factors| :: factors[i] <= factors[j]
  }

  ghost predicate AllPrime(factors: seq<int>) {
    forall f | f in factors :: Prime(f)
  }

  /** A non-decreasing list of primes with product `n`. */
  ghost predicate Factorisation(factors: seq<int>, n: int) {
    NonDecreasing(factors) && AllPrime(factors) && Product(factors) == n
  }

  // ---------------------------------------------------------------- divisibility

  lemma MulAtLeast(a: int, b: int)
    requires 1 <= a && 0 <= b
    ensures b <= a * b
  {
    assert a * b == (a - 1) * b + b;
    assert 0 <= (a - 1) * b;
  }

  lemma DividesBounded(d: int, n: int)
    requires 1 <= d && 1 <= n && Divides(d, n)
    ensures d <= n
  {
    var k :| IsProduct(k, d, n);
    if k <= 0 {
      MulNonPositive(k, d);
    } else {
      MulAtLeast(k, d);
    }
  }

  lemma MulNonPositive(a: int, b: int)
    requires a <= 0 && 0 <= b
    ensures a * b <= 0
  {
    assert 0 <= (-a) * b;
    assert (-a) * b == -(a * b);
  }

  lemma DividesSum(d: int, a: int, b: int, m: int)
    requires Divides(d, a) && Divides(d, b)
    ensures Divides(d, a + m * b)
  {
    var j :| IsProduct(j, d, a);
    var k :| IsProduct(k, d, b);
    assert (j + m * k) * d == j * d + m * (k * d);
    assert IsProduct(j + m * k, d, a + m * b);
  }

  lemma DividesTrans(a: int, b: int, c: int)
    requires Divides(a, b) && Divides(b, c)
    ensures Divides(a, c)
  {
    var j :| IsProduct(j, a, b);
    var k :| IsProduct(k, b, c);
    assert (k * j) * a == k * (j * a);
    assert IsProduct(k * j, a, c);
  }

  lemma DividesProduct(k: int, d: int)
    ensures Divides(d, k * d) && Divides(d, d * k) && Divides(d, d) && Divides(d, 0)
  {
    assert IsProduct(k, d, k * d);
    assert IsProduct(k, d, d * k);
    assert IsProduct(1, d, d);
    assert IsProduct(0, d, 0);
  }

  /** The remainder test of the code decides divisibility. */
  lemma RemainderDecides(n: int, d: int)
    requires 1 <= d
    ensures n % d == 0 <==> Divides(d, n)
    ensures n % d == 0 ==> n / d * d == n
  {
    var q, r := n / d, n % d;
    assert n == q * d + r;
    if r == 0 {
      assert IsProduct(q, d, n);
    } else if Divides(d, n) {
      DividesProduct(q, d);
      DividesSum(d, n, q * d, -1);
      assert n + -1 * (q * d) == r;
      DividesBounded(d, r);
    }
  }

  // ---------------------------------------------------------------- uniqueness of factorisation

  /** Euclid's lemma: a prime that divides a product divides one of the factors. */
  lemma {:induction false} PrimeDividesFactor(p: int, a: int, b: int)
    requires Prime(p) && 0 <= a && Divides(p, a * b)
    ensures Divides(p, a) || Divides(p, b)
    decreases a
  {
    DividesProduct(b, p);
    if a == 0 {
    } else if a == 1 {
      assert a * b == b;
    } else if p <= a {
      DividesSum(p, a * b, p * b, -1);
      assert a * b + -1 * (p * b) == (a - p) * b;
      PrimeDividesFactor(p, a - p, b);
      if Divides(p, a - p) {
        DividesProduct(1, p);
        DividesSum(p, a - p, p, 1);
      }
    } else {
      var q, r := p / a, p % a;
      RemainderDecides(p, a);
      assert p == q * a + r;
      DividesSum(p, p * b, a * b, -q);
      Distribute(q, a, r, b);
      PrimeDividesFactor(p, r, b);
      if Divides(p, r) {
        DividesBounded(p, r);
      }
    }
  }

  lemma Distribute(q: int, a: int, r: int, b: int)
    ensures (q * a + r) * b + -q * (a * b) == r * b
  {
    assert (q * a + r) * b == q * a * b + r * b;
    assert q * a * b == q * (a * b);
  }

  lemma {:induction false} PrimeInProduct(p: int, factors: seq<int>)
    requires Prime(p) && AllPrime(factors) && Divides(p, Product(factors))
    ensures p in factors
  {
    if factors == [] {
      DividesBounded(p, 1);
    } else {
      var f := factors[0];
      assert f in factors;
      PrimeDividesFactor(p, f, Product(factors[1..]));
      if Divides(p, f) {
        DividesBounded(p, f);
      } else {
        PrimeInProduct(p, factors[1..]);
      }
    }
  }

  lemma {:induction false} ProductAtLeastOne(factors: seq<int>)
    requires AllPrime(factors)
    ensures 1 <= Product(factors) && (factors != [] ==> 2 <= Product(factors))
  {
    if factors != [] {
      ProductAtLeastOne(factors[1..]);
      assert factors[0] in factors;
      MulAtLeast(Product(factors[1..]), factors[0]);
    }
  }

  lemma FirstIsLeast(factors: seq<int>, p: int)
    requires NonDecreasing(factors) && p in factors
    ensures factors[0] <= p
  {
    var i :| 0 <= i < |factors| && factors[i] == p;
  }

  lemma HeadInOther(f: seq<int>, g: seq<int>, n: int)
    requires Factorisation(f, n) && Factorisation(g, n) && f != []
    ensures f[0] in g
  {
    assert f[0] in f;
    DividesProduct(Product(f[1..]), f[0]);
    PrimeInProduct(f[0], g);
  }

  /** The fundamental theorem: a number has at most one factorisation. */
  lemma {:induction false} FactorisationUnique(f: seq<int>, g: seq<int>, n: int)
    requires Factorisation(f, n) && Factorisation(g, n)
    ensures f == g
    decreases |f|
  {
    ProductAtLeastOne(f);
    ProductAtLeastOne(g);
    if f != [] && g != [] {
      HeadInOther(f, g, n);
      HeadInOther(g, f, n);
      FirstIsLeast(g, f[0]);
      FirstIsLeast(f, g[0]);
      var p, a, b := f[0], Product(f[1..]), Product(g[1..]);
      CancelFactor(p, a, b) by { assert p in f; }
      assert f == [p] + f[1..] && g == [p] + g[1..];
      FactorisationUnique(f[1..], g[1..], a);
    }
  }

  lemma CancelFactor(p: int, a: int, b: int)
    requires 1 <= p && p * a == p * b
    ensures a == b
  {
    if a < b {
      assert p * (b - a) == p * b - p * a;
      MulAtLeast(p, b - a);
    } else if b < a {
      assert p * (a - b) == p * a - p * b;
      MulAtLeast(p, a - b);
    }
  }

  // ---------------------------------------------------------------- trial division

  ghost predicate NoDivisorBelow(d: int, n: int) {
    forall e | 2 <= e < d :: !Divides(e, n)
  }

  /** Once `d * d` exceeds a number without divisors below `d`, the number is prime. */
  lemma PrimeWhenSquareExceeds(n: int, d: int)
    requires 2 <= n && 2 <= d && n < d * d && NoDivisorBelow(d, n)
    ensures Prime(n)
  {
    forall e | 2 <= e < n
      ensures !Divides(e, n)
    {
      if Divides(e, n) {
        var k :| IsProduct(k, e, n);
        Cofactor(k, e, n);
        assert IsProduct(e, k, n);
        assert Divides(k, n);
        if d <= k && d <= e {
          MulAtLeastBoth(k, e, d);
        }
      }
    }
  }

  lemma Cofactor(k: int, e: int, n: int)
    requires 2 <= e < n && k * e == n
    ensures 2 <= k < n
  {
    if k <= 0 {
      MulNonPositive(k, e);
    } else {
      assert k == 1 ==> k * e == e;
      assert e * k == (e - 1) * k + k;
      MulAtLeast(e - 1, k);
    }
  }

  lemma MulAtLeastBoth(a: int, b: int, d: int)
    requires 0 <= d <= a && d <= b
    ensures d * d <= a * b
  {
    assert a * b == d * d + d * (b - d) + (a - d) * b;
    assert 0 <= d * (b - d) && 0 <= (a - d) * b;
  }

  /** The least divisor is prime. */
  lemma LeastDivisorPrime(n: int, d: int)
    requires 2 <= d && NoDivisorBelow(d, n) && Divides(d, n)
    ensures Prime(d)
  {
    forall e | 2 <= e < d
      ensures !Divides(e, d)
    {
      if Divides(e, d) {
        DividesTrans(e, d, n);
      }
    }
  }

  lemma QuotientKeepsBound(n: int, m: int, d: int, bound: int)
    requires NoDivisorBelow(bound, n) && m * d == n
    ensures NoDivisorBelow(bound, m)
  {
    forall e | 2 <= e < bound
      ensures !Divides(e, m)
    {
      if Divides(e, m) {
        assert IsProduct(d, m, n);
        DividesTrans(e, m, n);
      }
    }
  }

  lemma {:induction false} ProductSnoc(factors: seq<int>, f: int)
    ensures Product(factors + [f]) == Product(factors) * f
  {
    if factors == [] {
      assert factors + [f] == [f] && [f][1..] == [];
    } else {
      assert (factors + [f])[1..] == factors[1..] + [f];
      ProductSnoc(factors[1..], f);
      assert factors[0] * (Product(factors[1..]) * f) == factors[0] * Product(factors[1..]) * f;
    }
  }

  /** What the factorisation loop keeps: found primes up to `d`, and a rest without smaller divisors. */
  ghost predicate Partial(factors: seq<int>, rest: int, d: int, n: int) {
    && 2 <= d && 1 <= rest
    && NonDecreasing(factors) && AllPrime(factors) && (forall f | f in factors :: f <= d)
    && Product(factors) * rest == n
    && NoDivisorBelow(d, rest)
  }

  lemma AppendLargest(factors: seq<int>, f: int)
    requires NonDecreasing(factors) && AllPrime(factors) && Prime(f) && forall g | g in factors :: g <= f
    ensures NonDecreasing(factors + [f]) && AllPrime(factors + [f])
  {
    assert forall i | 0 <= i < |factors| :: factors[i] in factors;
  }

  lemma QuotientSmaller(rest: int, q: int, d: int)
    requires 1 <= rest && 2 <= d && q * d == rest
    ensures 1 <= q < rest
  {
    if q <= 0 {
      MulNonPositive(q, d);
    }
    assert q * d == (d - 1) * q + q;
    MulAtLeast(d - 1, q);
  }

  lemma Regroup(a: int, d: int, q: int, rest: int)
    requires q * d == rest
    ensures a * d * q == a * rest
  {
    assert a * d * q == a * (q * d);
  }

  lemma DivideOut(factors: seq<int>, rest: int, d: int, n: int)
    requires Partial(factors, rest, d, n) && rest % d == 0
    ensures 1 <= rest / d < rest && Partial(factors + [d], rest / d, d, n)
  {
    var q := rest / d;
    RemainderDecides(rest, d);
    LeastDivisorPrime(rest, d);
    QuotientKeepsBound(rest, q, d, d);
    QuotientSmaller(rest, q, d);
    ProductSnoc(factors, d);
    Regroup(Product(factors), d, q, rest);
    AppendLargest(factors, d);
  }

  lemma LastFactor(factors: seq<int>, rest: int, d: int, n: int)
    requires Partial(factors, rest, d, n) && rest < d * d
    ensures Factorisation(if rest > 1 then factors + [rest] else factors, n)
  {
    if rest > 1 {
      PrimeWhenSquareExceeds(rest, d);
      DividesProduct(1, rest);
      assert d <= rest;
      ProductSnoc(factors, rest);
      AppendLargest(factors, rest);
    }
  }

  /** `factorize`: the one factorisation of `n`, or `[n]` itself where there is nothing to factor. */
  method Factorize(n: int) returns (factors: seq<int>)
    ensures n <= 1 ==> factors == [n]
    ensures n > 1 ==> Factorisation(factors, n)
    ensures n > 1 ==> forall other | Factorisation(other, n) :: other == factors
  {
    if n <= 1 {
      return [n];
    }
    factors := [];
    var rest, d := n, 2;
    while d * d <= rest
      invariant Partial(factors, rest, d, n)
      decreases rest - d
    {
      ghost var before := rest;
      MulAtLeast(d, d);
      while rest % d == 0
        invariant Partial(factors, rest, d, n) && rest <= before
        decreases rest
      {
        DivideOut(factors, rest, d, n);
        factors := factors + [d];
        rest := rest / d;
      }
      RemainderDecides(rest, d);
      d := d + 1;
    }
    LastFactor(factors, rest, d, n);
    if rest > 1 {
      factors := factors + [rest];
    }
    forall other | Factorisation(other, n)
      ensures other == factors
    {
      FactorisationUnique(other, factors, n);
    }
  }

  /** `math.isqrt`. */
  function Isqrt(n: nat): (r: nat)
    ensures r * r <= n < (r + 1) * (r + 1)
  {
    if n == 0 then 0
    else
      var r := Isqrt(n - 1);
      if (r + 1) * (r + 1) <= n then
        assert (r + 2) * (r + 2) == (r + 1) * (r + 1) + 2 * r + 3;
        r + 1
      else r
  }

  method IsPrime(n: int) returns (r: bool)
    ensures r <==> Prime(n)
  {
    if n < 2 {
      return false;
    }
    var root := Isqrt(n);
    for i := 2 to root + 1
      invariant NoDivisorBelow(i, n)
    {
      RemainderDecides(n, i);
      if n % i == 0 {
        assert i < n by { MulAtLeastTwice(i, root, n); }
        return false;
      }
    }
    PrimeWhenSquareExceeds(n, root + 1);
    r := true;
  }

  lemma MulAtLeastTwice(i: int, root: int, n: int)
    requires 2 <= i <= root && root * root <= n
    ensures i < n
  {
    MulAtLeastBoth(root, root, i);
    MulAtLeast(i - 1, i);
    assert i * i == (i - 1) * i + i;
  }

  /** The two tools agree: a number is prime exactly when its factorisation is the number alone. */
  lemma PrimeIffOwnFactorisation(n: int, factors: seq<int>)
    requires n > 1 && Factorisation(factors, n)
    ensures Prime(n) <==> factors == [n]
  {
    assert forall i | 0 <= i < |factors| :: factors[i] in factors;
    if Prime(n) {
      assert [n][1..] == [] && Product([n]) == n;
      FactorisationUnique(factors, [n], n);
    }
  }
}
