/** The arithmetic that RSA blind signatures and the exact binomial tail rest on:
    powers, the binomial theorem, Fermat's little theorem, Bezout and inverses. */
module NumberTheory {

  // ---- division with remainder -------------------------------------------

  lemma MulMonotone(k: int, n: int)
    requires n > 0
    ensures k >= 1 ==> k * n >= n
    ensures k <= -1 ==> k * n <= -n
  {
  }

  lemma MulAssociative(a: int, b: int, c: int)
    ensures (a * b) * c == a * (b * c)
  {
  }

  lemma MulExchange(a: int, b: int, c: int, d: int)
    ensures (a * b) * (c * d) == (a * c) * (b * d)
  {
    MulAssociative(a, b, c * d);
    MulAssociative(b, c, d);
    MulAssociative(c, b, d);
    MulAssociative(a, c, b * d);
  }

  lemma MulDistributes(a: int, b: int, c: int)
    ensures a * (b + c) == a * b + a * c
  {
  }

  /** Quotient and remainder are unique. */
  lemma DivModUnique(x: int, q: int, r: int, n: int)
    requires n > 0 && x == q * n + r && 0 <= r < n
    ensures x % n == r && x / n == q
  {
    var d := q - x / n;
    assert x == (x / n) * n + x % n;
    assert d * n == x % n - r by {
      assert d * n == q * n - (x / n) * n;
    }
    MulMonotone(d, n);
  }

  ghost predicate Divides(d: int, x: int) {
    exists k: int :: Times(k, d) == x
  }

  function Times(k: int, d: int): int { k * d }

  lemma DividesIntro(k: int, d: int, x: int)
    requires k * d == x
    ensures Divides(d, x)
  {
    assert Times(k, d) == x;
  }

  lemma DividesMul(d: int, x: int, y: int)
    requires Divides(d, x)
    ensures Divides(d, x * y) && Divides(d, y * x)
  {
    var k :| Times(k, d) == x;
    assert (k * y) * d == x * y by {
      assert (k * y) * d == (k * d) * y;
    }
    DividesIntro(k * y, d, x * y);
  }

  lemma DividesAdd(d: int, x: int, y: int)
    requires Divides(d, x) && Divides(d, y)
    ensures Divides(d, x + y) && Divides(d, x - y)
  {
    var k :| Times(k, d) == x;
    var l :| Times(l, d) == y;
    assert (k + l) * d == x + y && (k - l) * d == x - y;
    DividesIntro(k + l, d, x + y);
    DividesIntro(k - l, d, x - y);
  }

  // ---- congruence ----------------------------------------------------------

  ghost predicate Congruent(a: int, b: int, n: int)
    requires n > 0
  {
    a % n == b % n
  }

  lemma CongruentIffDivides(a: int, b: int, n: int)
    requires n > 0
    ensures Congruent(a, b, n) <==> Divides(n, a - b)
  {
    if Congruent(a, b, n) {
      assert a - b == (a / n - b / n) * n by {
        assert a == (a / n) * n + a % n;
        assert b == (b / n) * n + b % n;
      }
      DividesIntro(a / n - b / n, n, a - b);
    }
    if Divides(n, a - b) {
      var k :| Times(k, n) == a - b;
      assert a == (k + b / n) * n + b % n by {
        assert b == (b / n) * n + b % n;
      }
      DivModUnique(a, k + b / n, b % n, n);
    }
  }

  lemma CongruentAdd(a: int, a': int, b: int, b': int, n: int)
    requires n > 0 && Congruent(a, a', n) && Congruent(b, b', n)
    ensures Congruent(a + b, a' + b', n)
  {
    CongruentIffDivides(a, a', n);
    CongruentIffDivides(b, b', n);
    DividesAdd(n, a - a', b - b');
    assert (a - a') + (b - b') == (a + b) - (a' + b');
    CongruentIffDivides(a + b, a' + b', n);
  }

  lemma CongruentMul(a: int, a': int, b: int, b': int, n: int)
    requires n > 0 && Congruent(a, a', n) && Congruent(b, b', n)
    ensures Congruent(a * b, a' * b', n)
  {
    CongruentIffDivides(a, a', n);
    CongruentIffDivides(b, b', n);
    DividesMul(n, a - a', b);
    DividesMul(n, b - b', a');
    DividesAdd(n, (a - a') * b, a' * (b - b'));
    assert (a - a') * b + a' * (b - b') == a * b - a' * b';
    CongruentIffDivides(a * b, a' * b', n);
  }

  lemma ModIsCongruent(x: int, n: int)
    requires n > 0
    ensures 0 <= x % n < n && Congruent(x % n, x, n)
  {
    DivModUnique(x % n, 0, x % n, n);
  }

  lemma CongruentPow(a: int, b: int, e: nat, n: int)
    requires n > 0 && Congruent(a, b, n)
    ensures Congruent(Pow(a, e), Pow(b, e), n)
  {
    if e > 0 {
      CongruentPow(a, b, e - 1, n);
      CongruentMul(a, b, Pow(a, e - 1), Pow(b, e - 1), n);
    }
  }

  // ---- powers --------------------------------------------------------------

  function Pow(b: int, e: nat): int {
    if e == 0 then 1 else b * Pow(b, e - 1)
  }

  lemma {:induction false} PowAdd(b: int, x: nat, y: nat)
    ensures Pow(b, x + y) == Pow(b, x) * Pow(b, y)
  {
    if x > 0 {
      PowAdd(b, x - 1, y);
      assert b * (Pow(b, x - 1) * Pow(b, y)) == (b * Pow(b, x - 1)) * Pow(b, y);
    }
  }

  lemma {:induction false} PowProduct(a: int, b: int, e: nat)
    ensures Pow(a * b, e) == Pow(a, e) * Pow(b, e)
  {
    if e > 0 {
      PowProduct(a, b, e - 1);
      MulExchange(a, b, Pow(a, e - 1), Pow(b, e - 1));
    }
  }

  lemma {:induction false} PowPow(b: int, x: nat, y: nat)
    ensures x * y >= 0
    ensures Pow(b, x * y) == Pow(Pow(b, x), y)
  {
    if y > 0 {
      PowPow(b, x, y - 1);
      assert x * y == x + x * (y - 1);
      PowAdd(b, x, x * (y - 1));
    }
  }

  lemma {:induction false} PowOne(e: nat)
    ensures Pow(1, e) == 1
  {
    if e > 0 {
      PowOne(e - 1);
    }
  }

  lemma PowPositive(b: int, e: nat)
    requires b > 0
    ensures Pow(b, e) > 0
  {
    if e > 0 {
      PowPositive(b, e - 1);
      MulMonotone(Pow(b, e - 1), b);
    }
  }

  lemma PowMonotone(b: int, x: nat, y: nat)
    requires b >= 1 && x <= y
    ensures 1 <= Pow(b, x) <= Pow(b, y)
  {
    PowPositive(b, x);
    PowPositive(b, y - x);
    PowAdd(b, x, y - x);
    var u, v := Pow(b, x), Pow(b, y - x);
    assert u * v >= u by { MulMonotone(v, u); }
  }

  // ---- binomial coefficients ----------------------------------------------

  /** Pascal's rule; `math.comb`. */
  function Choose(m: nat, k: nat): nat {
    if k == 0 then 1
    else if m == 0 then 0
    else Choose(m - 1, k - 1) + Choose(m - 1, k)
  }

  lemma {:induction false} ChooseBeyond(m: nat, k: nat)
    requires k > m
    ensures Choose(m, k) == 0
  {
    if m > 0 {
      ChooseBeyond(m - 1, k - 1);
      ChooseBeyond(m - 1, k);
    }
  }

  lemma ChooseAll(m: nat)
    ensures Choose(m, m) == 1
  {
    if m > 0 {
      ChooseAll(m - 1);
      ChooseBeyond(m - 1, m);
    }
  }

  /** The absorption identity, which is what makes p divide Choose(p, k). */
  lemma {:induction false} ChooseAbsorption(m: nat, k: nat)
    requires 1 <= k <= m
    ensures k * Choose(m, k) == m * Choose(m - 1, k - 1)
  {
    if k == m {
      ChooseAll(m);
      ChooseAll(m - 1);
    } else if k == 1 {
      if m > 1 {
        ChooseAbsorption(m - 1, 1);
      }
    } else {
      ChooseAbsorption(m - 1, k);
      ChooseAbsorption(m - 1, k - 1);
      AbsorptionAlgebra(m, k, Choose(m - 2, k - 2), Choose(m - 2, k - 1), Choose(m - 1, k));
    }
  }

  lemma AbsorptionAlgebra(m: int, k: int, a: int, b: int, c: int)
    requires (k - 1) * (a + b) == (m - 1) * a
    requires k * c == (m - 1) * b
    ensures k * ((a + b) + c) == m * (a + b)
  {
    MulDistributes(k, a + b, c);
    MulDistributes(m - 1, a, b);
    assert k * (a + b) == (k - 1) * (a + b) + (a + b);
    assert m * (a + b) == (m - 1) * (a + b) + (a + b);
  }

  /** Sum over k in lo..m of Choose(m, k) * a^(m - k). */
  function BinomialSum(m: nat, lo: nat, a: int): int
    decreases m + 1 - lo
  {
    if lo > m then 0 else Choose(m, lo) * Pow(a, m - lo) + BinomialSum(m, lo + 1, a)
  }

  /** Pascal's rule, summed: how a tail grows when one more trial is added. */
  lemma {:induction false} BinomialSumStep(m: nat, lo: nat, a: int)
    requires 1 <= lo
    ensures BinomialSum(m + 1, lo, a) == a * BinomialSum(m, lo, a) + BinomialSum(m, lo - 1, a)
    decreases m + 2 - lo
  {
    if lo == m + 1 {
      ChooseAll(m + 1);
      ChooseAll(m);
    } else if lo <= m {
      BinomialSumStep(m, lo + 1, a);
      PascalAlgebra(a, Pow(a, m - lo), Choose(m, lo - 1), Choose(m, lo), BinomialSum(m, lo + 1, a));
    } else {
      assert BinomialSum(m, lo - 1, a) == 0;
    }
  }

  lemma PascalAlgebra(a: int, p: int, c: int, d: int, y: int)
    ensures (c + d) * (a * p) + a * y == a * (d * p + y) + c * (a * p)
  {
    MulDistributes(a * p, c, d);
    MulDistributes(a, d * p, y);
    MulAssociative(a, d, p);
    MulAssociative(d, a, p);
  }

  /** The binomial theorem for a + 1. */
  lemma {:induction false} BinomialTheorem(m: nat, a: int)
    ensures BinomialSum(m, 0, a) == Pow(a + 1, m)
  {
    if m == 0 {
      assert BinomialSum(0, 0, a) == Choose(0, 0) * Pow(a, 0) + BinomialSum(0, 1, a);
    } else {
      BinomialTheorem(m - 1, a);
      BinomialSumStep(m - 1, 1, a);
      assert BinomialSum(m, 0, a) == Pow(a, m) + BinomialSum(m, 1, a);
      assert BinomialSum(m - 1, 0, a) == Pow(a, m - 1) + BinomialSum(m - 1, 1, a);
      SuccessorAlgebra(a, Pow(a, m - 1), BinomialSum(m - 1, 1, a));
    }
  }

  lemma SuccessorAlgebra(a: int, s: int, t: int)
    ensures a * s + a * t + (s + t) == (a + 1) * (s + t)
  {
    MulDistributes(a, s, t);
  }

  // ---- greatest common divisor, Bezout, inverses ---------------------------

  lemma EuclidStep(a: int, b: int, q: int, r: int, x: int, y: int)
    requires a == b * q + r
    ensures a * y + b * (x - q * y) == b * x + r * y
  {
    MulDistributes(y, b * q, r);
    MulDistributes(b, x, -(q * y));
    MulAssociative(b, q, y);
  }

  /** `math.gcd`, by Euclid's algorithm. */
  function Gcd(a: nat, b: nat): nat
    decreases b
  {
    if b == 0 then a else Gcd(b, a % b)
  }

  /** Euclid's algorithm keeping its coefficients. */
  function BezoutPair(a: nat, b: nat): (int, int)
    decreases b
  {
    if b == 0 then (1, 0)
    else
      var (x, y) := BezoutPair(b, a % b);
      (y, x - (a / b) * y)
  }

  lemma {:induction false} BezoutIdentity(a: nat, b: nat)
    ensures a * BezoutPair(a, b).0 + b * BezoutPair(a, b).1 == Gcd(a, b)
    decreases b
  {
    if b > 0 {
      BezoutIdentity(b, a % b);
      var s := BezoutPair(b, a % b);
      EuclidStep(a, b, a / b, a % b, s.0, s.1);
    }
  }

  lemma {:induction false} GcdDivides(a: nat, b: nat)
    ensures Divides(Gcd(a, b), a) && Divides(Gcd(a, b), b)
    decreases b
  {
    var g := Gcd(a, b);
    if b == 0 {
      DividesIntro(1, g, a);
      DividesIntro(0, g, b);
    } else {
      GcdDivides(b, a % b);
      DividesMul(g, b, a / b);
      DividesAdd(g, b * (a / b), a % b);
      assert a == b * (a / b) + a % b;
    }
  }

  /** The inverse of x modulo n; `pow(x, -1, n)`. */
  function Inverse(x: nat, n: nat): int
    requires n > 0
  {
    BezoutPair(x, n).0 % n
  }

  /** x has an inverse modulo n exactly when the two are coprime. */
  lemma InvertibleIffCoprime(x: nat, n: nat)
    requires n > 1
    ensures Gcd(x, n) == 1 <==> (exists y: int :: Congruent(x * y, 1, n))
    ensures Gcd(x, n) == 1 ==> Congruent(x * Inverse(x, n), 1, n)
  {
    BezoutIdentity(x, n);
    if Gcd(x, n) == 1 {
      BezoutInverts(x, n, BezoutPair(x, n).0, BezoutPair(x, n).1);
    }
    if y: int :| Congruent(x * y, 1, n) {
      GcdDivides(x, n);
      CommonDivisorOfUnit(x, n, y, Gcd(x, n));
    }
  }

  lemma BezoutInverts(x: nat, n: nat, u: int, v: int)
    requires n > 1 && x * u + n * v == 1
    ensures Congruent(x * (u % n), 1, n)
  {
    assert x * u - 1 == (-v) * n;
    DividesIntro(-v, n, x * u - 1);
    CongruentIffDivides(x * u, 1, n);
    ModIsCongruent(u, n);
    CongruentMul(x, x, u % n, u, n);
  }

  lemma CommonDivisorOfUnit(x: nat, n: nat, y: int, g: nat)
    requires n > 1 && Congruent(x * y, 1, n) && Divides(g, x) && Divides(g, n)
    ensures g == 1
  {
    CongruentIffDivides(x * y, 1, n);
    var k :| Times(k, n) == x * y - 1;
    DividesMul(g, x, y);
    DividesMul(g, n, k);
    DividesAdd(g, x * y, n * k);
    assert n * k == k * n;
    var j :| Times(j, g) == 1;
    UnitIsOne(j, g);
  }

  lemma UnitIsOne(j: int, g: int)
    requires j * g == 1 && g >= 0
    ensures g == 1
  {
    if g >= 2 {
      MulMonotone(j, g);
    }
  }

  // ---- primes --------------------------------------------------------------

  ghost predicate IsPrime(p: int) {
    p >= 2 && forall d: int :: d >= 1 && Divides(d, p) ==> d == 1 || d == p
  }

  lemma CoprimeToPrime(a: nat, p: nat)
    requires IsPrime(p) && !Divides(p, a)
    ensures Gcd(a, p) == 1
  {
    GcdDivides(a, p);
    var g := Gcd(a, p);
    var k :| Times(k, g) == p;
    assert g >= 1;
  }

  /** Euclid's lemma. */
  lemma EuclidsLemma(p: nat, a: nat, b: int)
    requires IsPrime(p) && Divides(p, a * b)
    ensures Divides(p, a) || Divides(p, b)
  {
    if !Divides(p, a) {
      CoprimeToPrime(a, p);
      var (x, y) := BezoutPair(a, p);
      BezoutIdentity(a, p);
      DividesMul(p, a * b, x);
      DividesIntro(1, p, p);
      DividesMul(p, p, y * b);
      DividesAdd(p, (a * b) * x, p * (y * b));
      BezoutAlgebra(a, b, p, x, y);
    }
  }

  lemma BezoutAlgebra(a: int, b: int, p: int, x: int, y: int)
    requires a * x + p * y == 1
    ensures (a * b) * x + p * (y * b) == b
  {
    MulDistributes(b, a * x, p * y);
    MulAssociative(b, a, x);
    MulAssociative(p, y, b);
  }

  lemma PrimeDividesChoose(p: nat, k: nat)
    requires IsPrime(p) && 1 <= k < p
    ensures Divides(p, Choose(p, k))
  {
    ChooseAbsorption(p, k);
    DividesIntro(Choose(p - 1, k - 1), p, k * Choose(p, k));
    EuclidsLemma(p, k, Choose(p, k));
    if Divides(p, k) {
      var j :| Times(j, p) == k;
      MulMonotone(j, p);
    }
  }

  lemma {:induction false} MiddleTermsVanish(p: nat, lo: nat, a: int)
    requires IsPrime(p) && 1 <= lo <= p
    ensures Divides(p, BinomialSum(p, lo, a) - 1)
    decreases p - lo
  {
    if lo == p {
      ChooseAll(p);
      assert BinomialSum(p, p, a) == 1 + BinomialSum(p, p + 1, a);
      DividesIntro(0, p, 0);
    } else {
      MiddleTermsVanish(p, lo + 1, a);
      PrimeDividesChoose(p, lo);
      DividesMul(p, Choose(p, lo), Pow(a, p - lo));
      DividesAdd(p, Choose(p, lo) * Pow(a, p - lo), BinomialSum(p, lo + 1, a) - 1);
    }
  }

  /** Fermat's little theorem, by induction on a through the binomial theorem. */
  lemma {:induction false} Fermat(p: nat, a: nat)
    requires IsPrime(p)
    ensures Congruent(Pow(a, p), a, p)
  {
    if a == 0 {
    } else {
      Fermat(p, a - 1);
      BinomialTheorem(p, a - 1);
      MiddleTermsVanish(p, 1, a - 1);
      assert Pow(a, p) == Pow(a - 1, p) + BinomialSum(p, 1, a - 1);
      CongruentIffDivides(BinomialSum(p, 1, a - 1), 1, p);
      CongruentAdd(Pow(a - 1, p), a - 1, BinomialSum(p, 1, a - 1), 1, p);
    }
  }

  lemma FermatUnit(p: nat, a: nat)
    requires IsPrime(p) && !Divides(p, a)
    ensures Congruent(Pow(a, p - 1), 1, p)
  {
    Fermat(p, a);
    CongruentIffDivides(Pow(a, p), a, p);
    assert Pow(a, p) - a == a * (Pow(a, p - 1) - 1);
    EuclidsLemma(p, a, Pow(a, p - 1) - 1);
    CongruentIffDivides(Pow(a, p - 1), 1, p);
  }

  /** One prime's half of RSA: raising to 1 + t * (p - 1) changes nothing modulo p,
      whether or not p divides the base. */
  lemma ExponentReturns(p: nat, a: nat, t: nat)
    requires IsPrime(p)
    ensures t * (p - 1) >= 0
    ensures Congruent(Pow(a, 1 + t * (p - 1)), a, p)
  {
    PowPow(a, p - 1, t);
    var w := Pow(a, t * (p - 1));
    assert (p - 1) * t == t * (p - 1);
    if Divides(p, a) {
      DividesMul(p, a, w);
      DividesAdd(p, a * w, a);
      CongruentIffDivides(a * w, a, p);
    } else {
      FermatUnit(p, a);
      CongruentPow(Pow(a, p - 1), 1, t, p);
      PowOne(t);
      CongruentMul(a, a, w, 1, p);
    }
  }

  /** The Chinese remainder step: agreeing modulo two distinct primes is agreeing
      modulo their product. */
  lemma ChineseRemainder(p: nat, q: nat, x: int, y: int)
    requires IsPrime(p) && IsPrime(q) && p != q
    requires Congruent(x, y, p) && Congruent(x, y, q)
    ensures p * q > 0 && Congruent(x, y, p * q)
  {
    MulMonotone(p, q);
    CongruentIffDivides(x, y, p);
    CongruentIffDivides(x, y, q);
    var k :| Times(k, p) == x - y;
    assert p * k == x - y;
    EuclidsLemma(q, p, k);
    assert !Divides(q, p);
    var j :| Times(j, q) == k;
    assert j * (p * q) == x - y by {
      assert j * (p * q) == (j * q) * p;
    }
    DividesIntro(j, p * q, x - y);
    CongruentIffDivides(x, y, p * q);
  }
}
