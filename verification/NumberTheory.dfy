/** The integer arithmetic under the blind signatures: residues, inverses, Fermat's little
    theorem and the two-prime argument. */
module NumberTheory {
  import opened Wrappers

  function Pow(b: nat, e: nat): nat {
    if e == 0 then 1 else b * Pow(b, e - 1)
  }

  // ---- residues ------------------------------------------------------------------------

  lemma MulNonNegative(a: nat, b: nat)
    ensures a * b >= 0
  {
  }

  lemma MulLess(a: int, b: int, n: nat)
    requires a < b && n > 0
    ensures a * n + n <= b * n
  {
    MulNonNegative(b - a - 1, n);
    assert b == a + 1 + (b - a - 1);
    assert b * n == a * n + n + (b - a - 1) * n;
  }

  lemma QuotientUnique(x: int, q: int, r: int, n: nat)
    requires 0 <= r < n && x == q * n + r
    ensures x / n == q && x % n == r
  {
    var q', r' := x / n, x % n;
    assert x == q' * n + r' by { assert x == n * q' + r'; }
    if q < q' { MulLess(q, q', n); }
    if q' < q { MulLess(q', q, n); }
  }

  lemma ModShift(a: int, b: int, k: int, n: nat)
    requires n > 0 && a == b + k * n
    ensures a % n == b % n
  {
    var q, r := b / n, b % n;
    assert a == (q + k) * n + r by {
      assert b == n * q + r;
      assert (q + k) * n == q * n + k * n;
    }
    QuotientUnique(a, q + k, r, n);
  }

  lemma ModDifference(a: int, b: int, n: nat) returns (k: int)
    requires n > 0 && a % n == b % n
    ensures a == b + k * n
  {
    k := a / n - b / n;
    assert a == n * (a / n) + a % n && b == n * (b / n) + b % n;
    assert k * n == (a / n) * n - (b / n) * n;
  }

  /** A remainder under a name of its own, so that a proof can follow remainders of products without
      multiplying them out. */
  function Rem(x: int, n: nat): int
    requires n > 0
  {
    x % n
  }

  lemma Spread(c: int, k: int, n: int, b: int)
    ensures (c + k * n) * b == c * b + (k * b) * n
  {
    calc {
      (c + k * n) * b;
      c * b + (k * n) * b;
      { assert (k * n) * b == (k * b) * n; }
      c * b + (k * b) * n;
    }
  }

  lemma RemOf(x: int, n: nat)
    requires n > 0
    ensures Rem(x, n) == x % n && 0 <= Rem(x, n) < n
  {
  }

  lemma OneFactor(a: int, c: int, b: int, n: nat)
    requires n > 0 && Rem(a, n) == Rem(c, n)
    ensures Rem(a * b, n) == Rem(c * b, n)
  {
    hide Rem;
    RemOf(a, n);
    RemOf(c, n);
    var k := ModDifference(a, c, n);
    Spread(c, k, n, b);
    ShiftedRem(a * b, c * b, k * b, n);
  }

  lemma ShiftedRem(a: int, b: int, k: int, n: nat)
    requires n > 0 && a == b + k * n
    ensures Rem(a, n) == Rem(b, n)
  {
    ModShift(a, b, k, n);
  }

  lemma Commutes(a: int, b: int)
    ensures a * b == b * a
  {
  }

  /** Equal remainders of the factors give equal remainders of the product. */
  lemma RemMul(a: int, b: int, c: int, d: int, n: nat)
    requires n > 0 && Rem(a, n) == Rem(c, n) && Rem(b, n) == Rem(d, n)
    ensures Rem(a * b, n) == Rem(c * d, n)
  {
    hide Rem;
    OneFactor(a, c, b, n);
    OneFactor(b, d, c, n);
    Commutes(b, c);
    Commutes(d, c);
  }

  lemma RemRem(x: int, n: nat)
    requires n > 0
    ensures Rem(Rem(x, n), n) == Rem(x, n)
  {
    ModMod(x, n);
  }

  lemma Associates(a: int, b: int, c: int)
    ensures (a * b) * c == a * (b * c)
  {
  }

  lemma ModMul(a: int, b: int, c: int, d: int, n: nat)
    requires n > 0 && a % n == c % n && b % n == d % n
    ensures (a * b) % n == (c * d) % n
  {
    hide Rem;
    RemOf(a, n);
    RemOf(b, n);
    RemOf(c, n);
    RemOf(d, n);
    RemMul(a, b, c, d, n);
    RemOf(a * b, n);
    RemOf(c * d, n);
  }

  lemma ModAdd(a: int, b: int, c: int, d: int, n: nat)
    requires n > 0 && a % n == c % n && b % n == d % n
    ensures (a + b) % n == (c + d) % n
  {
    var k := ModDifference(a, c, n);
    var l := ModDifference(b, d, n);
    assert (k + l) * n == k * n + l * n;
    ModShift(a + b, c + d, k + l, n);
  }

  lemma ModMod(a: int, n: nat)
    requires n > 0
    ensures 0 <= a % n < n && (a % n) % n == a % n
  {
    QuotientUnique(a % n, 0, a % n, n);
  }

  lemma SmallMod(a: nat, n: nat)
    requires a < n
    ensures a % n == a
  {
    QuotientUnique(a, 0, a, n);
  }

  lemma MultipleMod(k: int, n: nat)
    requires n > 0
    ensures (k * n) % n == 0
  {
    QuotientUnique(k * n, k, 0, n);
  }

  lemma {:induction false} PowMod(a: nat, b: nat, e: nat, n: nat)
    requires n > 0 && a % n == b % n
    ensures Pow(a, e) % n == Pow(b, e) % n
  {
    if e > 0 {
      PowMod(a, b, e - 1, n);
      ModMul(a, Pow(a, e - 1), b, Pow(b, e - 1), n);
    }
  }

  lemma PowRem(a: nat, b: nat, e: nat, n: nat)
    requires n > 0 && Rem(a, n) == Rem(b, n)
    ensures Rem(Pow(a, e), n) == Rem(Pow(b, e), n)
  {
    PowMod(a, b, e, n);
  }

  lemma {:induction false} PowAdd(b: nat, e: nat, f: nat)
    ensures Pow(b, e + f) == Pow(b, e) * Pow(b, f)
  {
    if e == 0 {
    } else {
      PowAdd(b, e - 1, f);
      assert b * (Pow(b, e - 1) * Pow(b, f)) == (b * Pow(b, e - 1)) * Pow(b, f);
    }
  }

  lemma {:induction false} PowMul(b: nat, e: nat, f: nat)
    ensures Pow(b, e * f) == Pow(Pow(b, e), f)
  {
    if f == 0 {
      assert e * f == 0;
    } else {
      PowMul(b, e, f - 1);
      assert e * f == e + e * (f - 1);
      PowAdd(b, e, e * (f - 1));
    }
  }

  lemma FourFactors(a: int, b: int, x: int, y: int)
    ensures (a * b) * (x * y) == (a * x) * (b * y)
  {
    calc {
      (a * b) * (x * y);
      a * (b * (x * y));
      { assert b * (x * y) == x * (b * y); }
      a * (x * (b * y));
      (a * x) * (b * y);
    }
  }

  lemma PowStep(b: nat, e: nat)
    requires e > 0
    ensures Pow(b, e) == b * Pow(b, e - 1)
  {
  }

  lemma {:induction false} PowProduct(a: nat, b: nat, e: nat)
    ensures Pow(a * b, e) == Pow(a, e) * Pow(b, e)
  {
    if e > 0 {
      hide Pow;
      PowProduct(a, b, e - 1);
      PowStep(a * b, e);
      PowStep(a, e);
      PowStep(b, e);
      FourFactors(a, b, Pow(a, e - 1), Pow(b, e - 1));
    }
  }

  // ---- common divisors and inverses ------------------------------------------------------

  /** The extended Euclidean algorithm: a common divisor of both that is a combination of both. */
  function ExtGcd(a: nat, b: nat): (r: (nat, int, int))
    requires a > 0 || b > 0
    ensures r.0 > 0 && a * r.1 + b * r.2 == r.0
    ensures a % r.0 == 0 && b % r.0 == 0
    decreases b
  {
    if b == 0 then
      MultipleMod(0, a);
      MultipleMod(1, a);
      (a, 1, 0)
    else
      var (g, x, y) := ExtGcd(b, a % b);
      ExtGcdStep(a, b, g, x, y);
      (g, y, x - (a / b) * y)
  }

  lemma ExtGcdStep(a: nat, b: nat, g: nat, x: int, y: int)
    requires b > 0 && g > 0 && b * x + (a % b) * y == g
    requires b % g == 0 && (a % b) % g == 0
    ensures a * y + b * (x - (a / b) * y) == g
    ensures a % g == 0
  {
    assert a == b * (a / b) + a % b;
    calc {
      a * y + b * (x - (a / b) * y);
      { assert b * (x - (a / b) * y) == b * x - b * ((a / b) * y); assert b * ((a / b) * y) == (b * (a / b)) * y; }
      a * y - (b * (a / b)) * y + b * x;
      { assert a * y - (b * (a / b)) * y == (a - b * (a / b)) * y; }
      (a % b) * y + b * x;
    }
    MultipleMod(0, g);
    ModMul(b, a / b, 0, a / b, g);
    ModAdd(b * (a / b), a % b, 0, 0, g);
  }

  predicate Coprime(a: nat, n: nat)
    requires n > 0
  {
    ExtGcd(a, n).0 == 1
  }

  /** The inverse of `a` modulo `n`, below `n`, when there is one. */
  function ModInverse(a: nat, n: nat): (r: Option<nat>)
    requires n > 1
    ensures r.Some? ==> r.value < n && (a * r.value) % n == 1
  {
    var (g, x, y) := ExtGcd(a, n);
    if g != 1 then None else
      InverseWorks(a, n, x, y);
      Some(x % n)
  }

  lemma InverseWorks(a: nat, n: nat, x: int, y: int)
    requires n > 1 && a * x + n * y == 1
    ensures (a * (x % n)) % n == 1
  {
    ModMod(x, n);
    ModMul(a, x, a, x % n, n);
    assert (-y) * n == -(n * y);
    ModShift(a * x, 1, -y, n);
    SmallMod(1, n);
  }

  /** What has an inverse shares no factor with the modulus, and its inverse is found. */
  lemma InverseExists(a: nat, b: nat, n: nat)
    requires n > 1 && (a * b) % n == 1
    ensures ModInverse(a, n).Some? && Coprime(a, n)
  {
    var (g, x, y) := ExtGcd(a, n);
    SmallMod(1, n);
    var k := ModDifference(a * b, 1, n);
    // g divides a and n, hence 1
    MultipleMod(0, g);
    ModMul(a, b, 0, b, g);
    ModMul(n, k, 0, k, g);
    assert a * b == 1 + n * k;
    ModAdd(a * b, -(n * k), 0, 0, g) by {
      var t := ModDifference(n * k, 0, g);
      assert -(n * k) == 0 + (-t) * g;
      ModShift(-(n * k), 0, -t, g);
    }
    if g > 1 {
      SmallMod(1, g);
    }
  }

  /** The extended Euclidean algorithm finds an inverse exactly when there is one. */
  lemma InverseFoundExactly(a: nat, n: nat)
    requires n > 1
    ensures ModInverse(a, n).Some? <==> exists b: nat :: (a * b) % n == 1
  {
    hide ExtGcd, Coprime;
    if ModInverse(a, n).Some? {
      assert (a * ModInverse(a, n).value) % n == 1;
    } else {
      forall b: nat ensures (a * b) % n != 1 {
        if (a * b) % n == 1 { InverseExists(a, b, n); }
      }
    }
  }

  lemma Cancel(a: nat, b: nat, x: nat, y: nat, n: nat)
    requires n > 0 && (a * b) % n == 1 % n && (a * x) % n == (a * y) % n
    ensures x % n == y % n
  {
    forall z: nat ensures (b * (a * z)) % n == z % n {
      assert b * (a * z) == (a * b) * z;
      ModMul(a * b, z, 1, z, n);
    }
    ModMul(b, a * x, b, a * y, n);
  }

  // ---- primes --------------------------------------------------------------------------------

  ghost predicate IsPrime(p: nat) {
    p >= 2 && forall d: nat :: 2 <= d < p ==> p % d != 0
  }

  lemma PrimeCoprime(p: nat, a: nat)
    requires IsPrime(p) && a % p != 0
    ensures Coprime(a, p)
  {
    var g := ExtGcd(a, p).0;
    if g > p {
      SmallMod(p, g);
    }
  }

  /** Euclid's lemma. */
  lemma Euclid(p: nat, a: nat, b: nat)
    requires IsPrime(p) && (a * b) % p == 0
    ensures a % p == 0 || b % p == 0
  {
    if a % p != 0 {
      PrimeCoprime(p, a);
      var i := ModInverse(a, p).value;
      SmallMod(1, p);
      MultipleMod(0, p);
      assert a * 0 == 0;
      Cancel(a, i, b, 0, p);
    }
  }

  // ---- Fermat's little theorem ------------------------------------------------------------------

  function Choose(n: nat, k: nat): nat {
    if k == 0 then 1 else if n == 0 then 0 else Choose(n - 1, k - 1) + Choose(n - 1, k)
  }

  lemma {:induction false} ChooseAbove(n: nat, k: nat)
    requires k > n
    ensures Choose(n, k) == 0
  {
    if n > 0 {
      ChooseAbove(n - 1, k - 1);
      ChooseAbove(n - 1, k);
    }
  }

  lemma {:induction false} Absorption(n: nat, k: nat)
    requires n > 0 && k > 0
    ensures k * Choose(n, k) == n * Choose(n - 1, k - 1)
  {
    if n == 1 {
      if k > 1 { ChooseAbove(1, k); ChooseAbove(0, k - 1); }
    } else if k == 1 {
      Absorption(n - 1, 1);
    } else {
      Absorption(n - 1, k);
      Absorption(n - 1, k - 1);
      AbsorptionStep(n, k, Choose(n - 1, k), Choose(n - 2, k - 2), Choose(n - 2, k - 1));
    }
  }

  lemma AbsorptionStep(n: nat, k: nat, y: nat, u: nat, v: nat)
    requires k * y == (n - 1) * v && (k - 1) * (u + v) == (n - 1) * u
    ensures k * (u + v + y) == n * (u + v)
  {
    calc {
      k * (u + v + y);
      k * (u + v) + k * y;
      (k - 1) * (u + v) + (u + v) + k * y;
      (n - 1) * u + (n - 1) * v + (u + v);
      n * (u + v);
    }
  }

  lemma PrimeDividesChoose(p: nat, k: nat)
    requires IsPrime(p) && 0 < k < p
    ensures Choose(p, k) % p == 0
  {
    Absorption(p, k);
    MultipleMod(Choose(p - 1, k - 1), p);
    assert Choose(p - 1, k - 1) * p == p * Choose(p - 1, k - 1);
    SmallMod(k, p);
    Euclid(p, k, Choose(p, k));
  }

  /** The terms 0..j of the expansion of (a + 1)^n. */
  function Terms(a: nat, n: nat, j: nat): nat {
    Choose(n, j) * Pow(a, j) + if j == 0 then 0 else Terms(a, n, j - 1)
  }

  lemma PascalTerm(a: int, c: int, c': int, w: int)
    ensures (c + c') * (a * w) == c' * (a * w) + a * (c * w)
  {
    calc {
      (c + c') * (a * w);
      c * (a * w) + c' * (a * w);
      { assert c * (a * w) == a * (c * w); }
      a * (c * w) + c' * (a * w);
    }
  }

  lemma Spread2(a: int, x: int, y: int)
    ensures a * (x + y) == a * x + a * y
  {
  }

  lemma TermsStep(a: nat, n: nat, j: nat)
    ensures Terms(a, n, j) == Choose(n, j) * Pow(a, j) + if j == 0 then 0 else Terms(a, n, j - 1)
    ensures j == 0 ==> Terms(a, n, j) == 1
    ensures j > 0 ==> Choose(n + 1, j) == Choose(n, j - 1) + Choose(n, j)
  {
  }

  lemma {:induction false} TermsPascal(a: nat, n: nat, j: nat)
    requires j > 0
    ensures Terms(a, n + 1, j) == Terms(a, n, j) + a * Terms(a, n, j - 1)
  {
    hide Terms, Choose, Pow;
    TermsStep(a, n + 1, j);
    TermsStep(a, n, j);
    TermsStep(a, n, j - 1);
    PowStep(a, j);
    PascalTerm(a, Choose(n, j - 1), Choose(n, j), Pow(a, j - 1));
    if j == 1 {
      TermsStep(a, n + 1, 0);
    } else {
      TermsPascal(a, n, j - 1);
      Spread2(a, Choose(n, j - 1) * Pow(a, j - 1), Terms(a, n, j - 2));
    }
  }

  lemma LastTermVanishes(a: nat, n: nat)
    requires n > 0
    ensures Terms(a, n - 1, n) == Terms(a, n - 1, n - 1)
  {
    ChooseAbove(n - 1, n);
    var w := Pow(a, n);
    assert 0 * w == 0;
  }

  lemma {:induction false} Binomial(a: nat, n: nat)
    ensures Pow(a + 1, n) == Terms(a, n, n)
  {
    if n > 0 {
      Binomial(a, n - 1);
      TermsPascal(a, n - 1, n);
      LastTermVanishes(a, n);
      Distribute(a, Terms(a, n - 1, n - 1));
    }
  }

  lemma Distribute(a: nat, t: nat)
    ensures (a + 1) * t == t + a * t
  {
  }

  lemma {:induction false} InnerTermsVanish(a: nat, p: nat, j: nat)
    requires IsPrime(p) && j < p
    ensures Terms(a, p, j) % p == 1
  {
    if j == 0 {
      SmallMod(1, p);
    } else {
      InnerTermsVanish(a, p, j - 1);
      PrimeDividesChoose(p, j);
      MultipleMod(0, p);
      SmallMod(1, p);
      ModMul(Choose(p, j), Pow(a, j), 0, Pow(a, j), p);
      ModAdd(Choose(p, j) * Pow(a, j), Terms(a, p, j - 1), 0, 1, p);
    }
  }

  lemma {:induction false} ChooseAll(n: nat)
    ensures Choose(n, n) == 1
  {
    if n > 0 {
      ChooseAll(n - 1);
      ChooseAbove(n - 1, n);
    }
  }

  /** Fermat: a^p and a leave the same remainder modulo a prime p. */
  lemma {:induction false} Fermat(a: nat, p: nat)
    requires IsPrime(p)
    ensures Pow(a, p) % p == a % p
  {
    if a == 0 {
      assert Pow(0, p) == 0;
    } else {
      Fermat(a - 1, p);
      Binomial(a - 1, p);
      ChooseAll(p);
      InnerTermsVanish(a - 1, p, p - 1);
      SmallMod(1, p);
      ModAdd(Pow(a - 1, p), Terms(a - 1, p, p - 1), a - 1, 1, p);
    }
  }

  // ---- the two-prime argument ----------------------------------------------------------------------

  lemma {:induction false} FermatSteps(m: nat, p: nat, t: nat)
    requires IsPrime(p)
    ensures Pow(m, 1 + t * (p - 1)) % p == m % p
  {
    if t == 0 {
      assert Pow(m, 1) == m * Pow(m, 0) == m;
    } else {
      FermatSteps(m, p, t - 1);
      var u := (t - 1) * (p - 1);
      assert 1 + t * (p - 1) == (1 + u) + (p - 1);
      PowAdd(m, 1 + u, p - 1);
      ModMul(Pow(m, 1 + u), Pow(m, p - 1), m, Pow(m, p - 1), p);
      assert Pow(m, p) == m * Pow(m, p - 1);
      Fermat(m, p);
    }
  }

  /** `x` is one more than a multiple of `n`. */
  predicate OneModulo(x: nat, n: nat)
    requires n > 0
  {
    x > 0 && (x - 1) % n == 0
  }

  lemma ExponentUndone(m: nat, p: nat, x: nat)
    requires IsPrime(p) && OneModulo(x, p - 1)
    ensures Pow(m, x) % p == m % p
  {
    var t := (x - 1) / (p - 1);
    assert x - 1 == (p - 1) * t + (x - 1) % (p - 1);
    assert (p - 1) * t == t * (p - 1);
    FermatSteps(m, p, t);
  }

  lemma MultipleOf(a: nat, n: nat) returns (k: nat)
    requires n > 0 && a % n == 0
    ensures a == k * n
  {
    k := a / n;
    assert a == n * (a / n);
  }

  /** Equal modulo two different primes is equal modulo their product. */
  lemma TwoPrimes(a: nat, b: nat, p: nat, q: nat)
    requires IsPrime(p) && IsPrime(q) && p != q && b <= a
    requires a % p == b % p && a % q == b % q
    ensures a % (p * q) == b % (p * q)
  {
    var d := a - b;
    var kp := ModDifference(a, b, p);
    var kq := ModDifference(a, b, q);
    MultipleMod(kp, p);
    MultipleMod(kq, q);
    assert d % p == 0 && d % q == 0;
    var k := MultipleOf(d, p);
    Euclid(q, k, p) by { assert k * p == d; }
    if p % q == 0 {
      if p < q { SmallMod(p, q); }
      assert false;
    }
    var l := MultipleOf(k, q);
    assert d == l * (p * q) by { assert k * p == (l * q) * p; assert (l * q) * p == l * (p * q); }
    ModShift(a, b, l, p * q);
  }

  /** The heart of RSA: with matching exponents, raising to e and then to d gives every
      number below the modulus back — also the ones that share a prime with it. */
  lemma ExponentsUndo(m: nat, p: nat, q: nat, e: nat, d: nat)
    requires IsPrime(p) && IsPrime(q) && p != q
    requires OneModulo(e * d, p - 1) && OneModulo(e * d, q - 1)
    ensures p * q > 0 && Pow(m, e * d) % (p * q) == m % (p * q)
  {
    var x := Pow(m, e * d);
    ExponentUndone(m, p, e * d);
    ExponentUndone(m, q, e * d);
    assert p * q > 0;
    if m <= x { TwoPrimes(x, m, p, q); } else { TwoPrimes(m, x, p, q); }
  }
}
