/**
  Powers, congruences and Fermat's little theorem: the arithmetic the SRP
  handshake rests on.  Nothing here is assumed; the theorem is derived from the
  binomial expansion and Euclid's lemma.
 */
module NumberTheory {
  function Pow(b: int, e: nat): int {
    if e == 0 then 1 else b * Pow(b, e - 1)
  }

  /** `x**e mod m`, the three-argument `big.Int.Exp` for a positive modulus. */
  function ExpMod(x: int, e: nat, m: int): (r: nat)
    requires m > 0
    ensures r < m
  {
    Pow(x, e) % m
  }

  ghost predicate Divides(d: int, n: int)
    requires d > 0
  {
    n % d == 0
  }

  ghost predicate Prime(p: int) {
    2 <= p && forall d :: 2 <= d < p ==> !Divides(d, p)
  }

  /** `a` and `b` leave the same remainder modulo `m`. */
  ghost predicate Cong(a: int, b: int, m: int)
    requires m > 0
  {
    a % m == b % m
  }

  // ---- products ----

  lemma Distribute(a: int, b: int, c: int)
    ensures a * (b + c) == a * b + a * c
  {}

  lemma Associate(a: int, b: int, c: int)
    ensures (a * b) * c == a * (b * c)
  {}

  lemma AtLeast(m: int, k: int)
    requires m > 0 && k >= 1
    ensures m * k >= m
  {}

  // ---- congruences ----

  lemma RemainderUnique(a: int, q: int, r: int, m: int)
    requires m > 0 && 0 <= r < m && a == m * q + r
    ensures a % m == r
  {
    var q', r' := a / m, a % m;
    Distribute(m, q, -q');
    Distribute(m, q', -q);
    if q > q' {
      AtLeast(m, q - q');
    } else if q < q' {
      AtLeast(m, q' - q);
    }
  }

  lemma AddModulus(a: int, m: int)
    requires m > 0
    ensures (a + m) % m == a % m
  {
    var q, r := a / m, a % m;
    assert a == m * q + r;
    assert a + m == m * (q + 1) + r;
    RemainderUnique(a + m, q + 1, r, m);
  }

  lemma MultipleMod(k: int, m: int, r: int)
    requires m > 0
    ensures (k * m + r) % m == r % m
    decreases if k < 0 then -k else k
  {
    if k > 0 {
      MultipleMod(k - 1, m, r);
      assert k * m + r == ((k - 1) * m + r) + m;
      AddModulus((k - 1) * m + r, m);
    } else if k < 0 {
      MultipleMod(k + 1, m, r);
      assert (k + 1) * m + r == (k * m + r) + m;
      AddModulus(k * m + r, m);
    }
  }

  /** Congruent numbers differ by a multiple of the modulus, and conversely. */
  lemma CongDifference(a: int, b: int, m: int)
    requires m > 0
    ensures Cong(a, b, m) <==> Divides(m, a - b)
  {
    var q := a / m - b / m;
    assert a - b == q * m + (a % m - b % m);
    MultipleMod(q, m, a % m - b % m);
    if Divides(m, a - b) {
      var k := (a - b) / m;
      assert a == k * m + b;
      MultipleMod(k, m, b);
    }
  }

  lemma ScaleSum(c: int, q: int, m: int, b: int)
    ensures c * (q * m + b) == (c * q) * m + c * b
  {
    Distribute(c, q * m, b);
    Associate(c, q, m);
  }

  lemma Quotient(a: int, b: int, m: int) returns (q: int)
    requires m > 0 && Cong(a, b, m)
    ensures a == q * m + b
  {
    CongDifference(a, b, m);
    q := (a - b) / m;
  }

  lemma ScaleCong(a: int, b: int, c: int, m: int)
    requires m > 0 && Cong(a, b, m)
    ensures Cong(c * a, c * b, m)
  {
    var q := Quotient(a, b, m);
    ScaleSum(c, q, m, b);
    MultipleMod(c * q, m, c * b);
  }

  lemma MulCong(a: int, b: int, c: int, d: int, m: int)
    requires m > 0 && Cong(a, b, m) && Cong(c, d, m)
    ensures Cong(a * c, b * d, m)
  {
    ScaleCong(a, b, c, m);
    ScaleCong(c, d, b, m);
  }

  lemma AddCong(a: int, b: int, c: int, d: int, m: int)
    requires m > 0 && Cong(a, b, m) && Cong(c, d, m)
    ensures Cong(a + c, b + d, m)
    ensures Cong(a - c, b - d, m)
  {
    CongDifference(a, b, m);
    CongDifference(c, d, m);
    var i, j := (a - b) / m, (c - d) / m;
    assert a + c == (i + j) * m + (b + d);
    MultipleMod(i + j, m, b + d);
    assert a - c == (i - j) * m + (b - d);
    MultipleMod(i - j, m, b - d);
  }

  lemma ModCong(a: int, m: int)
    requires m > 0
    ensures Cong(a % m, a, m)
  {
    assert a == (a / m) * m + a % m;
    MultipleMod(a / m, m, a % m);
  }

  lemma {:induction false} PowCong(a: int, b: int, e: nat, m: int)
    requires m > 0 && Cong(a, b, m)
    ensures Cong(Pow(a, e), Pow(b, e), m)
  {
    if e == 0 {
    } else {
      PowCong(a, b, e - 1, m);
      MulCong(a, b, Pow(a, e - 1), Pow(b, e - 1), m);
    }
  }

  // ---- laws of exponents ----

  lemma {:induction false} PowPos(b: int, e: nat)
    requires b > 0
    ensures Pow(b, e) > 0
  {
    if e == 0 {
    } else {
      PowPos(b, e - 1);
    }
  }

  lemma {:induction false} PowAdd(b: int, i: nat, j: nat)
    ensures Pow(b, i + j) == Pow(b, i) * Pow(b, j)
  {
    if i == 0 {
    } else {
      PowAdd(b, i - 1, j);
      assert b * (Pow(b, i - 1) * Pow(b, j)) == (b * Pow(b, i - 1)) * Pow(b, j);
    }
  }

  lemma {:induction false} PowMul(b: int, i: nat, j: nat)
    ensures 0 <= i * j
    ensures Pow(Pow(b, i), j) == Pow(b, i * j)
  {
    if j == 0 {
    } else {
      PowMul(b, i, j - 1);
      assert i * j == i + i * (j - 1);
      PowAdd(b, i, i * (j - 1));
    }
  }

  lemma Commute(i: int, j: int)
    ensures i * j == j * i
  {}

  lemma PowSwap(b: int, i: nat, j: nat)
    ensures Pow(Pow(b, i), j) == Pow(Pow(b, j), i)
  {
    PowMul(b, i, j);
    PowMul(b, j, i);
    Commute(i, j);
  }

  lemma {:induction false} PowOne(e: nat)
    ensures Pow(1, e) == 1
  {
    if e == 0 {
    } else {
      PowOne(e - 1);
    }
  }

  lemma {:induction false} PowMonotone(b: int, i: nat, j: nat)
    requires b >= 1 && i <= j
    ensures Pow(b, i) <= Pow(b, j)
  {
    PowPos(b, j);
    if i == j {
    } else {
      PowMonotone(b, i, j - 1);
      PowPos(b, j - 1);
      assert b * Pow(b, j - 1) >= Pow(b, j - 1);
    }
  }

  // ---- Euclid's lemma ----

  // Euclid's algorithm as a descent on the first factor: p % a is a smaller
  // non-zero factor whose product with b the prime still divides.
  lemma {:induction false} EuclidReduced(p: int, a: int, b: int)
    requires Prime(p) && 0 < a < p && Divides(p, a * b)
    ensures Divides(p, b)
    decreases a
  {
    if a == 1 {
    } else {
      assert !Divides(a, p);
      var q, r := p / a, p % a;
      assert r == p - q * a;
      var k := (a * b) / p;
      assert a * b == k * p;
      assert r * b == (b - q * k) * p + 0 by {
        assert r * b == p * b - q * (a * b);
        assert q * (k * p) == (q * k) * p;
        assert p * b - (q * k) * p == (b - q * k) * p;
      }
      MultipleMod(b - q * k, p, 0);
      EuclidReduced(p, r, b);
    }
  }

  /** A prime that divides a product divides a factor. */
  lemma {:induction false} Euclid(p: int, a: int, b: int)
    requires Prime(p) && Divides(p, a * b)
    ensures Divides(p, a) || Divides(p, b)
  {
    var r := a % p;
    if r != 0 {
      ModCong(a, p);
      MulCong(r, a, b, b, p);
      EuclidReduced(p, r, b);
    }
  }

  // ---- the binomial expansion ----

  function Choose(n: nat, k: nat): nat {
    if k == 0 then 1
    else if n == 0 then 0
    else Choose(n - 1, k) + Choose(n - 1, k - 1)
  }

  /** Sum of `Choose(n, i) * a^i` for i from 0 to k. */
  function Expansion(n: nat, k: nat, a: int): int {
    if k == 0 then 1 else Expansion(n, k - 1, a) + Choose(n, k) * Pow(a, k)
  }

  lemma {:induction false} ChooseBeyond(n: nat, k: nat)
    requires k > n
    ensures Choose(n, k) == 0
  {
    if n == 0 {
    } else {
      ChooseBeyond(n - 1, k);
      ChooseBeyond(n - 1, k - 1);
    }
  }

  lemma {:induction false} ChooseDiagonal(n: nat)
    ensures Choose(n, n) == 1
  {
    if n == 0 {
    } else {
      ChooseBeyond(n - 1, n);
      ChooseDiagonal(n - 1);
    }
  }

  lemma AbsorbStep(n: int, k: int, x: int, c: int, d: int, e: int)
    requires k * x == (n - 1) * d && (k - 1) * c == (n - 1) * e && c == d + e
    ensures k * (x + c) == n * c
  {
    Distribute(k, x, c);
    Distribute(n - 1, d, e);
    assert k * c == (k - 1) * c + c && n * c == (n - 1) * c + c;
  }

  /** k * C(n,k) == n * C(n-1,k-1). */
  lemma {:induction false} ChooseAbsorb(n: nat, k: nat)
    requires n >= 1 && k >= 1
    ensures k * Choose(n, k) == n * Choose(n - 1, k - 1)
    decreases n
  {
    if n == 1 {
      if k >= 2 { ChooseBeyond(0, k); ChooseBeyond(0, k - 1); }
    } else {
      ChooseAbsorb(n - 1, k);
      var e := if k > 1 then Choose(n - 2, k - 2) else 0;
      if k > 1 { ChooseAbsorb(n - 1, k - 1); }
      AbsorbStep(n, k, Choose(n - 1, k), Choose(n - 1, k - 1), Choose(n - 2, k - 1), e);
    }
  }

  lemma TermStep(n: nat, k: nat, a: int)
    requires k >= 1
    ensures Choose(n + 1, k) * Pow(a, k) == Choose(n, k) * Pow(a, k) + a * (Choose(n, k - 1) * Pow(a, k - 1))
  {
    var p := Pow(a, k - 1);
    Distribute(a * p, Choose(n, k), Choose(n, k - 1));
    Associate(a, p, Choose(n, k - 1));
  }

  lemma {:induction false} ExpansionStep(n: nat, k: nat, a: int)
    requires k >= 1
    ensures Expansion(n + 1, k, a) == Expansion(n, k, a) + a * Expansion(n, k - 1, a)
  {
    TermStep(n, k, a);
    if k == 1 {
    } else {
      ExpansionStep(n, k - 1, a);
      Distribute(a, Expansion(n, k - 2, a), Choose(n, k - 1) * Pow(a, k - 1));
    }
  }

  lemma LastTermVanishes(n: nat, k: nat, a: int)
    requires k >= 1 && Choose(n, k) == 0
    ensures Expansion(n, k, a) == Expansion(n, k - 1, a)
  {}

  lemma Factor(p: int, a: int)
    ensures p + a * p == (1 + a) * p
  {}

  lemma BinomialStep(n: nat, a: int)
    ensures Expansion(n + 1, n + 1, a) == (1 + a) * Expansion(n, n, a)
  {
    ExpansionStep(n, n + 1, a);
    ChooseBeyond(n, n + 1);
    LastTermVanishes(n, n + 1, a);
    Factor(Expansion(n, n, a), a);
  }

  lemma {:induction false} Binomial(n: nat, a: int)
    ensures Pow(1 + a, n) == Expansion(n, n, a)
  {
    if n == 0 {
    } else {
      Binomial(n - 1, a);
      BinomialStep(n - 1, a);
    }
  }

  // ---- Fermat ----

  // All inner terms of the expansion with a prime upper index vanish.
  lemma {:induction false} InnerTermsVanish(p: int, k: nat, a: int)
    requires Prime(p) && k < p
    ensures Cong(Expansion(p, k, a), 1, p)
  {
    if k == 0 {
    } else {
      InnerTermsVanish(p, k - 1, a);
      ChooseAbsorb(p, k);
      var c := Choose(p, k);
      assert k * c == Choose(p - 1, k - 1) * p + 0;
      MultipleMod(Choose(p - 1, k - 1), p, 0);
      EuclidReduced(p, k, c);
      assert Cong(c, 0, p);
      MulCong(c, 0, Pow(a, k), Pow(a, k), p);
      AddCong(Expansion(p, k - 1, a), 1, c * Pow(a, k), 0, p);
    }
  }

  lemma {:induction false} FermatPower(p: int, a: nat)
    requires Prime(p)
    ensures Cong(Pow(a, p), a, p)
  {
    if a == 0 {
    } else {
      FermatPower(p, a - 1);
      Binomial(p, a - 1);
      InnerTermsVanish(p, p - 1, a - 1);
      ChooseDiagonal(p);
      assert Pow(a, p) == Expansion(p, p - 1, a - 1) + Pow(a - 1, p);
      AddCong(Expansion(p, p - 1, a - 1), 1, Pow(a - 1, p), a - 1, p);
    }
  }

  /** Fermat's little theorem. */
  lemma {:induction false} Fermat(p: int, a: nat)
    requires Prime(p) && !Divides(p, a)
    ensures Cong(Pow(a, p - 1), 1, p)
  {
    FermatPower(p, a);
    CongDifference(Pow(a, p), a, p);
    var f := Pow(a, p - 1);
    assert a * f - a == a * (f - 1);
    Euclid(p, a, f - 1);
    CongDifference(f, 1, p);
  }

  /** An exponent may be reduced modulo n - 1 for every base whose (n-1)-th power is 1, n prime or not. */
  lemma {:induction false} ReduceExponent(n: int, a: int, e: nat)
    requires n > 1 && Cong(Pow(a, n - 1), 1, n)
    ensures Cong(Pow(a, e % (n - 1)), Pow(a, e), n)
  {
    var m := n - 1;
    var q, r := e / m, e % m;
    assert e == m * q + r;
    PowCong(Pow(a, m), 1, q, n);
    PowOne(q);
    PowMul(a, m, q);
    PowAdd(a, m * q, r);
    MulCong(Pow(a, m * q), 1, Pow(a, r), Pow(a, r), n);
  }

  /** Every power of a base whose m-th power is 1 has that property. */
  lemma UnitPower(a: int, m: nat, b: nat, n: int)
    requires n > 0 && Cong(Pow(a, m), 1, n)
    ensures Cong(Pow(Pow(a, b), m), 1, n)
  {
    PowSwap(a, b, m);
    PowCong(Pow(a, m), 1, b, n);
    PowOne(b);
  }

  /** A congruent base with the exponent reduced has the same residue, for every power of such a base. */
  lemma ReducedPower(base: int, a: int, b: nat, e: nat, n: int)
    requires n > 1 && Cong(base, Pow(a, b), n) && Cong(Pow(a, n - 1), 1, n)
    ensures ExpMod(base, e % (n - 1), n) == ExpMod(Pow(a, b), e, n)
  {
    UnitPower(a, n - 1, b, n);
    ReduceExponent(n, Pow(a, b), e);
    PowCong(base, Pow(a, b), e % (n - 1), n);
  }
}
