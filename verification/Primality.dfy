/** Pocklington certificates: a number is prime when some base has, modulo each
    of its factors, an order above the square root of the number. */
module Primality {
  import opened Probing

  // ---------- Powers modulo n ----------

  function Exp(g: nat, k: nat, n: nat): (r: nat)
    requires n > 1
    ensures r < n
  {
    if k == 0 then 1 else Exp(g, k - 1, n) * g % n
  }

  lemma ModTimes(x: nat, y: nat, n: nat)
    requires n > 0
    ensures x % n * y % n == x * y % n
  {
    var q, r := x / n, x % n;
    assert x * y == r * y + (q * y) * n by {
      assert x == q * n + r;
      assert x * y == (q * n) * y + r * y;
      assert (q * n) * y == (q * y) * n;
    }
    ModShift(r * y, q * y, n);
  }

  lemma {:induction false} ExpAdd(g: nat, a: nat, b: nat, n: nat)
    requires n > 1
    ensures Exp(g, a + b, n) == Exp(g, a, n) * Exp(g, b, n) % n
  {
    if b == 0 {
      ModUnique(Exp(g, a, n), 0, Exp(g, a, n), n);
    } else {
      ExpAdd(g, a, b - 1, n);
      ModSwap(Exp(g, a, n), Exp(g, b - 1, n), g, n);
    }
  }

  lemma ModSwap(x: nat, y: nat, g: nat, n: nat)
    requires n > 0
    ensures (x * y % n) * g % n == x * (y * g % n) % n
  {
    ModTimes(x * y, g, n);
    ModTimes(y * g, x, n);
    assert (x * y) * g == (y * g) * x;
    assert x * (y * g % n) == (y * g % n) * x;
  }

  lemma {:induction false} ExpOfOne(g: nat, a: nat, b: nat, n: nat)
    requires n > 1 && Exp(g, a, n) == 1
    ensures Exp(g, a * b, n) == 1
  {
    if b > 0 {
      ExpOfOne(g, a, b - 1, n);
      assert a * b == a * (b - 1) + a;
      ExpAdd(g, a * (b - 1), a, n);
      ModUnique(1, 0, 1, n);
    } else {
      assert a * b == 0;
    }
  }

  // ---------- Prime factors ----------

  /** The least divisor from `d` on is prime when nothing smaller divides. */
  lemma {:induction false} LeastFactor(c: nat, d: nat) returns (q: nat)
    requires 2 <= d <= c && forall e: nat :: 1 < e < d ==> !Divides(e, c)
    ensures Prime(q) && Divides(q, c) && q <= c && forall e: nat :: 1 < e < q ==> !Divides(e, c)
    decreases c - d
  {
    if Divides(d, c) {
      q := d;
      forall e: nat | 1 < e < d
        ensures !Divides(e, d)
      {
        if Divides(e, d) { DividesChain(e, d, c); assert false; }
      }
    } else {
      assert d != c by { MultipleMod(1, c); }
      q := LeastFactor(c, d + 1);
    }
  }

  lemma DividesChain(e: nat, d: nat, c: nat)
    requires e > 0 && d > 0 && Divides(e, d) && Divides(d, c)
    ensures Divides(e, c)
  {
    var x, y := d / e, c / d;
    assert c == (y * x) * e by {
      assert d == x * e && c == y * d;
      assert y * (x * e) == (y * x) * e;
    }
    MultipleMod(y * x, e);
  }

  function Product(fs: seq<nat>): nat {
    if fs == [] then 1 else fs[0] * Product(fs[1..])
  }

  /** A prime that divides a product of primes is one of them. */
  lemma {:induction false} PrimeInProduct(q: nat, fs: seq<nat>)
    requires Prime(q) && (forall f :: f in fs ==> Prime(f)) && Divides(q, Product(fs))
    ensures q in fs
    decreases |fs|
  {
    if fs == [] {
      ModUnique(1, 0, 1, q);
      assert false;
    }
    var f, rest := fs[0], Product(fs[1..]);
    if q != f {
      var a, b := f % q, f / q;
      assert a != 0 by {
        if a == 0 { DividesPrime(q, f); assert false; }
      }
      assert a * rest == f * rest - (b * rest) * q by {
        assert f == b * q + a;
        assert f * rest == (b * q) * rest + a * rest;
        assert (b * q) * rest == (b * rest) * q;
      }
      ModShift(f * rest, -(b * rest), q);
      assert f * rest + (-(b * rest)) * q == a * rest;
      Euclid(q, a, rest);
      PrimeInProduct(q, fs[1..]);
    }
  }

  lemma DividesPrime(q: nat, f: nat)
    requires q > 1 && Prime(f) && Divides(q, f)
    ensures q == f
  {
    if q > f { ModUnique(f, 0, f, q); }
  }

  // ---------- The order of the base ----------

  /** The exponent `f` gives one, and taking a prime out of it no longer does. */
  ghost predicate HasOrder(b: nat, f: nat, n: nat) {
    && n > 1
    && f > 0
    && Exp(b, f, n) == 1
    && forall q: nat :: Prime(q) && Divides(q, f) ==> Exp(b, f / q, n) != 1
  }

  /** The least positive exponent from `k` on that gives one. */
  lemma LeastOrder(b: nat, f: nat, n: nat, k: nat) returns (o: nat)
    requires n > 1 && 0 < k <= f && Exp(b, f, n) == 1
    requires forall j: nat :: 0 < j < k ==> Exp(b, j, n) != 1
    ensures k <= o <= f && Exp(b, o, n) == 1 && forall j: nat :: 0 < j < o ==> Exp(b, j, n) != 1
    decreases f - k
  {
    if Exp(b, k, n) == 1 { o := k; } else { o := LeastOrder(b, f, n, k + 1); }
  }

  lemma OrderDivides(b: nat, f: nat, n: nat, o: nat)
    requires n > 1 && 0 < o <= f && Exp(b, f, n) == 1 && Exp(b, o, n) == 1
    requires forall j: nat :: 0 < j < o ==> Exp(b, j, n) != 1
    ensures Divides(o, f)
  {
    var q, r := f / o, f % o;
    assert f == o * q + r;
    ExpOfOne(b, o, q, n);
    ExpAdd(b, o * q, r, n);
    ModUnique(Exp(b, r, n), 0, Exp(b, r, n), n);
  }

  /** No smaller power is one. */
  lemma OrderIsLeast(b: nat, f: nat, n: nat, k: nat)
    requires HasOrder(b, f, n) && 0 < k < f
    ensures Exp(b, k, n) != 1
  {
    var o := LeastOrder(b, f, n, 1);
    if o < f {
      OrderDivides(b, f, n, o);
      var q, e := ProperDivisor(o, f);
      ExpOfOne(b, o, e, n);
      assert false;
    }
  }

  /** A proper divisor divides what is left when some prime is taken out. */
  lemma ProperDivisor(o: nat, m: nat) returns (q: nat, e: nat)
    requires 0 < o < m && Divides(o, m)
    ensures Prime(q) && Divides(q, m) && m / q == o * e
  {
    var c := m / o;
    assert m == c * o;
    assert c > 1 by { MulMono(c, 1, o); }
    q := LeastFactor(c, 2);
    e := c / q;
    assert c == e * q;
    assert m == (o * e) * q by { assert (e * q) * o == (o * e) * q; }
    ModUnique(m, o * e, 0, q);
  }

  lemma PowersDiffer(b: nat, f: nat, n: nat, i: nat, j: nat)
    requires HasOrder(b, f, n) && i < j < f
    ensures Exp(b, i, n) != Exp(b, j, n)
  {
    if Exp(b, i, n) == Exp(b, j, n) {
      ExpAdd(b, i, f - j, n);
      ExpAdd(b, j, f - j, n);
      OrderIsLeast(b, f, n, i + (f - j));
      assert false;
    }
  }

  ghost function Powers(b: nat, m: nat, n: nat): set<nat>
    requires n > 1
  {
    set i: nat | i < m :: Exp(b, i, n)
  }

  lemma {:induction false} PowersCount(b: nat, f: nat, n: nat, m: nat)
    requires HasOrder(b, f, n) && m <= f
    ensures |Powers(b, m, n)| == m
  {
    if m > 0 {
      PowersCount(b, f, n, m - 1);
      var last := Exp(b, m - 1, n);
      forall i: nat | i < m - 1
        ensures Exp(b, i, n) != last
      {
        PowersDiffer(b, f, n, i, m - 1);
      }
      assert Powers(b, m, n) == Powers(b, m - 1, n) + {last};
    }
  }

  /** The numbers from 1 to `n`. */
  ghost function UpTo(n: nat): (s: set<nat>)
    ensures forall k: nat :: k in s <==> 0 < k <= n
    ensures |s| == n
  {
    if n == 0 then {} else UpTo(n - 1) + {n}
  }

  /** The powers are distinct and not zero, so the order is below the modulus. */
  lemma OrderBound(b: nat, f: nat, n: nat)
    requires HasOrder(b, f, n)
    ensures f < n
  {
    PowersCount(b, f, n, f);
    forall x | x in Powers(b, f, n)
      ensures 0 < x <= n - 1
    {
      var i: nat :| i < f && Exp(b, i, n) == x;
      if x == 0 {
        ExpAdd(b, i, f - i, n);
        assert x * Exp(b, f - i, n) == 0;
        ModUnique(0, 0, 0, n);
      }
    }
    SubsetSize(Powers(b, f, n), UpTo(n - 1));
  }

  // ---------- Certificates ----------

  predicate InverseLessOne(v: nat, c: nat, n: nat) {
    n > 1 && (v - 1) * c % n == 1
  }

  /** The power less one has an inverse. */
  ghost predicate ApartFromOne(b: nat, k: nat, n: nat) {
    n > 1 && exists c: nat :: InverseLessOne(Exp(b, k, n), c, n)
  }

  /** The remainder by a divisor of the modulus. */
  lemma ModOfMod(x: int, n: nat, p: nat)
    requires p > 0 && n > 0 && Divides(p, n)
    ensures x % n % p == x % p
  {
    var q, m := x / n, n / p;
    assert x % n + (q * m) * p == x by {
      assert x == q * n + x % n && n == m * p;
      assert q * (m * p) == (q * m) * p;
    }
    ModShift(x % n, q * m, p);
  }

  lemma {:induction false} ExpOfDivisor(b: nat, k: nat, n: nat, p: nat)
    requires p > 1 && n > 1 && Divides(p, n)
    ensures Exp(b, k, n) % p == Exp(b, k, p)
  {
    if k > 0 {
      ExpOfDivisor(b, k - 1, n, p);
      ModOfMod(Exp(b, k - 1, n) * b, n, p);
      ModTimes(Exp(b, k - 1, n), b, p);
    } else {
      ModUnique(1, 0, 1, p);
    }
  }

  /** What is apart from one stays so modulo every divisor. */
  lemma ApartOfDivisor(b: nat, k: nat, n: nat, p: nat)
    requires p > 1 && ApartFromOne(b, k, n) && Divides(p, n)
    ensures Exp(b, k, p) != 1
  {
    var x := Exp(b, k, n) - 1;
    var c: nat :| InverseLessOne(Exp(b, k, n), c, n);
    ExpOfDivisor(b, k, n, p);
    if Exp(b, k, p) == 1 {
      NoInverse(x, c, n, p);
      assert false;
    }
  }

  /** A number that `p` leaves one more than a multiple of has no such inverse. */
  lemma NoInverse(x: int, c: nat, n: nat, p: nat)
    requires p > 1 && n > 1 && Divides(p, n) && (x + 1) % p == 1
    ensures x * c % n != 1
  {
    var d := (x + 1) / p;
    assert x == d * p;
    assert x * c == (d * c) * p by { assert (d * p) * c == (d * c) * p; }
    MultipleMod(d * c, p);
    ModOfMod(x * c, n, p);
    ModUnique(1, 0, 1, p);
  }

  /** Pocklington's criterion: a base whose order modulo every prime factor
      would have to be a number above the square root leaves no factor. */
  lemma CertifiedPrime(n: nat, b: nat, fs: seq<nat>)
    requires n > 1 && n < Product(fs) * Product(fs)
    requires forall f :: f in fs ==> Prime(f) && ApartFromOne(b, Product(fs) / f, n)
    requires Exp(b, Product(fs), n) == 1
    ensures Prime(n)
  {
    var f := Product(fs);
    var p := LeastFactor(n, 2);
    if p < n {
      SquareBelow(n, p);
      ExpOfDivisor(b, f, n, p);
      ModUnique(1, 0, 1, p);
      forall q: nat | Prime(q) && Divides(q, f)
        ensures Exp(b, f / q, p) != 1
      {
        PrimeInProduct(q, fs);
        ApartOfDivisor(b, f / q, n, p);
      }
      OrderBound(b, f, p);
      MulMono(f, p, f);
      MulMono(f, p, p);
      assert false;
    }
  }

  /** The least factor is at most the other one. */
  lemma SquareBelow(n: nat, p: nat)
    requires 1 < p < n && Divides(p, n) && forall e: nat :: 1 < e < p ==> !Divides(e, n)
    ensures p * p <= n
  {
    var e := n / p;
    assert n == e * p;
    MulMono(e, 1, p);
    assert e > 1;
    MultipleMod(p, e);
    MulMono(p, e, p);
  }

  ghost predicate Power(b: nat, k: nat, n: nat, v: nat) {
    n > 1 && v < n && Exp(b, k, n) == v
  }

  lemma FirstPower(b: nat, n: nat)
    requires 0 < b < n
    ensures Power(b, 1, n, b)
  {
    assert Exp(b, 0, n) * b == b;
    ModUnique(b, 0, b, n);
  }

  /** One squaring, and one more factor for an odd exponent; `c` is the quotient
      of the division by the modulus. */
  lemma NextPower(b: nat, k: nat, n: nat, v: nat, w: nat, c: nat)
    requires Power(b, k / 2, n, v) && w < n
    requires c * n + w == if k % 2 == 0 then v * v else v * v * b
    ensures Power(b, k, n, w)
  {
    ExpAdd(b, k / 2, k / 2, n);
    if k % 2 == 0 {
      ModUnique(v * v, c, w, n);
    } else {
      ModTimes(v * v, b, n);
      ModUnique(v * v * b, c, w, n);
    }
  }

  lemma Apart(b: nat, k: nat, n: nat, v: nat, c: nat, d: nat)
    requires Power(b, k, n, v) && (v - 1) * c == d * n + 1
    ensures ApartFromOne(b, k, n)
  {
    ModUnique((v - 1) * c, d, 1, n);
    assert InverseLessOne(Exp(b, k, n), c, n);
  }

  /** The usual case: one prime factor above the square root. */
  lemma PrimeByFactor(n: nat, b: nat, f: nat, c: nat, d: nat)
    requires n > 1 && 0 < b < n < f * f && Prime(f)
    requires Power(b, f, n, 1) && (b - 1) * c == d * n + 1
    ensures Prime(n)
  {
    var fs := [f];
    assert Product(fs) == f by { assert fs[1..] == []; }
    FirstPower(b, n);
    ModUnique(f, 1, 0, f);
    Apart(b, 1, n, b, c, d);
    CertifiedPrime(n, b, fs);
  }

  /** Twice a prime. */
  lemma PrimeByTwice(n: nat, b: nat, f: nat, v: nat, c: nat, d: nat)
    requires n > 2 && n < (2 * f) * (2 * f) && Prime(f) && Divides(2, n - 1)
    requires Power(b, f, n, n - 1) && Power(b, 2, n, v) && (v - 1) * c == d * n + 1
    ensures Prime(n)
  {
    var fs := [2, f];
    assert Product([f]) == f;
    assert fs[1..] == [f];
    assert Product(fs) == 2 * f;
    ModUnique(2 * f, 2, 0, f);
    Apart(b, 2, n, v, c, d);
    MinusOne(b, f, n);
    CertifiedPrime(n, b, fs);
  }

  /** A power that is minus one: its square is one, and minus two has an
      inverse. */
  lemma MinusOne(b: nat, f: nat, n: nat)
    requires n > 2 && Divides(2, n - 1) && Power(b, f, n, n - 1)
    ensures ApartFromOne(b, f, n) && Exp(b, 2 * f, n) == 1
  {
    var h := (n - 1) / 2;
    assert n == 2 * h + 1;
    assert (n - 2) * h == (h - 1) * n + 1;
    Apart(b, f, n, n - 1, h, h - 1);
    assert (n - 1) * (n - 1) == (n - 2) * n + 1;
    NextPower(b, 2 * f, n, n - 1, 1, n - 2);
  }
}
