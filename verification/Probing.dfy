/** The probe sequence of the tracon table: `find_place` visits
    h, h+1, h+4, h+9, ... modulo the table size, until its 32-bit sum of a slot
    and a step wraps around.  This module says for which sizes the sequence is
    certain to leave any set of occupied slots that the 3/8 fill limit allows,
    and which slots the code visits before and after the sum wraps. */
module Probing {

  const WORD32: nat := 0x1_0000_0000
  /** After so many collisions the steps repeat. */
  const STEP_PERIOD: nat := 0x8000_0000

  /** The table sizes, in the order in which a table grows through them. */
  const S_PRIME: seq<nat> := [
    419, 1259, 3779, 11317, 33939, 101817, 305471, 916361, 2749067,
    8247199, 24741547, 74224603, 222673783, 668021359, 2004064039
  ]

  /** The largest number of entries kept in a table of `n` slots. */
  function Limit(n: nat): nat { n * 3 / 8 }

  /** Three eighths of the slots, rounded down. */
  lemma LimitIs(n: nat)
    ensures 8 * Limit(n) <= 3 * n < 8 * Limit(n) + 8
  {
  }

  /** The slot visited after `i` collisions by an entry whose hash is `h`. */
  function Probe(h: nat, i: nat, n: nat): (k: nat)
    requires n > 0
    ensures k < n
  {
    (h + i * i) % n
  }

  ghost predicate ReachesFree(occupied: set<nat>, h: nat, n: nat)
    requires n > 0
  {
    exists i: nat :: Probe(h, i, n) !in occupied
  }

  /** From every start, the probe sequence leaves every admissible set of
      occupied slots. */
  ghost predicate Escapes(n: nat)
    requires n > 0
  {
    forall occupied: set<nat>, h: nat :: |occupied| <= Limit(n) ==> ReachesFree(occupied, h, n)
  }

  // ---------- Arithmetic ----------

  predicate Divides(d: nat, n: int)
    requires d > 0
  {
    n % d == 0
  }

  ghost predicate Prime(n: nat) {
    n >= 2 && forall d: nat :: 1 < d < n ==> !Divides(d, n)
  }

  lemma ModUnique(x: int, q: int, r: int, n: nat)
    requires n > 0 && x == q * n + r && 0 <= r < n
    ensures x % n == r && x / n == q
  {
    var k := x / n - q;
    assert k * n == r - x % n by {
      assert x == (x / n) * n + x % n;
      assert k * n == (x / n) * n - q * n;
    }
    MultipleBetween(k, n);
  }

  lemma MultipleBetween(k: int, n: int)
    requires -n < k * n < n
    ensures k == 0
  {
    MulMono(1, k, n);
    MulMono(k, -1, n);
  }

  lemma MulMono(a: int, b: int, n: int)
    requires n >= 0
    ensures a <= b ==> a * n <= b * n
  {
    assert b * n - a * n == (b - a) * n;
  }

  lemma ModShift(x: int, k: int, n: nat)
    requires n > 0
    ensures (x + k * n) % n == x % n
  {
    var q := x / n;
    assert x + k * n == (q + k) * n + x % n by {
      assert x == q * n + x % n;
      assert (q + k) * n == q * n + k * n;
    }
    ModUnique(x + k * n, q + k, x % n, n);
  }

  lemma MultipleMod(k: int, n: nat)
    requires n > 0
    ensures Divides(n, k * n) && Divides(n, n * k)
  {
    ModUnique(k * n, k, 0, n);
    assert k * n == n * k;
  }

  /** Euclid's lemma, by descent on `a`. */
  lemma {:induction false} Euclid(p: nat, a: nat, b: int)
    requires Prime(p) && 0 < a < p && Divides(p, a * b)
    ensures Divides(p, b)
    decreases a
  {
    if a > 1 {
      var q, r := p / a, p % a;
      assert !Divides(a, p);
      var k := a * b / p;
      assert a * b == k * p;
      assert r * b == (b - q * k) * p by {
        assert r == p - q * a;
        assert r * b == p * b - (q * a) * b;
        assert (q * a) * b == q * (a * b) == q * (k * p) == (q * k) * p;
        assert (b - q * k) * p == b * p - (q * k) * p;
      }
      MultipleMod(b - q * k, p);
      Euclid(p, r, b);
    } else {
      assert a * b == b;
    }
  }

  // ---------- The sequence as the code computes it ----------

  /** The code adds 2i-1 to the previous slot and reduces only when the sum
      leaves the table; this is the same as squaring the collision number. */
  lemma ProbeStep(h: nat, i: nat, n: nat)
    requires n > 0
    ensures var k := Probe(h, i, n) + 2 * (i + 1) - 1;
            Probe(h, i + 1, n) == if k >= n then k % n else k
  {
    var x := h + i * i;
    var k := Probe(h, i, n) + 2 * (i + 1) - 1;
    assert h + (i + 1) * (i + 1) == x + 2 * (i + 1) - 1;
    assert x + 2 * (i + 1) - 1 == k + (x / n) * n;
    ModShift(k, x / n, n);
    if k < n { ModUnique(k, 0, k, n); }
  }

  /** The slot that the code visits next after the slot `key` and `coll`
      collisions: the step is added in 32 bits. */
  function Step(key: nat, coll: nat, n: nat): (k: nat)
    requires n > 0
    ensures k < n
  {
    (key + 2 * coll - 1) % WORD32 % n
  }

  /** The slot that the code visits after `i` collisions. */
  function Visit(h: nat, i: nat, n: nat): (k: nat)
    requires n > 0
    ensures k < n
  {
    if i == 0 then h % n else Step(Visit(h, i - 1, n), i, n)
  }

  /** As long as the sum cannot leave 32 bits, the code visits the probes. */
  lemma {:induction false} VisitIsProbe(h: nat, i: nat, n: nat)
    requires n > 0 && n + 2 * i <= WORD32 + 1
    ensures Visit(h, i, n) == Probe(h, i, n)
  {
    if i > 0 {
      VisitIsProbe(h, i - 1, n);
      ProbeStep(h, i - 1, n);
      var k := Visit(h, i - 1, n) + 2 * i - 1;
      ModUnique(k, 0, k, WORD32);
      if k < n { ModUnique(k, 0, k, n); }
    }
  }

  /** It does so for the first half of the probes at every listed size. */
  lemma FirstHalfFits(idx: nat, h: nat, i: nat)
    requires idx < |S_PRIME| && i <= (S_PRIME[idx] + 1) / 2
    ensures Visit(h, i, S_PRIME[idx]) == Probe(h, i, S_PRIME[idx])
  {
    assert S_PRIME[idx] <= 2004064039;
    VisitIsProbe(h, i, S_PRIME[idx]);
  }

  /** The collision counter wraps as well; the step does not notice. */
  lemma CounterWraps(key: nat, coll: nat, n: nat)
    requires n > 0
    ensures Step(key, coll, n) == Step(key, coll % WORD32, n)
  {
    var q, c := coll / WORD32, coll % WORD32;
    assert key + 2 * coll - 1 == key + 2 * c - 1 + (2 * q) * WORD32;
    ModShift(key + 2 * c - 1, 2 * q, WORD32);
  }

  lemma CountInStep(tries: nat)
    ensures (tries % WORD32 + 1) % WORD32 == (tries + 1) % WORD32
  {
    var q, c := tries / WORD32, tries % WORD32;
    assert tries + 1 == c + 1 + q * WORD32;
    ModShift(c + 1, q, WORD32);
  }

  // ---------- The visits repeat ----------

  lemma StepRepeats(key: nat, coll: nat, q: nat, n: nat)
    requires n > 0
    ensures Step(key, coll + q * STEP_PERIOD, n) == Step(key, coll, n)
  {
    ModShift(key + 2 * coll - 1, q, WORD32);
  }

  /** The same slot after numbers of collisions that differ by a multiple of the
      period: from there on the visits are the same. */
  lemma {:induction false} VisitRepeats(h: nat, i: nat, q: nat, d: nat, n: nat)
    requires n > 0 && Visit(h, i, n) == Visit(h, i + q * STEP_PERIOD, n)
    ensures Visit(h, i + d, n) == Visit(h, i + d + q * STEP_PERIOD, n)
    decreases d
  {
    if d > 0 {
      VisitRepeats(h, i, q, d - 1, n);
      StepRepeats(Visit(h, i + d - 1, n), i + d, q, n);
    }
  }

  /** The slots visited at the starts of the first `m` periods. */
  ghost function Starts(h: nat, m: nat, n: nat): set<nat>
    requires n > 0
  {
    set a: nat | a < m :: Visit(h, a * STEP_PERIOD, n)
  }

  ghost predicate SameStart(h: nat, a: nat, b: nat, n: nat)
    requires n > 0
  {
    Visit(h, a * STEP_PERIOD, n) == Visit(h, b * STEP_PERIOD, n)
  }

  lemma {:induction false} StartsCount(h: nat, m: nat, n: nat)
    requires n > 0 && forall a: nat, b: nat :: a < b < m ==> !SameStart(h, a, b, n)
    ensures |Starts(h, m, n)| == m
  {
    if m > 0 {
      StartsCount(h, m - 1, n);
      var last := Visit(h, (m - 1) * STEP_PERIOD, n);
      forall a: nat | a < m - 1
        ensures Visit(h, a * STEP_PERIOD, n) != last
      {
        assert !SameStart(h, a, m - 1, n);
      }
      assert Starts(h, m, n) == Starts(h, m - 1, n) + {last};
    }
  }

  ghost function AllSlots(n: nat): (s: set<nat>)
    ensures forall k: nat :: k in s <==> k < n
    ensures |s| == n
  {
    if n == 0 then {} else AllSlots(n - 1) + {n - 1}
  }

  /** Two of the first `n + 1` periods start at the same slot. */
  lemma SomeStartAgain(h: nat, n: nat) returns (a: nat, b: nat)
    requires n > 0
    ensures a < b <= n && SameStart(h, a, b, n)
  {
    if forall a: nat, b: nat :: a < b < n + 1 ==> !SameStart(h, a, b, n) {
      StartsCount(h, n + 1, n);
      SubsetSize(Starts(h, n + 1, n), AllSlots(n));
      assert false;
    }
    a, b :| a < b < n + 1 && SameStart(h, a, b, n);
  }

  /** Every slot that is ever visited is visited in the first `n` periods. */
  lemma VisitedEarly(h: nat, i: nat, n: nat) returns (j: nat)
    requires n > 0
    ensures j < n * STEP_PERIOD && Visit(h, j, n) == Visit(h, i, n)
  {
    var a, b := SomeStartAgain(h, n);
    j := VisitedBefore(h, i, n, a, b);
    MulMono(b, n, STEP_PERIOD);
  }

  lemma {:induction false} VisitedBefore(h: nat, i: nat, n: nat, a: nat, b: nat) returns (j: nat)
    requires n > 0 && a < b && SameStart(h, a, b, n)
    ensures j < b * STEP_PERIOD && Visit(h, j, n) == Visit(h, i, n)
    decreases i
  {
    if i < b * STEP_PERIOD {
      j := i;
    } else {
      var d := i - b * STEP_PERIOD;
      assert b * STEP_PERIOD == a * STEP_PERIOD + (b - a) * STEP_PERIOD;
      VisitRepeats(h, a * STEP_PERIOD, b - a, d, n);
      j := VisitedBefore(h, a * STEP_PERIOD + d, n, a, b);
    }
  }

  /** The sequence repeats after `n` probes. */
  lemma ProbePeriodic(h: nat, i: nat, k: nat, n: nat)
    requires n > 0
    ensures Probe(h, i + k * n, n) == Probe(h, i, n)
  {
    assert h + (i + k * n) * (i + k * n) == h + i * i + (2 * i * k + k * k * n) * n;
    ModShift(h + i * i, 2 * i * k + k * k * n, n);
  }

  lemma ProbeWraps(h: nat, j: nat, n: nat)
    requires n > 0
    ensures j % n < n && Probe(h, j, n) == Probe(h, j % n, n)
  {
    ProbePeriodic(h, j % n, j / n, n);
    assert j == j % n + (j / n) * n;
  }

  ghost function ProbeSet(h: nat, m: nat, n: nat): set<nat>
    requires n > 0
  {
    set i: nat | i < m :: Probe(h, i, n)
  }

  lemma {:induction false} SubsetSize(a: set<nat>, b: set<nat>)
    requires a <= b
    ensures |a| <= |b|
  {
    if a != {} {
      var x :| x in a;
      SubsetSize(a - {x}, b - {x});
    }
  }

  // ---------- When a probe sequence escapes ----------

  /** Another start shifts the sequence; what meets still meets. */
  lemma ShiftedProbe(h: nat, i: nat, j: nat, n: nat)
    requires n > 0
    ensures Probe(h, i, n) == Probe(h, j, n) <==> Probe(0, i, n) == Probe(0, j, n)
  {
    if Probe(0, i, n) == Probe(0, j, n) { AddMod(h, i * i, j * j, n); }
    var k: int := h;
    if Probe(h, i, n) == Probe(h, j, n) { AddMod(-k, k + i * i, k + j * j, n); }
  }

  lemma AddMod(h: int, x: int, y: int, n: nat)
    requires n > 0 && x % n == y % n
    ensures (h + x) % n == (h + y) % n
  {
    assert h + x == h + y + (x / n - y / n) * n;
    ModShift(h + y, x / n - y / n, n);
  }

  lemma SetPlus(s: set<nat>, x: nat)
    ensures |s + {x}| == |s| + if x in s then 0 else 1
  {
    if x in s { assert s + {x} == s; }
  }

  lemma {:induction false} ShiftedSize(h: nat, m: nat, n: nat)
    requires n > 0
    ensures |ProbeSet(h, m, n)| == |ProbeSet(0, m, n)|
  {
    if m > 0 {
      ShiftedSize(h, m - 1, n);
      var a, b := Probe(h, m - 1, n), Probe(0, m - 1, n);
      assert ProbeSet(h, m, n) == ProbeSet(h, m - 1, n) + {a};
      assert ProbeSet(0, m, n) == ProbeSet(0, m - 1, n) + {b};
      ShiftedMember(h, m - 1, n);
      SetPlus(ProbeSet(h, m - 1, n), a);
      SetPlus(ProbeSet(0, m - 1, n), b);
    }
  }

  lemma ShiftedMember(h: nat, m: nat, n: nat)
    requires n > 0
    ensures Probe(h, m, n) in ProbeSet(h, m, n) <==> Probe(0, m, n) in ProbeSet(0, m, n)
  {
    if Probe(h, m, n) in ProbeSet(h, m, n) {
      var i: nat :| i < m && Probe(h, i, n) == Probe(h, m, n);
      ShiftedProbe(h, i, m, n);
      assert Probe(0, i, n) in ProbeSet(0, m, n);
    }
    if Probe(0, m, n) in ProbeSet(0, m, n) {
      var i: nat :| i < m && Probe(0, i, n) == Probe(0, m, n);
      ShiftedProbe(h, i, m, n);
      assert Probe(h, i, n) in ProbeSet(h, m, n);
    }
  }

  /** A size is safe exactly when a sequence visits more slots than the limit
      lets be occupied. */
  lemma EscapesExactly(n: nat)
    requires n > 0
    ensures Escapes(n) <==> |ProbeSet(0, n, n)| > Limit(n)
  {
    if |ProbeSet(0, n, n)| > Limit(n) {
      forall occupied: set<nat>, h: nat | |occupied| <= Limit(n)
        ensures ReachesFree(occupied, h, n)
      {
        if !ReachesFree(occupied, h, n) {
          ShiftedSize(h, n, n);
          SubsetSize(ProbeSet(h, n, n), occupied);
          assert false;
        }
      }
    } else {
      forall i: nat
        ensures Probe(0, i, n) in ProbeSet(0, n, n)
      {
        ProbeWraps(0, i, n);
      }
      assert !ReachesFree(ProbeSet(0, n, n), 0, n);
    }
  }

  // ---------- Prime sizes ----------

  /** The first (p+1)/2 probes of a prime-sized table are distinct. */
  lemma ProbesDistinct(p: nat, h: nat, i: nat, j: nat)
    requires Prime(p) && i < j <= (p - 1) / 2
    ensures Probe(h, i, p) != Probe(h, j, p)
  {
    if Probe(h, i, p) == Probe(h, j, p) {
      var x, y := h + i * i, h + j * j;
      assert (j - i) * (j + i) == y - x == (y / p - x / p) * p by {
        assert y == (y / p) * p + y % p && x == (x / p) * p + x % p;
        assert (y / p) * p - (x / p) * p == (y / p - x / p) * p;
        assert (j - i) * (j + i) == j * j - i * i;
      }
      MultipleMod(y / p - x / p, p);
      Euclid(p, j - i, j + i);
      ModUnique(j + i, 0, j + i, p);
      assert false;
    }
  }

  lemma {:induction false} ProbeSetSize(p: nat, h: nat, m: nat)
    requires Prime(p) && m <= (p + 1) / 2
    ensures |ProbeSet(h, m, p)| == m
  {
    if m > 0 {
      ProbeSetSize(p, h, m - 1);
      var last := Probe(h, m - 1, p);
      forall i: nat | i < m - 1 ensures Probe(h, i, p) != last {
        ProbesDistinct(p, h, i, m - 1);
      }
      assert ProbeSet(h, m, p) == ProbeSet(h, m - 1, p) + {last};
    }
  }

  /** A prime-sized table filled to at most 3/8 never traps a probe. */
  lemma PrimeEscapes(p: nat)
    requires Prime(p)
    ensures Escapes(p)
  {
    forall occupied: set<nat>, h: nat | |occupied| <= Limit(p)
      ensures ReachesFree(occupied, h, p)
    {
      var m := (p + 1) / 2;
      if !ReachesFree(occupied, h, p) {
        ProbeSetSize(p, h, m);
        SubsetSize(ProbeSet(h, m, p), occupied);
        assert false;
      }
    }
  }

  /** None of the fifteen numbers from `lo` divides `n`. */
  predicate Indivisible(n: nat, lo: nat)
    requires lo > 0
  {
    && n % lo != 0 && n % (lo + 1) != 0 && n % (lo + 2) != 0 && n % (lo + 3) != 0 && n % (lo + 4) != 0
    && n % (lo + 5) != 0 && n % (lo + 6) != 0 && n % (lo + 7) != 0 && n % (lo + 8) != 0 && n % (lo + 9) != 0
    && n % (lo + 10) != 0 && n % (lo + 11) != 0 && n % (lo + 12) != 0 && n % (lo + 13) != 0 && n % (lo + 14) != 0
  }

  lemma CoFactor(n: nat, d: nat, r: nat) returns (e: nat)
    requires 0 < d < n && Divides(d, n) && n < r * r && d >= r
    ensures 1 < e < r && Divides(e, n)
  {
    e := n / d;
    assert n == e * d;
    assert e != 0;
    MultipleMod(d, e);
    MulMono(e, 1, d);
    MulMono(r, e, d);
    MulMono(r, d, r);
  }

  lemma IndivisibleBy(n: nat, lo: nat, d: nat)
    requires lo > 0 && Indivisible(n, lo) && lo <= d < lo + 15
    ensures !Divides(d, n)
  {
  }

  /** Trial division below `r`, fifteen divisors at a time. */
  predicate Sieved(n: nat, r: nat) {
    r <= 2 || (r >= 17 && Sieved(n, r - 15) && Indivisible(n, r - 15))
  }

  lemma {:induction false} SievedBy(n: nat, r: nat, d: nat)
    requires Sieved(n, r) && 1 < d < r
    ensures !Divides(d, n)
  {
    if d >= r - 15 { IndivisibleBy(n, r - 15, d); } else { SievedBy(n, r - 15, d); }
  }

  /** Trial division up to the square root decides primality. */
  lemma PrimeBySqrt(n: nat, r: nat)
    requires n >= 2 && n < r * r && Sieved(n, r)
    ensures Prime(n)
  {
    forall d: nat | 1 < d < n
      ensures !Divides(d, n)
    {
      if Divides(d, n) {
        var e := d;
        if d >= r { e := CoFactor(n, d, r); }
        SievedBy(n, r, e);
        assert false;
      }
    }
  }

  lemma SmallPrimes()
    ensures Prime(419) && Prime(1259) && Prime(3779)
  {
    assert Sieved(419, 17) && Sieved(419, 32);
    PrimeBySqrt(419, 32);
    assert Sieved(1259, 17) && Sieved(1259, 32) && Sieved(1259, 47);
    PrimeBySqrt(1259, 47);
    assert Sieved(3779, 17) && Sieved(3779, 32) && Sieved(3779, 47) && Sieved(3779, 62);
    PrimeBySqrt(3779, 62);
  }

  lemma FourthPrime()
    ensures Prime(11317)
  {
    assert Sieved(11317, 17) && Sieved(11317, 32) && Sieved(11317, 47) && Sieved(11317, 62);
    assert Sieved(11317, 77) && Sieved(11317, 92) && Sieved(11317, 107);
    PrimeBySqrt(11317, 107);
  }

  /** The sizes a table takes before its fifth one are prime. */
  lemma FirstSizesPrime(k: nat)
    requires k < 4
    ensures Prime(S_PRIME[k]) && Escapes(S_PRIME[k])
  {
    SmallPrimes();
    FourthPrime();
    PrimeEscapes(S_PRIME[k]);
  }

  // ---------- The two composite sizes ----------

  // A listed size of the form q * 419 has so few squares that a table within
  // its fill limit can occupy all of them.  e1 and e2 are the idempotents of
  // the two factors; `Trap` lists the squares.

  ghost predicate Idempotents(q: nat, e1: nat, e2: nat) {
    && q > 0
    && e1 % 419 == 0
    && e2 % q == 0
    && (e1 + e2 - 1) % (q * 419) == 0
  }

  ghost function Trap(q: nat, e1: nat, e2: nat, t: nat): nat
    requires q > 0
  {
    ((t / 210) * (t / 210) * e1 + (t % 210) * (t % 210) * e2) % (q * 419)
  }

  ghost function TrapSet(q: nat, e1: nat, e2: nat, m: nat): set<nat>
    requires q > 0
  {
    set t: nat | t < m :: Trap(q, e1, e2, t)
  }

  lemma {:induction false} TrapSetSize(q: nat, e1: nat, e2: nat, m: nat)
    requires q > 0
    ensures |TrapSet(q, e1, e2, m)| <= m
  {
    if m > 0 {
      TrapSetSize(q, e1, e2, m - 1);
      assert TrapSet(q, e1, e2, m) == TrapSet(q, e1, e2, m - 1) + {Trap(q, e1, e2, m - 1)};
    }
  }

  /** x or -x has a representative in the lower half modulo q. */
  lemma Fold(x: nat, q: nat) returns (a: nat, k: int)
    requires q > 0
    ensures a <= q / 2 && a * a - x * x == k * q
  {
    var d, r := x / q, x % q;
    if r <= q / 2 {
      a, k := r, -d * (r + x);
      assert a - x == -d * q;
      assert a * a - x * x == (a - x) * (a + x) == (-d * q) * (r + x) == k * q;
    } else {
      a, k := q - r, (d + 1) * (q - r - x);
      assert a + x == (d + 1) * q by { assert x == d * q + r; assert (d + 1) * q == d * q + q; }
      assert a * a - x * x == (a - x) * (a + x) == (a - x) * ((d + 1) * q) == k * q;
    }
  }

  lemma TrapAlgebra(q: int, a2: int, b2: int, x2: int, k: int, l: int, f1: int, f2: int, c: int)
    requires a2 - x2 == k * q && b2 - x2 == l * 419
    requires f1 * 419 + f2 * q - 1 == c * (q * 419)
    ensures a2 * (f1 * 419) + b2 * (f2 * q) == x2 + (k * f1 + l * f2 + x2 * c) * (q * 419)
  {
    var n := q * 419;
    calc {
      a2 * (f1 * 419) + b2 * (f2 * q);
      (x2 + k * q) * (f1 * 419) + (x2 + l * 419) * (f2 * q);
      x2 * (f1 * 419 + f2 * q) + (k * q) * (f1 * 419) + (l * 419) * (f2 * q);
      { assert (k * q) * (f1 * 419) == (k * f1) * n; assert (l * 419) * (f2 * q) == (l * f2) * n; }
      x2 * (1 + c * n) + (k * f1) * n + (l * f2) * n;
      { assert x2 * (c * n) == (x2 * c) * n; }
      x2 + (k * f1 + l * f2 + x2 * c) * n;
    }
  }

  lemma SquareInTrap(q: nat, e1: nat, e2: nat, x: nat)
    requires Idempotents(q, e1, e2)
    ensures Probe(0, x, q * 419) in TrapSet(q, e1, e2, (q / 2 + 1) * 210)
  {
    var n := q * 419;
    var a, k := Fold(x, q);
    var b, l := Fold(x, 419);
    var t := a * 210 + b;
    ModUnique(t, a, b, 210);
    var f1, f2, c := e1 / 419, e2 / q, (e1 + e2 - 1) / n;
    assert e1 == f1 * 419 && e2 == f2 * q && e1 + e2 - 1 == c * n;
    TrapAlgebra(q, a * a, b * b, x * x, k, l, f1, f2, c);
    TrapHit(q, e1, e2, t, x, k * f1 + l * f2 + x * x * c);
    assert t < (q / 2 + 1) * 210;
  }

  lemma TrapHit(q: nat, e1: nat, e2: nat, t: nat, x: nat, k: int)
    requires q > 0
    requires (t / 210) * (t / 210) * e1 + (t % 210) * (t % 210) * e2 == x * x + k * (q * 419)
    ensures Trap(q, e1, e2, t) == Probe(0, x, q * 419)
  {
    ModShift(x * x, k, q * 419);
  }

  lemma CompositeTraps(q: nat, e1: nat, e2: nat)
    requires Idempotents(q, e1, e2)
    requires (q / 2 + 1) * 210 <= Limit(q * 419)
    ensures !Escapes(q * 419)
  {
    var occupied := TrapSet(q, e1, e2, (q / 2 + 1) * 210);
    TrapSetSize(q, e1, e2, (q / 2 + 1) * 210);
    forall i: nat ensures Probe(0, i, q * 419) in occupied {
      SquareInTrap(q, e1, e2, i);
    }
    assert !ReachesFree(occupied, 0, q * 419);
  }

  /** The fifth and sixth listed sizes, 81*419 and 243*419, are not prime, and
      a table of either size that respects the fill limit can hold every slot
      of a probe sequence. */
  lemma CompositeSizesTrap()
    ensures !Prime(S_PRIME[4]) && !Escapes(S_PRIME[4])
    ensures !Prime(S_PRIME[5]) && !Escapes(S_PRIME[5])
  {
    assert Divides(3, 33939) && Divides(3, 101817);
    CompositeTraps(81, 12151, 21789);
    CompositeTraps(243, 12151, 89667);
  }
}
