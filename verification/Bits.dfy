/** Operations on the bits of non-negative numbers. */
module Bits {
  import Probing

  function Pow2(k: nat): (p: nat)
    ensures p > 0
  {
    if k == 0 then 1 else 2 * Pow2(k - 1)
  }

  ghost predicate PowerOfTwo(n: nat) {
    exists k: nat :: Pow2(k) == n
  }

  lemma {:induction false} Pow2Mono(j: nat, k: nat)
    requires j <= k
    ensures Pow2(j) <= Pow2(k)
  {
    if j < k { Pow2Mono(j, k - 1); }
  }

  function ShiftRight(x: nat, k: nat): nat
    decreases k
  {
    if k == 0 then x else ShiftRight(x / 2, k - 1)
  }

  /** Exclusive or. */
  function Xor(a: nat, b: nat): nat
    decreases a + b
  {
    if a == 0 && b == 0 then 0
    else (if a % 2 == b % 2 then 0 else 1) + 2 * Xor(a / 2, b / 2)
  }

  function And(a: nat, b: nat): (r: nat)
    ensures r <= b
    decreases a
  {
    if a == 0 || b == 0 then 0
    else (if a % 2 == 1 && b % 2 == 1 then 1 else 0) + 2 * And(a / 2, b / 2)
  }

  /** Masking with a power of two less one is taking the remainder. */
  lemma {:induction false} MaskIsMod(a: nat, k: nat)
    ensures And(a, Pow2(k) - 1) == a % Pow2(k)
  {
    if k > 0 {
      var p := Pow2(k - 1);
      MaskIsMod(a / 2, k - 1);
      HalfMod(a, p);
      assert (2 * p - 1) / 2 == p - 1;
    }
  }

  lemma HalfMod(a: nat, p: nat)
    requires p > 0
    ensures a % (2 * p) == a % 2 + 2 * (a / 2 % p)
  {
    var q, r := a / 2 / p, a / 2 % p;
    assert a / 2 == q * p + r;
    assert q * (2 * p) == 2 * (q * p);
    Probing.ModUnique(a, q, a % 2 + 2 * r, 2 * p);
  }

  /** The next slot around a table whose size is a power of two. */
  lemma MaskNext(i: nat, size: nat)
    requires i < size && PowerOfTwo(size)
    ensures And(i + 1, size - 1) == if i + 1 < size then i + 1 else 0
  {
    var k: nat :| Pow2(k) == size;
    MaskIsMod(i + 1, k);
    if i + 1 < size {
      Probing.ModUnique(i + 1, 0, i + 1, size);
    } else {
      Probing.ModUnique(i + 1, 1, 0, size);
    }
  }
}
