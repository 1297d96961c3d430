/** The elimination of duplicates in place: a list threaded through an array of
    disjuncts, and a hash table whose buckets are threaded through it too. */
module DuplicateTable {
  import opened Bits
  import opened Connectors
  import opened Probing
  import opened TraconSets
  import opened Duplicates

  // ---------- Hashing ----------

  /** A plain char as a number: it is signed on common targets. */
  function CharCode(c: char): int {
    if (c as int) < 128 then c as int else c as int - 256
  }

  function StringHash(s: string): nat {
    if s == [] then 5381
    else (StringHash(s[..|s| - 1]) * 33 + CharCode(s[|s| - 1])) % WORD32
  }

  function JetHash(s: seq<Con>): nat {
    if s == [] then 0 else ListHash(s)
  }

  /** The hash kept with a disjunct. */
  function KeyHash(v: Value): nat {
    (JetHash(v.left) + 19 * JetHash(v.right) + StringHash(v.wordString)) % WORD32
  }

  /** The high bits of a product, fed back to the low ones. */
  function Feedback(hash: nat, shift: nat): nat {
    var x := hash * FIBONACCI_MULT % WORD32;
    Xor(x, ShiftRight(x, shift))
  }

  /** The slot of a hash in a table whose size is a power of two. */
  function SlotOf(hash: nat, size: nat, shift: nat): (h: nat)
    requires size > 0
    ensures h < size
  {
    hide Feedback;
    And(Feedback(hash, shift), size - 1)
  }

  /** The hashes of three strings, and of a disjunct. */
  lemma HashExample()
    ensures StringHash("a") == 177670 && StringHash("ab") == 5863208 && StringHash(['\U{E9}']) == 177550
    ensures var a, b := Con(Desc(5, 1), true), Con(Desc(7, 2), false);
            KeyHash(Value([a], [b], "a", 0.0, {}, At(0), At(1))) == 177947
  {
    assert "ab"[..1] == "a";
    var none: string := [];
    assert StringHash(none) == 5381;
    assert "a"[..0] == none && ['\U{E9}'][..0] == none;
  }

  /** The slot of a hash among sixteen. */
  lemma SlotExample(hash: nat, shift: nat)
    requires hash == 177947 && shift == 28
    ensures SlotOf(hash, 16, shift) == 7
  {
    hide SlotOf;
    var x, y := hash * FIBONACCI_MULT % WORD32, 4;
    assert x == 1263474051;
    assert ShiftRight(x, shift) == y by { ShiftExample(); }
    assert Xor(x, y) == 1263474055 by { XorExample(); }
    SlotAmong16(hash, shift, x, y, Xor(x, y));
  }

  lemma SlotAmong16(hash: nat, shift: nat, x: nat, y: nat, z: nat)
    requires hash * FIBONACCI_MULT % WORD32 == x && ShiftRight(x, shift) == y && Xor(x, y) == z
    ensures SlotOf(hash, 16, shift) == z % 16
  {
    MaskIsMod(z, 4);
    assert Pow2(4) == 16;
  }

  lemma ShiftExample()
    ensures ShiftRight(1263474051, 28) == 4
  {
    assert ShiftRight(75, 4) == 4;
    assert ShiftRight(1204, 8) == ShiftRight(75, 4);
    assert ShiftRight(19279, 12) == ShiftRight(1204, 8);
    assert ShiftRight(308465, 16) == ShiftRight(19279, 12);
    assert ShiftRight(4935445, 20) == ShiftRight(308465, 16);
    assert ShiftRight(78967128, 24) == ShiftRight(4935445, 20);
  }

  lemma XorExample()
    ensures Xor(1263474051, 4) == 1263474055
  {
    SameXor(157934256);
    assert Xor(157934256, 0) == 157934256;
    assert Xor(315868512, 1) == 1 + 2 * Xor(157934256, 0);
    assert Xor(631737025, 2) == 1 + 2 * Xor(315868512, 1);
  }

  lemma {:induction false} SameXor(a: nat)
    ensures Xor(a, 0) == a
  {
    if a > 0 { SameXor(a / 2); }
  }

  method HashString(s: string) returns (i: nat)
    ensures i == StringHash(s)
  {
    i := 5381;
    for k := 0 to |s|
      invariant i == StringHash(s[..k])
    {
      assert s[..k + 1][..k] == s[..k];
      i := (i * 33 + CharCode(s[k])) % WORD32;
    }
    assert s[..|s|] == s;
  }

  method NextPowerOfTwoUp(i: nat) returns (j: nat, ghost k: nat)
    ensures j == Pow2(k) && i <= j && (k > 0 ==> Pow2(k - 1) < i)
  {
    j, k := 1, 0;
    while j < i
      invariant j == Pow2(k) && (k > 0 ==> Pow2(k - 1) < i)
      decreases i - j
    {
      j, k := 2 * j, k + 1;
    }
  }

  method Log2(i: nat, ghost k: nat) returns (n: nat)
    requires i == Pow2(k)
    ensures n == k
  {
    n := 0;
    var r := i / 2;
    while r > 0
      invariant n <= k
      invariant r == Pow2(k - n) / 2
      decreases r
    {
      assert k > n;
      n := n + 1;
      r := r / 2;
    }
  }

  // ---------- Lists through the array ----------

  ghost predicate IsSpelled(mem: seq<Cell>, p: Ptr) {
    exists s :: Spells(mem, p, s)
  }

  ghost function ListOf(mem: seq<Cell>, p: Ptr): (s: seq<Con>)
    requires IsSpelled(mem, p)
    ensures Spells(mem, p, s)
  {
    var s :| Spells(mem, p, s);
    s
  }

  ghost predicate NodeOk(mem: seq<Cell>, n: Node) {
    IsSpelled(mem, n.left) && IsSpelled(mem, n.right)
  }

  ghost function ValueOf(mem: seq<Cell>, n: Node): Value
    requires NodeOk(mem, n)
  {
    Value(ListOf(mem, n.left), ListOf(mem, n.right), n.wordString, n.cost, n.gwords, n.left, n.right)
  }

  ghost predicate NodesOk(mem: seq<Cell>, nodes: seq<Node>) {
    forall i: nat :: i < |nodes| ==> NodeOk(mem, nodes[i])
  }

  ghost predicate Inside(idxs: seq<nat>, nodes: seq<Node>) {
    forall k: nat :: k < |idxs| ==> idxs[k] < |nodes|
  }

  ghost function Values(mem: seq<Cell>, nodes: seq<Node>, idxs: seq<nat>): (vs: seq<Value>)
    requires NodesOk(mem, nodes) && Inside(idxs, nodes)
    ensures |vs| == |idxs|
  {
    seq(|idxs|, k requires 0 <= k < |idxs| => ValueOf(mem, nodes[idxs[k]]))
  }

  /** The `k`th of the elements, or NULL. */
  function LinkAt(idxs: seq<nat>, k: nat): Ptr {
    if k < |idxs| then At(idxs[k]) else Null
  }

  /** The `next` links from `p` on run through these elements. */
  ghost predicate Listed(nodes: seq<Node>, p: Ptr, idxs: seq<nat>) {
    && p == LinkAt(idxs, 0)
    && Inside(idxs, nodes)
    && forall k: nat :: k < |idxs| ==> nodes[idxs[k]].next == LinkAt(idxs, k + 1)
  }

  ghost predicate Distinct(idxs: seq<nat>) {
    forall i: nat, j: nat :: i < j < |idxs| ==> idxs[i] != idxs[j]
  }

  // ---------- The table ----------

  /** Which of the kept disjuncts hash to slot `h`, the latest first. */
  ghost function Bucket(vs: seq<Value>, size: nat, shift: nat, h: nat): (b: seq<nat>)
    requires size > 0
    ensures forall k: nat :: k < |b| ==> b[k] < |vs|
  {
    if vs == [] then []
    else
      var n := |vs| - 1;
      var rest := Bucket(vs[..n], size, shift, h);
      if SlotOf(KeyHash(vs[n]), size, shift) == h then [n] + rest else rest
  }

  /** Merging changes no key, hence no bucket. */
  lemma {:induction false} BucketSame(vs: seq<Value>, vs': seq<Value>, size: nat, shift: nat, h: nat)
    requires |vs| == |vs'| && size > 0
    requires forall k: nat :: k < |vs| ==> SameKey(vs[k], vs'[k])
    ensures Bucket(vs, size, shift, h) == Bucket(vs', size, shift, h)
  {
    if vs != [] {
      var n := |vs| - 1;
      BucketSame(vs[..n], vs'[..n], size, shift, h);
      assert SameKey(vs[n], vs'[n]);
    }
  }

  /** None of the first `j` in the bucket equals `v`. */
  ghost predicate Missed(vs: seq<Value>, b: seq<nat>, v: Value, j: nat) {
    forall m: nat :: m < j && m < |b| && b[m] < |vs| ==> !Equal(vs[b[m]], v)
  }

  /** The bucket of `v`'s slot tells all: the first in it that equals `v` is the
      last kept disjunct that does. */
  lemma {:induction false} BucketFinds(vs: seq<Value>, size: nat, shift: nat, h: nat, v: Value, j: nat)
    requires size > 0 && h == SlotOf(KeyHash(v), size, shift)
    requires var b := Bucket(vs, size, shift, h);
             j <= |b| && Missed(vs, b, v, j) && (j < |b| ==> Equal(vs[b[j]], v))
    ensures var b := Bucket(vs, size, shift, h);
            LastEqual(vs, v) == if j < |b| then b[j] + 1 else 0
  {
    hide SlotOf, KeyHash, Equal, Missed;
    if vs != [] {
      var n := |vs| - 1;
      var b, rest := Bucket(vs, size, shift, h), Bucket(vs[..n], size, shift, h);
      if SlotOf(KeyHash(vs[n]), size, shift) != h {
        assert b == rest && b[0..] == b;
        OtherSlot(vs[n], v);
        MissedRest(vs, b, rest, v, j, 0);
        BucketFinds(vs[..n], size, shift, h, v, j);
      } else if j > 0 {
        assert b == [n] + rest;
        MissedFirst(vs, b, v, j);
        MissedRest(vs, b, rest, v, j, 1);
        BucketFinds(vs[..n], size, shift, h, v, j - 1);
      }
    }
  }

  lemma MissedFirst(vs: seq<Value>, b: seq<nat>, v: Value, j: nat)
    requires 0 < j <= |b| && b[0] < |vs| && Missed(vs, b, v, j)
    ensures !Equal(vs[b[0]], v)
  {
  }

  lemma OtherSlot(a: Value, v: Value)
    ensures KeyHash(a) != KeyHash(v) ==> !Equal(a, v)
  {
  }

  lemma MissedRest(vs: seq<Value>, b: seq<nat>, rest: seq<nat>, v: Value, j: nat, drop: nat)
    requires vs != [] && drop <= j <= |b| && b[drop..] == rest
    requires Missed(vs, b, v, j)
    ensures Missed(vs[..|vs| - 1], rest, v, j - drop)
  {
    forall m: nat | m < j - drop && m < |rest| && rest[m] < |vs| - 1
      ensures !Equal(vs[..|vs| - 1][rest[m]], v)
    {
      assert rest[m] == b[m + drop];
    }
  }

  /** The node at the `j`th place of a bucket, or NULL. */
  ghost function BucketLink(kept: seq<nat>, b: seq<nat>, j: nat): Ptr {
    if j < |b| && b[j] < |kept| then At(kept[b[j]]) else Null
  }

  /** The links of a bucket, from `p` on. */
  ghost predicate Bucketed(nodes: seq<Node>, p: Ptr, kept: seq<nat>, b: seq<nat>) {
    && p == BucketLink(kept, b, 0)
    && forall j: nat :: j < |b| ==>
         b[j] < |kept| && kept[b[j]] < |nodes| && nodes[kept[b[j]]].dupNext == BucketLink(kept, b, j + 1)
  }

  ghost predicate HashesKept(nodes: seq<Node>, kept: seq<nat>, vs: seq<Value>)
    requires |kept| == |vs| && Inside(kept, nodes)
  {
    forall k: nat :: k < |kept| ==> nodes[kept[k]].dupHash == KeyHash(vs[k])
  }

  /** The table holds what has been kept. */
  ghost predicate TableOk(nodes: seq<Node>, table: seq<Ptr>, kept: seq<nat>, vs: seq<Value>, shift: nat) {
    && |kept| == |vs|
    && |table| > 0
    && Inside(kept, nodes)
    && HashesKept(nodes, kept, vs)
    && forall h: nat :: h < |table| ==> Bucketed(nodes, table[h], kept, Bucket(vs, |table|, shift, h))
  }

  // ---------- Steps on values ----------

  /** Bypass the element after the last kept one. */
  lemma Unlink(nodes: seq<Node>, p: Ptr, kept: seq<nat>, rest: seq<nat>)
    requires kept != [] && rest != [] && Listed(nodes, p, kept + rest) && Distinct(kept + rest)
    ensures var last := kept[|kept| - 1];
            last < |nodes| && rest[0] < |nodes|
            && Listed(nodes[last := nodes[last].(next := nodes[rest[0]].next)], p, kept + rest[1..])
  {
    var all, fewer := kept + rest, kept + rest[1..];
    var n := |kept|;
    assert all[n - 1] == kept[n - 1] && all[n] == rest[0];
    var nodes' := nodes[kept[n - 1] := nodes[kept[n - 1]].(next := nodes[rest[0]].next)];
    forall k: nat | k < |fewer|
      ensures fewer[k] < |nodes'| && nodes'[fewer[k]].next == LinkAt(fewer, k + 1)
    {
      if k < n { assert fewer[k] == all[k]; } else { assert fewer[k] == all[k + 1]; }
    }
  }

  lemma FewerDistinct(kept: seq<nat>, rest: seq<nat>)
    requires rest != [] && Distinct(kept + rest)
    ensures Distinct(kept + rest[1..])
  {
    var all, fewer, n := kept + rest, kept + rest[1..], |kept|;
    forall i: nat, j: nat | i < j < |fewer|
      ensures fewer[i] != fewer[j]
    {
      assert fewer[i] == all[if i < n then i else i + 1];
      assert fewer[j] == all[if j < n then j else j + 1];
    }
  }

  /** Nothing is relinked when other fields change. */
  ghost predicate SameNext(nodes: seq<Node>, nodes': seq<Node>) {
    |nodes'| == |nodes| && forall i: nat :: i < |nodes| ==> nodes'[i].next == nodes[i].next
  }

  lemma ListedSame(nodes: seq<Node>, nodes': seq<Node>, p: Ptr, idxs: seq<nat>)
    requires SameNext(nodes, nodes') && Listed(nodes, p, idxs)
    ensures Listed(nodes', p, idxs)
  {
  }

  /** Nodes keep their place in the table, and their hash. */
  ghost predicate SameDup(nodes: seq<Node>, nodes': seq<Node>, idxs: seq<nat>) {
    && |nodes'| == |nodes|
    && Inside(idxs, nodes)
    && forall k: nat :: k < |idxs| ==>
         nodes'[idxs[k]].dupNext == nodes[idxs[k]].dupNext && nodes'[idxs[k]].dupHash == nodes[idxs[k]].dupHash
  }

  lemma TableSame(nodes: seq<Node>, nodes': seq<Node>, table: seq<Ptr>, kept: seq<nat>, vs: seq<Value>, vs': seq<Value>,
                  shift: nat)
    requires TableOk(nodes, table, kept, vs, shift) && SameDup(nodes, nodes', kept)
    requires |vs'| == |vs| && forall k: nat :: k < |vs| ==> SameKey(vs[k], vs'[k])
    ensures TableOk(nodes', table, kept, vs', shift)
  {
    hide SlotOf;
    forall k: nat | k < |kept|
      ensures nodes'[kept[k]].dupHash == KeyHash(vs'[k])
    {
      assert SameKey(vs[k], vs'[k]);
    }
    forall h: nat | h < |table|
      ensures Bucketed(nodes', table[h], kept, Bucket(vs', |table|, shift, h))
    {
      BucketSame(vs, vs', |table|, shift, h);
      assert Bucketed(nodes, table[h], kept, Bucket(vs, |table|, shift, h));
    }
  }

  /** A new disjunct goes to the front of its bucket. */
  lemma TableAdd(nodes: seq<Node>, nodes': seq<Node>, table: seq<Ptr>, kept: seq<nat>, vs: seq<Value>, shift: nat,
                 d: nat, v: Value)
    requires TableOk(nodes, table, kept, vs, shift) && SameDup(nodes, nodes', kept)
    requires d < |nodes| && nodes'[d].dupHash == KeyHash(v)
    requires nodes'[d].dupNext == table[SlotOf(KeyHash(v), |table|, shift)]
    ensures TableOk(nodes', table[SlotOf(KeyHash(v), |table|, shift) := At(d)], kept + [d], vs + [v], shift)
  {
    hide SlotOf, KeyHash, Bucketed;
    var h0 := SlotOf(KeyHash(v), |table|, shift);
    forall h: nat | h < |table|
      ensures Bucketed(nodes', table[h0 := At(d)][h], kept + [d], Bucket(vs + [v], |table|, shift, h))
    {
      var b := Bucket(vs, |table|, shift, h);
      BucketSnoc(vs, v, |table|, shift, h);
      BucketGrows(nodes, nodes', table[h], kept, b, d);
      if h == h0 { BucketFront(nodes', table[h], kept, b, d); }
    }
  }

  lemma BucketSnoc(vs: seq<Value>, v: Value, size: nat, shift: nat, h: nat)
    requires size > 0
    ensures Bucket(vs + [v], size, shift, h)
         == if SlotOf(KeyHash(v), size, shift) == h then [|vs|] + Bucket(vs, size, shift, h) else Bucket(vs, size, shift, h)
  {
    hide SlotOf, KeyHash;
    assert (vs + [v])[..|vs|] == vs;
  }

  lemma BucketGrows(nodes: seq<Node>, nodes': seq<Node>, p: Ptr, kept: seq<nat>, b: seq<nat>, d: nat)
    requires Bucketed(nodes, p, kept, b) && SameDup(nodes, nodes', kept)
    ensures Bucketed(nodes', p, kept + [d], b)
  {
    forall j: nat | j <= |b|
      ensures BucketLink(kept + [d], b, j) == BucketLink(kept, b, j)
    {
    }
  }

  lemma BucketFront(nodes: seq<Node>, p: Ptr, kept: seq<nat>, b: seq<nat>, d: nat)
    requires Bucketed(nodes, p, kept + [d], b) && d < |nodes| && nodes[d].dupNext == p
    ensures Bucketed(nodes, At(d), kept + [d], [|kept|] + b)
  {
    var all := [|kept|] + b;
    forall j: nat | j < |all|
      ensures BucketLink(kept + [d], all, j + 1) == BucketLink(kept + [d], b, j)
    {
    }
  }

  // ---------- The loop ----------

  /** After the first `i` disjuncts of the list `all`, whose values were `vs`:
      the kept ones are linked to those still to come, they are what the simple
      form keeps, and the table holds them. */
  ghost predicate Mid(mem: seq<Cell>, nodes: seq<Node>, table: seq<Ptr>, dw: Ptr, all: seq<nat>, vs: seq<Value>,
                      i: nat, kept: seq<nat>, shift: nat) {
    && NodesOk(mem, nodes)
    && i <= |all| == |vs|
    && Listed(nodes, dw, kept + all[i..])
    && Inside(kept, nodes)
    && Inside(all[i..], nodes)
    && Among(kept, all)
    && Distinct(kept + all[i..])
    && Values(mem, nodes, kept) == Scan(vs[..i])
    && Values(mem, nodes, all[i..]) == vs[i..]
    && TableOk(nodes, table, kept, Scan(vs[..i]), shift)
  }

  ghost predicate Among(kept: seq<nat>, all: seq<nat>) {
    forall k: nat :: k < |kept| ==> kept[k] in all
  }

  /** Only links and hashes differ. */
  ghost predicate SameValues(nodes: seq<Node>, nodes': seq<Node>) {
    && |nodes'| == |nodes|
    && forall i: nat :: i < |nodes| ==>
         nodes'[i] == nodes[i].(next := nodes'[i].next, dupNext := nodes'[i].dupNext, dupHash := nodes'[i].dupHash)
  }

  lemma ValuesSame(mem: seq<Cell>, nodes: seq<Node>, nodes': seq<Node>, idxs: seq<nat>)
    requires SameValues(nodes, nodes') && NodesOk(mem, nodes) && Inside(idxs, nodes)
    ensures NodesOk(mem, nodes') && Values(mem, nodes', idxs) == Values(mem, nodes, idxs)
  {
  }

  /** The current disjunct. */
  lemma Current(mem: seq<Cell>, nodes: seq<Node>, table: seq<Ptr>, dw: Ptr, all: seq<nat>, vs: seq<Value>,
                i: nat, kept: seq<nat>, shift: nat)
    requires Mid(mem, nodes, table, dw, all, vs, i, kept, shift) && i < |all|
    ensures var d := all[i];
            && d < |nodes| && NodeOk(mem, nodes[d]) && ValueOf(mem, nodes[d]) == vs[i]
            && nodes[d].next == LinkAt(all, i + 1)
            && d !in kept
  {
    var both, rest := kept + all[i..], all[i..];
    assert rest[0] == all[i] && both[|kept|] == all[i];
    assert Values(mem, nodes, rest)[0] == vs[i..][0];
    assert LinkAt(both, |kept| + 1) == LinkAt(all, i + 1) by {
      if i + 1 < |all| { assert both[|kept| + 1] == all[i + 1]; }
    }
    forall k: nat | k < |kept|
      ensures kept[k] != all[i]
    {
      assert both[k] == kept[k];
    }
  }

  lemma SetHash(mem: seq<Cell>, nodes: seq<Node>, table: seq<Ptr>, dw: Ptr, all: seq<nat>, vs: seq<Value>,
                i: nat, kept: seq<nat>, shift: nat, hash: nat)
    requires Mid(mem, nodes, table, dw, all, vs, i, kept, shift) && i < |all| && all[i] < |nodes|
    ensures Mid(mem, nodes[all[i] := nodes[all[i]].(dupHash := hash)], table, dw, all, vs, i, kept, shift)
  {
    hide TableOk, NodesOk, Distinct, Listed;
    Current(mem, nodes, table, dw, all, vs, i, kept, shift);
    var nodes' := nodes[all[i] := nodes[all[i]].(dupHash := hash)];
    ValuesSame(mem, nodes, nodes', kept);
    ValuesSame(mem, nodes, nodes', all[i..]);
    ListedSame(nodes, nodes', dw, kept + all[i..]);
    TableSame(nodes, nodes', table, kept, Scan(vs[..i]), Scan(vs[..i]), shift);
  }

  /** A disjunct that equals none is kept. */
  lemma Keep(mem: seq<Cell>, nodes: seq<Node>, table: seq<Ptr>, dw: Ptr, all: seq<nat>, vs: seq<Value>,
             i: nat, kept: seq<nat>, shift: nat)
    requires Mid(mem, nodes, table, dw, all, vs, i, kept, shift) && i < |all| && all[i] < |nodes|
    requires LastEqual(Scan(vs[..i]), vs[i]) == 0 && nodes[all[i]].dupHash == KeyHash(vs[i])
    ensures |table| > 0
    ensures var h := SlotOf(KeyHash(vs[i]), |table|, shift);
            Mid(mem, nodes[all[i] := nodes[all[i]].(dupNext := table[h])], table[h := At(all[i])], dw, all, vs,
                i + 1, kept + [all[i]], shift)
  {
    hide TableOk, NodesOk, Distinct, Listed, SlotOf, KeyHash, LastEqual, Scan;
    Current(mem, nodes, table, dw, all, vs, i, kept, shift);
    assert |table| > 0 by { TableSize(nodes, table, kept, Scan(vs[..i]), shift); }
    var h := SlotOf(KeyHash(vs[i]), |table|, shift);
    var nodes' := nodes[all[i] := nodes[all[i]].(dupNext := table[h])];
    assert kept + [all[i]] + all[i + 1..] == kept + all[i..];
    ValuesSame(mem, nodes, nodes', kept);
    ValuesSame(mem, nodes, nodes', all[i..]);
    ValuesMove(mem, nodes', all, vs, i, kept);
    ListedSame(nodes, nodes', dw, kept + all[i..]);
    ScanStep(vs, i);
    assert Scan(vs[..i + 1]) == Scan(vs[..i]) + [vs[i]];
    TableAdd(nodes, nodes', table, kept, Scan(vs[..i]), shift, all[i], vs[i]);
  }

  lemma TableSize(nodes: seq<Node>, table: seq<Ptr>, kept: seq<nat>, vs: seq<Value>, shift: nat)
    requires TableOk(nodes, table, kept, vs, shift)
    ensures |table| > 0
  {
  }

  lemma ScanStep(vs: seq<Value>, i: nat)
    requires i < |vs|
    ensures Scan(vs[..i + 1]) == Add(Scan(vs[..i]), vs[i])
  {
    assert vs[..i + 1][..i] == vs[..i];
  }

  lemma ValuesMove(mem: seq<Cell>, nodes: seq<Node>, all: seq<nat>, vs: seq<Value>, i: nat, kept: seq<nat>)
    requires NodesOk(mem, nodes) && i < |all| == |vs| && Inside(kept, nodes) && Inside(all[i..], nodes)
    requires Values(mem, nodes, all[i..]) == vs[i..]
    ensures Inside(kept + [all[i]], nodes) && Inside(all[i + 1..], nodes)
    ensures Values(mem, nodes, kept + [all[i]]) == Values(mem, nodes, kept) + [vs[i]]
    ensures Values(mem, nodes, all[i + 1..]) == vs[i + 1..]
  {
    var rest := all[i..];
    assert rest[0] == all[i] && Values(mem, nodes, rest)[0] == vs[i..][0];
    var tail := all[i + 1..];
    forall k: nat | k < |tail|
      ensures tail[k] < |nodes| && ValueOf(mem, nodes[tail[k]]) == vs[i + 1..][k]
    {
      assert tail[k] == rest[k + 1];
      assert Values(mem, nodes, rest)[k + 1] == vs[i..][k + 1];
    }
  }

  /** The kept disjunct `x` absorbs the one at `d`. */
  function Absorbed(nodes: seq<Node>, x: nat, d: nat): seq<Node>
    requires x < |nodes| && d < |nodes|
  {
    nodes[x := nodes[x].(cost := if nodes[d].cost < nodes[x].cost then nodes[d].cost else nodes[x].cost,
                         gwords := nodes[x].gwords + nodes[d].gwords)]
  }

  lemma AbsorbedValues(mem: seq<Cell>, nodes: seq<Node>, kept: seq<nat>, rest: seq<nat>, n: nat, d: nat)
    requires NodesOk(mem, nodes) && Inside(kept, nodes) && Inside(rest, nodes) && Distinct(kept + rest)
    requires n < |kept| && d < |nodes|
    ensures NodesOk(mem, Absorbed(nodes, kept[n], d))
    ensures Values(mem, Absorbed(nodes, kept[n], d), kept)
         == Values(mem, nodes, kept)[n := Merge(Values(mem, nodes, kept)[n], ValueOf(mem, nodes[d]))]
    ensures Values(mem, Absorbed(nodes, kept[n], d), rest) == Values(mem, nodes, rest)
  {
    var both := kept + rest;
    forall k: nat | k < |kept| && k != n
      ensures kept[k] != kept[n]
    {
      assert both[k] == kept[k] && both[n] == kept[n];
    }
    forall k: nat | k < |rest|
      ensures rest[k] != kept[n]
    {
      assert both[|kept| + k] == rest[k] && both[n] == kept[n];
    }
  }

  /** A duplicate is absorbed by the last kept disjunct that equals it, and
      bypassed. */
  lemma Drop(mem: seq<Cell>, nodes: seq<Node>, table: seq<Ptr>, dw: Ptr, all: seq<nat>, vs: seq<Value>,
             i: nat, kept: seq<nat>, shift: nat, n: nat)
    requires Mid(mem, nodes, table, dw, all, vs, i, kept, shift) && i < |all| && n < |kept|
    requires n + 1 == LastEqual(Scan(vs[..i]), vs[i])
    ensures all[i] < |nodes| && kept[n] < |nodes| && kept[|kept| - 1] < |nodes|
    ensures var nodes1 := Absorbed(nodes, kept[n], all[i]);
            var last := kept[|kept| - 1];
            Mid(mem, nodes1[last := nodes1[last].(next := nodes[all[i]].next)], table, dw, all, vs, i + 1, kept, shift)
  {
    hide TableOk, NodesOk, Distinct, Listed, LastEqual;
    Current(mem, nodes, table, dw, all, vs, i, kept, shift);
    var d, last := all[i], kept[|kept| - 1];
    var nodes1 := Absorbed(nodes, kept[n], d);
    AbsorbedValues(mem, nodes, kept, all[i..], n, d);
    var nodes2 := nodes1[last := nodes1[last].(next := nodes[d].next)];
    ValuesSame(mem, nodes1, nodes2, kept);
    ValuesSame(mem, nodes1, nodes2, all[i..]);
    ValuesMove(mem, nodes2, all, vs, i, kept);
    ScanStep(vs, i);
    DropLinks(nodes, dw, all, i, kept, n);
    DropTable(nodes, nodes2, table, kept, Scan(vs[..i]), vs[i], shift);
  }

  lemma DropTable(nodes: seq<Node>, nodes2: seq<Node>, table: seq<Ptr>, kept: seq<nat>, vs: seq<Value>, v: Value, shift: nat)
    requires TableOk(nodes, table, kept, vs, shift) && SameDup(nodes, nodes2, kept) && LastEqual(vs, v) > 0
    ensures TableOk(nodes2, table, kept, Add(vs, v), shift)
  {
    hide TableOk;
    AddKeeps(vs, v);
    TableSame(nodes, nodes2, table, kept, vs, Add(vs, v), shift);
  }

  lemma DropLinks(nodes: seq<Node>, dw: Ptr, all: seq<nat>, i: nat, kept: seq<nat>, n: nat)
    requires i < |all| && n < |kept| && Listed(nodes, dw, kept + all[i..]) && Distinct(kept + all[i..])
    ensures all[i] < |nodes| && kept[n] < |nodes| && kept[|kept| - 1] < |nodes|
    ensures var nodes1 := Absorbed(nodes, kept[n], all[i]);
            var last := kept[|kept| - 1];
            Listed(nodes1[last := nodes1[last].(next := nodes[all[i]].next)], dw, kept + all[i + 1..])
    ensures Distinct(kept + all[i + 1..])
  {
    hide Distinct;
    var both := kept + all[i..];
    assert both[n] == kept[n] && both[|kept|] == all[i];
    var nodes1 := Absorbed(nodes, kept[n], all[i]);
    ListedSame(nodes, nodes1, dw, both);
    Unlink(nodes1, dw, kept, all[i..]);
    FewerDistinct(kept, all[i..]);
    assert all[i..][1..] == all[i + 1..];
  }

  // ---------- The methods ----------

  method JetsEqual(mem: array<Cell>, p: Ptr, q: Ptr) returns (eq: bool)
    requires IsSpelled(mem[..], p) && IsSpelled(mem[..], q)
    ensures eq == (ListOf(mem[..], p) == ListOf(mem[..], q))
  {
    if p.Null? || q.Null? { return p.Null? && q.Null?; }
    eq := ConnectorListEqual(mem, p.addr, q.addr, ListOf(mem[..], p), ListOf(mem[..], q));
  }

  /** disjuncts_equal() of a kept disjunct and another one, strings included. */
  method DisjunctsEqual(mem: array<Cell>, d1: Node, d2: Node) returns (eq: bool)
    requires NodeOk(mem[..], d1) && NodeOk(mem[..], d2)
    ensures eq == Equal(ValueOf(mem[..], d1), ValueOf(mem[..], d2))
  {
    if d1.left == d2.right { return false; }
    var same := JetsEqual(mem, d1.left, d2.left);
    if !same { return false; }
    same := JetsEqual(mem, d1.right, d2.right);
    if !same { return false; }
    return d1.wordString == d2.wordString;
  }

  /** At least twice as many slots as disjuncts, and the shift that leaves as many
      bits of a hash as number the slots. */
  method TableShape(length: nat) returns (size: nat, shift: nat)
    ensures PowerOfTwo(size) && 2 * length <= size && (size < 4 * length || size == 1)
    ensures shift <= 32 && (size <= 0x1_0000_0000 ==> Pow2(32 - shift) == size)
  {
    ghost var k;
    size, k := NextPowerOfTwoUp(2 * length);
    var log := Log2(size, k);
    // A 32-bit count allows no larger table.
    shift := if log <= 32 then 32 - log else 0;
    assert Pow2(32) == 0x1_0000_0000 by { TwoTo32(); }
    if log > 32 { Pow2Mono(33, k); }
  }

  lemma TwoTo32()
    ensures Pow2(32) == 0x1_0000_0000
  {
    assert Pow2(8) == 256;
    assert Pow2(16) == 65536;
    assert Pow2(24) == 16777216;
  }

  method HashJet(mem: array<Cell>, p: Ptr) returns (i: nat)
    requires IsSpelled(mem[..], p)
    ensures i == JetHash(ListOf(mem[..], p))
  {
    if p.Null? { return 0; }
    i := ConnectorListHash(mem, p.addr, ListOf(mem[..], p));
  }

  /** old_hash_disjunct(): the hash to keep with the disjunct, and its slot. */
  method HashDisjunct(mem: array<Cell>, d: Node, size: nat, shift: nat) returns (hash: nat, slot: nat)
    requires NodeOk(mem[..], d) && size > 0
    ensures hash == KeyHash(ValueOf(mem[..], d)) && slot == SlotOf(hash, size, shift)
  {
    var i := HashJet(mem, d.left);
    var j := HashJet(mem, d.right);
    var k := HashString(d.wordString);
    hash := (i + 19 * j + k) % WORD32;
    slot := SlotOf(hash, size, shift);
  }

  /** Compare the hashes first. */
  method SameDisjunct(mem: array<Cell>, dx: Node, d: Node) returns (eq: bool)
    requires NodeOk(mem[..], dx) && NodeOk(mem[..], d)
    requires dx.dupHash == KeyHash(ValueOf(mem[..], dx)) && d.dupHash == KeyHash(ValueOf(mem[..], d))
    ensures eq == Equal(ValueOf(mem[..], dx), ValueOf(mem[..], d))
  {
    hide KeyHash, Equal;
    HashDiffers(ValueOf(mem[..], dx), ValueOf(mem[..], d));
    eq := false;
    if d.dupHash == dx.dupHash { eq := DisjunctsEqual(mem, dx, d); }
  }

  /** Search the bucket of `v` for a disjunct that equals it. */
  method FindDuplicate(mem: array<Cell>, nodes: array<Node>, table: array<Ptr>, slot: nat, d: nat,
                       ghost kept: seq<nat>, ghost vs: seq<Value>, shift: nat) returns (dx: Ptr)
    requires NodesOk(mem[..], nodes[..]) && d < nodes.Length && Inside(kept, nodes[..])
    requires vs == Values(mem[..], nodes[..], kept) && TableOk(nodes[..], table[..], kept, vs, shift)
    requires nodes[d].dupHash == KeyHash(ValueOf(mem[..], nodes[d]))
    requires slot == SlotOf(nodes[d].dupHash, table.Length, shift)
    ensures var n := LastEqual(vs, ValueOf(mem[..], nodes[d]));
            dx == if n == 0 then Null else At(kept[n - 1])
  {
    hide SlotOf, KeyHash, Equal, Missed;
    ghost var v := ValueOf(mem[..], nodes[d]);
    ghost var b := Bucket(vs, table.Length, shift, slot);
    ghost var j := 0;
    dx := table[slot];
    var found := false;
    assert Bucketed(nodes[..], table[..][slot], kept, b);
    assert Missed(vs, b, v, 0) by { MissedNone(vs, b, v); }
    while dx.At? && !found
      invariant j <= |b| && dx == BucketLink(kept, b, j) && Missed(vs, b, v, j)
      invariant found ==> j < |b| && Equal(vs[b[j]], v)
      decreases |b| - j, if found then 0 else 1
    {
      assert nodes[..][kept[b[j]]] == nodes[dx.addr] && vs[b[j]] == ValueOf(mem[..], nodes[dx.addr]);
      var eq := SameDisjunct(mem, nodes[dx.addr], nodes[d]);
      if eq {
        found := true;
      } else {
        MissedNext(vs, b, v, j);
        dx := nodes[dx.addr].dupNext;
        j := j + 1;
      }
    }
    BucketFinds(vs, table.Length, shift, slot, v, j);
  }

  lemma MissedNone(vs: seq<Value>, b: seq<nat>, v: Value)
    ensures Missed(vs, b, v, 0)
  {
  }

  lemma MissedNext(vs: seq<Value>, b: seq<nat>, v: Value, j: nat)
    requires j < |b| && b[j] < |vs| && Missed(vs, b, v, j) && !Equal(vs[b[j]], v)
    ensures Missed(vs, b, v, j + 1)
  {
  }

  lemma HashDiffers(a: Value, v: Value)
    ensures Equal(a, v) ==> KeyHash(a) == KeyHash(v)
  {
  }

  /** Every node outside the list is as before. */
  ghost predicate OthersSame(nodes: seq<Node>, nodes': seq<Node>, all: seq<nat>) {
    && |nodes'| == |nodes|
    && forall x: nat :: x < |nodes| && x !in all ==> nodes'[x] == nodes[x]
  }

  /** The kept disjunct absorbs the duplicate, which is bypassed. */
  method Discard(nodes: array<Node>, dx: nat, d: nat, prev: nat)
    requires dx < nodes.Length && d < nodes.Length && prev < nodes.Length && dx != d
    modifies nodes
    ensures var nodes1 := Absorbed(old(nodes[..]), dx, d);
            nodes[..] == nodes1[prev := nodes1[prev].(next := old(nodes[d]).next)]
  {
    if nodes[d].cost < nodes[dx].cost { nodes[dx] := nodes[dx].(cost := nodes[d].cost); }
    nodes[dx] := nodes[dx].(gwords := nodes[dx].gwords + nodes[d].gwords);
    nodes[prev] := nodes[prev].(next := nodes[d].next);
  }

  /** Keep the hash with the disjunct. */
  method StoreHash(mem: array<Cell>, nodes: array<Node>, size: nat, shift: nat, d: nat,
                   ghost table: seq<Ptr>, ghost dw: Ptr, ghost all: seq<nat>, ghost vs: seq<Value>, ghost i: nat,
                   ghost kept: seq<nat>) returns (slot: nat)
    requires Mid(mem[..], nodes[..], table, dw, all, vs, i, kept, shift)
    requires i < |all| && d == all[i] && size > 0
    modifies nodes
    ensures Mid(mem[..], nodes[..], table, dw, all, vs, i, kept, shift)
    ensures d < nodes.Length && nodes[d].dupHash == KeyHash(vs[i]) && slot == SlotOf(KeyHash(vs[i]), size, shift)
    ensures nodes[..] == old(nodes[..])[d := nodes[d]] && nodes[d].next == old(nodes[d].next)
  {
    hide Mid, SlotOf, KeyHash;
    Current(mem[..], nodes[..], table, dw, all, vs, i, kept, shift);
    var hash;
    hash, slot := HashDisjunct(mem, nodes[d], size, shift);
    SetHash(mem[..], nodes[..], table, dw, all, vs, i, kept, shift, hash);
    nodes[d] := nodes[d].(dupHash := hash);
    assert nodes[..] == old(nodes[..])[d := old(nodes[d]).(dupHash := hash)];
  }

  method KeepDisjunct(mem: array<Cell>, nodes: array<Node>, table: array<Ptr>, shift: nat, d: nat, slot: nat,
                      ghost dw: Ptr, ghost all: seq<nat>, ghost vs: seq<Value>, ghost i: nat, ghost kept: seq<nat>)
    requires Mid(mem[..], nodes[..], table[..], dw, all, vs, i, kept, shift)
    requires i < |all| && d == all[i] && d < nodes.Length && LastEqual(Scan(vs[..i]), vs[i]) == 0
    requires table.Length > 0 && nodes[d].dupHash == KeyHash(vs[i]) && slot == SlotOf(KeyHash(vs[i]), table.Length, shift)
    modifies nodes, table
    ensures Mid(mem[..], nodes[..], table[..], dw, all, vs, i + 1, kept + [d], shift)
    ensures nodes[..] == old(nodes[..])[d := nodes[d]] && nodes[d].next == old(nodes[d].next)
  {
    hide Mid, SlotOf, KeyHash, LastEqual;
    Keep(mem[..], nodes[..], table[..], dw, all, vs, i, kept, shift);
    nodes[d] := nodes[d].(dupNext := table[slot]);
    table[slot] := At(d);
    assert nodes[..] == old(nodes[..])[d := old(nodes[d]).(dupNext := old(table[slot]))];
    assert table[..] == old(table[..])[slot := At(d)];
  }

  method DropDisjunct(mem: array<Cell>, nodes: array<Node>, shift: nat, d: nat, prev: nat, dx: nat,
                      ghost table: seq<Ptr>, ghost dw: Ptr, ghost all: seq<nat>, ghost vs: seq<Value>, ghost i: nat,
                      ghost kept: seq<nat>, ghost n: nat)
    requires Mid(mem[..], nodes[..], table, dw, all, vs, i, kept, shift)
    requires i < |all| && d == all[i] && n < |kept| && n + 1 == LastEqual(Scan(vs[..i]), vs[i])
    requires dx == kept[n] && prev == kept[|kept| - 1]
    modifies nodes
    ensures Mid(mem[..], nodes[..], table, dw, all, vs, i + 1, kept, shift)
    ensures d < nodes.Length && nodes[d].next == old(nodes[d].next)
    ensures OthersSame(old(nodes[..]), nodes[..], kept)
  {
    hide Mid, LastEqual;
    Current(mem[..], nodes[..], table, dw, all, vs, i, kept, shift);
    Drop(mem[..], nodes[..], table, dw, all, vs, i, kept, shift, n);
    assert kept[n] in kept && kept[|kept| - 1] in kept;
    Discard(nodes, dx, d, prev);
  }

  /** One round: the disjunct at `d` is kept or discarded. */
  method Process(mem: array<Cell>, nodes: array<Node>, table: array<Ptr>, shift: nat, d: nat, prev: nat,
                 ghost dw: Ptr, ghost all: seq<nat>, ghost vs: seq<Value>, ghost i: nat, ghost kept: seq<nat>)
    returns (duplicate: bool)
    requires Mid(mem[..], nodes[..], table[..], dw, all, vs, i, kept, shift)
    requires i < |all| && d == all[i] && (kept != [] ==> prev == kept[|kept| - 1])
    modifies nodes, table
    ensures Mid(mem[..], nodes[..], table[..], dw, all, vs, i + 1, if duplicate then kept else kept + [d], shift)
    ensures duplicate ==> kept != []
    ensures d < nodes.Length && nodes[d].next == LinkAt(all, i + 1)
    ensures OthersSame(old(nodes[..]), nodes[..], all)
  {
    hide Mid, SlotOf, TableOk, KeyHash, LastEqual, NodesOk;
    MidParts(mem[..], nodes[..], table[..], dw, all, vs, i, kept, shift);
    Current(mem[..], nodes[..], table[..], dw, all, vs, i, kept, shift);
    var slot := StoreHash(mem, nodes, table.Length, shift, d, table[..], dw, all, vs, i, kept);
    MidParts(mem[..], nodes[..], table[..], dw, all, vs, i, kept, shift);
    Current(mem[..], nodes[..], table[..], dw, all, vs, i, kept, shift);
    var dx := FindDuplicate(mem, nodes, table, slot, d, kept, Scan(vs[..i]), shift);
    ghost var n := LastEqual(Scan(vs[..i]), vs[i]);
    duplicate := dx.At?;
    if duplicate {
      DropDisjunct(mem, nodes, shift, d, prev, dx.addr, table[..], dw, all, vs, i, kept, n - 1);
    } else {
      KeepDisjunct(mem, nodes, table, shift, d, slot, dw, all, vs, i, kept);
    }
  }

  lemma MidParts(mem: seq<Cell>, nodes: seq<Node>, table: seq<Ptr>, dw: Ptr, all: seq<nat>, vs: seq<Value>,
                 i: nat, kept: seq<nat>, shift: nat)
    requires Mid(mem, nodes, table, dw, all, vs, i, kept, shift)
    ensures NodesOk(mem, nodes) && Inside(kept, nodes) && i <= |vs| == |all|
    ensures TableOk(nodes, table, kept, Scan(vs[..i]), shift) && |table| > 0
    ensures Values(mem, nodes, kept) == Scan(vs[..i])
    ensures Among(kept, all)
  {
    hide TableOk, NodesOk, Distinct, Listed;
    TableSize(nodes, table, kept, Scan(vs[..i]), shift);
  }

  method CountDisjuncts(nodes: array<Node>, d: Ptr, ghost all: seq<nat>) returns (count: nat)
    requires Listed(nodes[..], d, all)
    ensures count == |all|
  {
    count := 0;
    var p := d;
    while p.At?
      invariant count <= |all| && p == LinkAt(all, count)
      decreases |all| - count
    {
      assert nodes[..][all[count]] == nodes[p.addr];
      p := nodes[p.addr].next;
      count := count + 1;
    }
  }

  lemma {:induction false} NoBucket(size: nat, shift: nat, h: nat)
    requires size > 0
    ensures Bucket([], size, shift, h) == []
  {
  }

  lemma StartMid(mem: seq<Cell>, nodes: seq<Node>, table: seq<Ptr>, dw: Ptr, all: seq<nat>, shift: nat)
    requires NodesOk(mem, nodes) && Listed(nodes, dw, all) && Distinct(all)
    requires |table| > 0 && forall h: nat :: h < |table| ==> table[h].Null?
    ensures Mid(mem, nodes, table, dw, all, Values(mem, nodes, all), 0, [], shift)
  {
    var vs := Values(mem, nodes, all);
    hide TableOk, NodesOk, Listed, Distinct;
    assert all[0..] == all && [] + all == all && vs[0..] == vs && vs[..0] == [];
    assert Values(mem, nodes, []) == [];
    assert Scan(vs[..0]) == [];
    EmptyTable(nodes, table, shift);
  }

  lemma EmptyTable(nodes: seq<Node>, table: seq<Ptr>, shift: nat)
    requires |table| > 0 && forall h: nat :: h < |table| ==> table[h].Null?
    ensures TableOk(nodes, table, [], [], shift)
  {
    forall h: nat | h < |table|
      ensures Bucketed(nodes, table[h], [], Bucket([], |table|, shift, h))
    {
      NoBucket(|table|, shift, h);
    }
  }

  lemma EndMid(mem: seq<Cell>, nodes: seq<Node>, table: seq<Ptr>, dw: Ptr, all: seq<nat>, vs: seq<Value>,
               kept: seq<nat>, shift: nat)
    requires Mid(mem, nodes, table, dw, all, vs, |all|, kept, shift)
    ensures NodesOk(mem, nodes) && Listed(nodes, dw, kept) && Values(mem, nodes, kept) == Scan(vs)
  {
    assert kept + all[|all|..] == kept && vs[..|all|] == vs;
  }

  method Thin(mem: array<Cell>, nodes: array<Node>, table: array<Ptr>, shift: nat, dw: Ptr,
              ghost all: seq<nat>, ghost vs: seq<Value>) returns (count: nat, ghost kept: seq<nat>)
    requires Mid(mem[..], nodes[..], table[..], dw, all, vs, 0, [], shift) && dw == LinkAt(all, 0)
    modifies nodes, table
    ensures Mid(mem[..], nodes[..], table[..], dw, all, vs, |all|, kept, shift)
    ensures count == |all| - |kept|
    ensures OthersSame(old(nodes[..]), nodes[..], all)
  {
    hide Mid;
    count := 0;
    kept := [];
    var d, prev := dw, dw;
    ghost var i := 0;
    while d.At?
      invariant i <= |all| && d == LinkAt(all, i) && (d.At? ==> prev.At?)
      invariant Mid(mem[..], nodes[..], table[..], dw, all, vs, i, kept, shift)
      invariant kept != [] ==> prev == At(kept[|kept| - 1])
      invariant count == i - |kept|
      invariant OthersSame(old(nodes[..]), nodes[..], all)
      decreases |all| - i
    {
      var duplicate := Process(mem, nodes, table, shift, d.addr, prev.addr, dw, all, vs, i, kept);
      if duplicate {
        count := count + 1;
      } else {
        prev := d;
        kept := kept + [d.addr];
      }
      d := nodes[d.addr].next;
      i := i + 1;
    }
  }

  /** Thin the list at `dw`: it ends up as what the simple form keeps, with the
      same head, and the number of disjuncts removed is returned. */
  method EliminateDuplicateDisjuncts(mem: array<Cell>, nodes: array<Node>, dw: Ptr, ghost all: seq<nat>)
    returns (count: nat, ghost kept: seq<nat>)
    requires NodesOk(mem[..], nodes[..]) && Listed(nodes[..], dw, all) && Distinct(all)
    modifies nodes
    ensures NodesOk(mem[..], nodes[..]) && Listed(nodes[..], dw, kept)
    ensures Values(mem[..], nodes[..], kept) == Scan(Values(mem[..], old(nodes[..]), all))
    ensures count == |all| - |kept|
    ensures OthersSame(old(nodes[..]), nodes[..], all)
    ensures var vs := Values(mem[..], old(nodes[..]), all);
            Separate(vs) && NonEmpty(vs) ==> Condensed(vs, Values(mem[..], nodes[..], kept))
    ensures var vs := Values(mem[..], old(nodes[..]), all);
            Separate(vs) ==> (Condensed(vs, Values(mem[..], nodes[..], kept)) <==> EmptyOnce(vs))
  {
    hide Mid, NodesOk, Distinct, OthersSame, Separate, Condensed, NonEmpty, EmptyOnce;
    ghost var vs := Values(mem[..], nodes[..], all);
    var length := CountDisjuncts(nodes, dw, all);
    var size, shift := TableShape(length);
    var table := new Ptr[size](_ => Null);
    StartMid(mem[..], nodes[..], table[..], dw, all, shift);
    count, kept := Thin(mem, nodes, table, shift, dw, all, vs);
    EndMid(mem[..], nodes[..], table[..], dw, all, vs, kept, shift);
    if Separate(vs) {
      CondensesExactly(vs);
      if NonEmpty(vs) { NonEmptyCondenses(vs); }
    }
  }
}
