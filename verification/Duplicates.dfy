/** Duplicate disjuncts of one word.  The list is thinned in place with the help
    of a hash table; the outcome is that of comparing every disjunct with all
    that have been kept before it. */
module Duplicates {
  import opened Connectors
  import opened TraconSets

  /** A disjunct in memory, with the links that the elimination uses. */
  datatype Node = Node(
    left: Ptr,
    right: Ptr,
    wordString: string,
    cost: real,
    gwords: set<nat>,
    next: Ptr,
    dupNext: Ptr,
    dupHash: nat)

  /** What a disjunct is. */
  datatype Value = Value(left: seq<Con>, right: seq<Con>, wordString: string, cost: real, gwords: set<nat>,
                         leftPtr: Ptr, rightPtr: Ptr)

  // ---------- The simple form ----------

  predicate SameKey(a: Value, b: Value) {
    a.left == b.left && a.right == b.right && a.wordString == b.wordString
  }

  /** disjuncts_equal(): a kept disjunct whose left jet is the right jet of the
      other, be it that both are empty, is taken to differ. */
  predicate Equal(kept: Value, d: Value) {
    kept.leftPtr != d.rightPtr && SameKey(kept, d)
  }

  function Merge(kept: Value, d: Value): Value {
    kept.(cost := if d.cost < kept.cost then d.cost else kept.cost, gwords := kept.gwords + d.gwords)
  }

  /** The number of leading elements up to and including the last one that
      equals `d`; zero if none does. */
  function LastEqual(kept: seq<Value>, d: Value): (n: nat)
    ensures n <= |kept|
    ensures n > 0 ==> Equal(kept[n - 1], d)
    ensures forall i: nat :: n <= i < |kept| ==> !Equal(kept[i], d)
  {
    if kept == [] then 0
    else if Equal(kept[|kept| - 1], d) then |kept|
    else LastEqual(kept[..|kept| - 1], d)
  }

  function Add(kept: seq<Value>, d: Value): seq<Value> {
    var n := LastEqual(kept, d);
    if n == 0 then kept + [d] else kept[n - 1 := Merge(kept[n - 1], d)]
  }

  /** Compare each disjunct with all kept before it. */
  function Scan(ds: seq<Value>): (kept: seq<Value>)
    ensures |kept| <= |ds|
  {
    if ds == [] then [] else Add(Scan(ds[..|ds| - 1]), ds[|ds| - 1])
  }

  // ---------- What the simple form computes ----------

  predicate SeenBefore(ds: seq<Value>, d: Value) {
    exists i: nat :: i < |ds| && SameKey(ds[i], d)
  }

  /** The positions of the first disjuncts of their kind. */
  function Firsts(ds: seq<Value>): (f: seq<nat>)
    ensures forall k: nat :: k < |f| ==> f[k] < |ds|
  {
    if ds == [] then []
    else
      var n := |ds| - 1;
      Firsts(ds[..n]) + if SeenBefore(ds[..n], ds[n]) then [] else [n]
  }

  /** The least cost among the disjuncts of `d`'s kind. */
  function LeastCost(ds: seq<Value>, d: Value): real
    requires SeenBefore(ds, d)
  {
    var n := |ds| - 1;
    if !SameKey(ds[n], d) then LeastCost(ds[..n], d)
    else if SeenBefore(ds[..n], d) then
      var c := LeastCost(ds[..n], d);
      if ds[n].cost < c then ds[n].cost else c
    else ds[n].cost
  }

  /** All gwords of the disjuncts of `d`'s kind. */
  function AllGwords(ds: seq<Value>, d: Value): set<nat> {
    set i: nat, g | i < |ds| && SameKey(ds[i], d) && g in ds[i].gwords :: g
  }

  lemma {:induction false} LeastCostIsLeast(ds: seq<Value>, d: Value)
    requires SeenBefore(ds, d)
    ensures forall i: nat :: i < |ds| && SameKey(ds[i], d) ==> LeastCost(ds, d) <= ds[i].cost
    ensures exists i: nat :: i < |ds| && SameKey(ds[i], d) && ds[i].cost == LeastCost(ds, d)
  {
    var n := |ds| - 1;
    if SeenBefore(ds[..n], d) {
      LeastCostIsLeast(ds[..n], d);
      var i: nat :| i < n && SameKey(ds[..n][i], d) && ds[..n][i].cost == LeastCost(ds[..n], d);
      assert SameKey(ds[i], d);
      forall j: nat | j < |ds| && SameKey(ds[j], d)
        ensures LeastCost(ds, d) <= ds[j].cost
      {
        if j < n { assert SameKey(ds[..n][j], d); }
      }
    } else {
      forall j: nat | j < n
        ensures !SameKey(ds[j], d)
      {
        assert ds[..n][j] == ds[j];
      }
    }
  }

  /** The first of each kind, with the least cost and all gwords of the kind. */
  ghost predicate Condensed(ds: seq<Value>, kept: seq<Value>) {
    var f := Firsts(ds);
    && |kept| == |f|
    && forall k: nat :: k < |f| ==> IsRepresentative(ds, f[k], kept[k])
  }

  ghost predicate IsRepresentative(ds: seq<Value>, i: nat, d: Value)
    requires i < |ds|
  {
    && SeenBefore(ds, ds[i])
    && d == ds[i].(cost := LeastCost(ds, ds[i]), gwords := AllGwords(ds, ds[i]))
  }

  predicate Empty(d: Value) { d.left == [] && d.right == [] }

  /** Empty jets are NULL, and no connector is in a left and in a right jet. */
  predicate Separate(ds: seq<Value>) {
    && (forall i: nat :: i < |ds| ==> (ds[i].left == [] <==> ds[i].leftPtr.Null?) && (ds[i].right == [] <==> ds[i].rightPtr.Null?))
    && (forall i: nat, j: nat :: i < |ds| && j < |ds| && ds[i].leftPtr.At? ==> ds[i].leftPtr != ds[j].rightPtr)
  }

  /** No two empty disjuncts have the same word string. */
  predicate EmptyOnce(ds: seq<Value>) {
    forall i: nat, j: nat :: i < j < |ds| && Empty(ds[i]) && Empty(ds[j]) ==> ds[i].wordString != ds[j].wordString
  }

  /** Every disjunct has a connector, as disjuncts built from clauses do. */
  predicate NonEmpty(ds: seq<Value>) {
    forall i: nat :: i < |ds| ==> !Empty(ds[i])
  }

  lemma FirstOfKind(ds: seq<Value>, d: Value) returns (k: nat)
    requires SeenBefore(ds, d)
    ensures k < |Firsts(ds)| && SameKey(ds[Firsts(ds)[k]], d)
  {
    var n := |ds| - 1;
    if SeenBefore(ds[..n], d) {
      k := FirstOfKind(ds[..n], d);
      assert ds[..n][Firsts(ds[..n])[k]] == ds[Firsts(ds)[k]];
    } else {
      k := |Firsts(ds)| - 1;
    }
  }

  lemma {:induction false} FirstsDiffer(ds: seq<Value>, k: nat, l: nat)
    requires k < |Firsts(ds)| && l < |Firsts(ds)| && SameKey(ds[Firsts(ds)[k]], ds[Firsts(ds)[l]])
    ensures k == l
  {
    var n := |ds| - 1;
    var f := Firsts(ds[..n]);
    if k < |f| && l < |f| {
      assert ds[..n][f[k]] == ds[f[k]] && ds[..n][f[l]] == ds[f[l]];
      FirstsDiffer(ds[..n], k, l);
    }
  }

  /** A kept disjunct stays of the same kind, and keeps its jets. */
  predicate SameJets(a: Value, b: Value) {
    SameKey(a, b) && a.leftPtr == b.leftPtr && a.rightPtr == b.rightPtr
  }

  lemma AddKeeps(kept: seq<Value>, d: Value)
    ensures var r := Add(kept, d);
            |kept| <= |r| && forall k: nat :: k < |kept| ==> SameJets(r[k], kept[k])
    ensures exists k: nat :: k < |Add(kept, d)| && SameKey(Add(kept, d)[k], d)
  {
    var n := LastEqual(kept, d);
    var r := Add(kept, d);
    assert SameKey(r[if n == 0 then |kept| else n - 1], d);
  }

  /** What is kept comes from the list, jets and all. */
  lemma {:induction false} KeptFrom(ds: seq<Value>, k: nat) returns (i: nat)
    requires k < |Scan(ds)|
    ensures i < |ds| && SameJets(Scan(ds)[k], ds[i])
  {
    var n := |ds| - 1;
    AddKeeps(Scan(ds[..n]), ds[n]);
    if k < |Scan(ds[..n])| {
      i := KeptFrom(ds[..n], k);
      assert ds[..n][i] == ds[i];
    } else {
      i := n;
    }
  }

  // ---------- The simple form condenses ----------

  lemma CondensedKey(ds: seq<Value>, kept: seq<Value>, k: nat)
    requires Condensed(ds, kept) && k < |kept|
    ensures SameJets(kept[k], ds[Firsts(ds)[k]])
  {
    assert IsRepresentative(ds, Firsts(ds)[k], kept[k]);
  }

  /** A disjunct of a kind already kept is found. */
  lemma FoundEqual(ds: seq<Value>, kept: seq<Value>, k: nat)
    requires ds != [] && Separate(ds) && EmptyOnce(ds) && Condensed(ds[..|ds| - 1], kept)
    requires k < |kept| && SameKey(kept[k], ds[|ds| - 1])
    ensures LastEqual(kept, ds[|ds| - 1]) == k + 1
  {
    var n := |ds| - 1;
    var d, f := ds[n], Firsts(ds[..n]);
    CondensedKey(ds[..n], kept, k);
    var i := f[k];
    assert ds[..n][i] == ds[i];
    assert Equal(kept[k], d) by {
      if ds[i].leftPtr.Null? && d.rightPtr.Null? {
        assert Empty(ds[i]) && Empty(d);
      }
    }
    var m := LastEqual(kept, d) - 1;
    CondensedKey(ds[..n], kept, m);
    FirstsDiffer(ds[..n], k, m);
  }

  lemma CostsAndGwords(ds: seq<Value>, x: Value)
    requires ds != []
    ensures var n := |ds| - 1;
            AllGwords(ds, x) == AllGwords(ds[..n], x) + if SameKey(ds[n], x) then ds[n].gwords else {}
    ensures SeenBefore(ds, x) <==> SeenBefore(ds[..|ds| - 1], x) || SameKey(ds[|ds| - 1], x)
  {
    var n := |ds| - 1;
    assert forall i: nat :: i < n ==> ds[..n][i] == ds[i];
    if SeenBefore(ds[..n], x) {
      var i: nat :| i < n && SameKey(ds[..n][i], x);
      assert SameKey(ds[i], x);
    }
    forall g | g in AllGwords(ds, x)
      ensures g in AllGwords(ds[..n], x) || (SameKey(ds[n], x) && g in ds[n].gwords)
    {
      var i: nat :| i < |ds| && SameKey(ds[i], x) && g in ds[i].gwords;
      if i < n { assert SameKey(ds[..n][i], x); }
    }
    forall g | g in AllGwords(ds[..n], x)
      ensures g in AllGwords(ds, x)
    {
      var i: nat :| i < n && SameKey(ds[..n][i], x) && g in ds[..n][i].gwords;
      assert SameKey(ds[i], x);
    }
  }

  /** The representative of a kind after one more disjunct. */
  lemma RepresentativeStep(ds: seq<Value>, i: nat, r: Value)
    requires ds != [] && i < |ds| - 1 && IsRepresentative(ds[..|ds| - 1], i, r)
    ensures var d := ds[|ds| - 1];
            IsRepresentative(ds, i, if SameKey(d, ds[i]) then Merge(r, d) else r)
  {
    var n := |ds| - 1;
    assert ds[..n][i] == ds[i];
    CostsAndGwords(ds, ds[i]);
  }

  lemma OldKind(ds: seq<Value>, kept: seq<Value>, k: nat)
    requires ds != [] && Separate(ds) && EmptyOnce(ds) && Condensed(ds[..|ds| - 1], kept)
    requires k < |kept| && SameKey(kept[k], ds[|ds| - 1])
    ensures Condensed(ds, Add(kept, ds[|ds| - 1]))
  {
    hide IsRepresentative, Separate, EmptyOnce, AllGwords;
    var n := |ds| - 1;
    var f, r := Firsts(ds[..n]), Add(kept, ds[n]);
    FoundEqual(ds, kept, k);
    CondensedKey(ds[..n], kept, k);
    assert SameKey(ds[..n][f[k]], ds[n]);
    forall l: nat | l < |f|
      ensures IsRepresentative(ds, f[l], r[l])
    {
      RepresentativeStep(ds, f[l], kept[l]);
      assert ds[..n][f[l]] == ds[f[l]];
      if SameKey(ds[n], ds[f[l]]) { FirstsDiffer(ds[..n], k, l); }
    }
  }

  lemma AddCondenses(ds: seq<Value>, kept: seq<Value>)
    requires ds != [] && Separate(ds) && EmptyOnce(ds) && Condensed(ds[..|ds| - 1], kept)
    ensures Condensed(ds, Add(kept, ds[|ds| - 1]))
  {
    hide IsRepresentative, Separate, EmptyOnce, AllGwords, LastEqual;
    var n := |ds| - 1;
    var f, r := Firsts(ds[..n]), Add(kept, ds[n]);
    if SeenBefore(ds[..n], ds[n]) {
      var k := FirstOfKind(ds[..n], ds[n]);
      CondensedKey(ds[..n], kept, k);
      OldKind(ds, kept, k);
    } else {
      NewKind(ds, kept);
      forall l: nat | l < |f|
        ensures IsRepresentative(ds, f[l], r[l])
      {
        RepresentativeStep(ds, f[l], kept[l]);
      }
    }
  }

  lemma NewKind(ds: seq<Value>, kept: seq<Value>)
    requires ds != [] && Condensed(ds[..|ds| - 1], kept) && !SeenBefore(ds[..|ds| - 1], ds[|ds| - 1])
    ensures LastEqual(kept, ds[|ds| - 1]) == 0
    ensures IsRepresentative(ds, |ds| - 1, ds[|ds| - 1])
    ensures forall i: nat :: i < |ds| - 1 ==> !SameKey(ds[|ds| - 1], ds[i])
  {
    var n := |ds| - 1;
    forall i: nat | i < n
      ensures !SameKey(ds[i], ds[n])
    {
      assert ds[..n][i] == ds[i];
    }
    CostsAndGwords(ds, ds[n]);
    NoneOfKind(ds[..n], ds[n]);
  }

  lemma NoneOfKind(ds: seq<Value>, d: Value)
    requires !SeenBefore(ds, d)
    ensures AllGwords(ds, d) == {}
  {
  }

  /** With jets that are separate and no empty disjunct occurring twice, the
      list is condensed: one disjunct of each kind, at the place of the first. */
  lemma {:induction false} ScanCondenses(ds: seq<Value>)
    requires Separate(ds) && EmptyOnce(ds)
    ensures Condensed(ds, Scan(ds))
  {
    if ds != [] {
      var n := |ds| - 1;
      assert forall i: nat :: i < n ==> ds[..n][i] == ds[i];
      ScanCondenses(ds[..n]);
      AddCondenses(ds, Scan(ds[..n]));
    }
  }

  /** So it is for disjuncts that all have a connector. */
  lemma NonEmptyCondenses(ds: seq<Value>)
    requires Separate(ds) && NonEmpty(ds)
    ensures Condensed(ds, Scan(ds))
  {
    ScanCondenses(ds);
  }

  // ---------- Empty disjuncts ----------

  lemma {:induction false} KindKept(ds: seq<Value>, i: nat) returns (k: nat)
    requires i < |ds|
    ensures k < |Scan(ds)| && SameKey(Scan(ds)[k], ds[i])
  {
    var n := |ds| - 1;
    AddKeeps(Scan(ds[..n]), ds[n]);
    if i < n {
      k := KindKept(ds[..n], i);
      assert ds[..n][i] == ds[i];
    } else {
      k :| k < |Scan(ds)| && SameKey(Scan(ds)[k], ds[n]);
    }
  }

  lemma EmptyAppended(ds: seq<Value>)
    requires ds != [] && Separate(ds) && Empty(ds[|ds| - 1])
    ensures LastEqual(Scan(ds[..|ds| - 1]), ds[|ds| - 1]) == 0
  {
    var n := |ds| - 1;
    var m := LastEqual(Scan(ds[..n]), ds[n]);
    if m > 0 {
      var x := KeptFrom(ds[..n], m - 1);
      assert false;
    }
  }

  lemma LastEmptyKept(ds: seq<Value>, i: nat) returns (k: nat, l: nat)
    requires Separate(ds) && i < |ds| - 1 && Empty(ds[i]) && SameKey(ds[i], ds[|ds| - 1])
    ensures k < l < |Scan(ds)| && SameKey(Scan(ds)[k], Scan(ds)[l])
  {
    hide Separate;
    var n := |ds| - 1;
    k := KindKept(ds[..n], i);
    assert ds[..n][i] == ds[i];
    l := |Scan(ds[..n])|;
    EmptyAppended(ds);
  }

  /** Every empty disjunct is kept. */
  lemma {:induction false} EmptiesKept(ds: seq<Value>, i: nat, j: nat) returns (k: nat, l: nat)
    requires Separate(ds) && i < j < |ds| && Empty(ds[i]) && SameKey(ds[i], ds[j])
    ensures k < l < |Scan(ds)| && SameKey(Scan(ds)[k], Scan(ds)[l])
    decreases |ds|
  {
    hide Separate, LastEqual;
    var n := |ds| - 1;
    if j < n {
      SeparatePrefix(ds, n);
      assert ds[..n][i] == ds[i] && ds[..n][j] == ds[j];
      k, l := EmptiesKept(ds[..n], i, j);
      AddKeeps(Scan(ds[..n]), ds[n]);
    } else {
      k, l := LastEmptyKept(ds, i);
    }
  }

  lemma SeparatePrefix(ds: seq<Value>, n: nat)
    requires Separate(ds) && n <= |ds|
    ensures Separate(ds[..n])
  {
    assert forall x: nat :: x < n ==> ds[..n][x] == ds[x];
  }

  /** Given separate jets, duplicates are eliminated exactly when no empty
      disjunct occurs twice: empty ones are never recognised. */
  lemma CondensesExactly(ds: seq<Value>)
    requires Separate(ds)
    ensures Condensed(ds, Scan(ds)) <==> EmptyOnce(ds)
  {
    if EmptyOnce(ds) {
      ScanCondenses(ds);
    } else if Condensed(ds, Scan(ds)) {
      var i: nat, j: nat :| i < j < |ds| && Empty(ds[i]) && Empty(ds[j]) && ds[i].wordString == ds[j].wordString;
      var k, l := EmptiesKept(ds, i, j);
      CondensedKey(ds, Scan(ds), k);
      CondensedKey(ds, Scan(ds), l);
      FirstsDiffer(ds, k, l);
      assert false;
    }
  }
}
