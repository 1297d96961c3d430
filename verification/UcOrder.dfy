/** Ordering connectors by their upper-case parts, and numbering a list that is
    in this order. */
module UcOrder {
  import opened ConnectorMatch

  // ---------- The comparison ----------

  /** strncmp(), as a sign. */
  function StrNCmp(s: Name, t: Name, n: nat): (r: int)
    ensures -1 <= r <= 1
    decreases n
  {
    if n == 0 then 0
    else
      var c, d := CharAt(s, 0), CharAt(t, 0);
      if c != d then (if c < d then -1 else 1)
      else if c == 0 then 0
      else StrNCmp(s[1..], t[1..], n - 1)
  }

  /** condesc_by_uc_constring() on two connectors: a shorter upper-case part is
      cut off before it is compared. */
  function CompareUc(s: Name, t: Name): int
    requires WellFormed(s) && WellFormed(t)
  {
    var sa, sb := s[UcStart(s)..], t[UcStart(t)..];
    var la, lb := |UcPart(s)|, |UcPart(t)|;
    if la == lb then StrNCmp(sa, sb, la)
    else if la < lb then StrNCmp(sa[..la], sb, lb)
    else StrNCmp(sa, sb[..lb], la)
  }

  /** Alphabetic order. */
  function Lex(u: Name, v: Name): (r: int)
    ensures -1 <= r <= 1
  {
    if u == [] && v == [] then 0
    else if u == [] then -1
    else if v == [] then 1
    else if u[0] != v[0] then (if u[0] < v[0] then -1 else 1)
    else Lex(u[1..], v[1..])
  }

  ghost predicate NoZero(s: Name) { forall i: nat :: i < |s| ==> s[i] != 0 }

  lemma {:induction false} StrNCmpSame(u: Name, v: Name, s: Name, t: Name)
    requires |u| == |v| && u <= s && v <= t && NoZero(u) && NoZero(v)
    ensures StrNCmp(s, t, |u|) == Lex(u, v)
    decreases |u|
  {
    if u != [] {
      assert s[0] == u[0] && t[0] == v[0];
      StrNCmpSame(u[1..], v[1..], s[1..], t[1..]);
    }
  }

  lemma {:induction false} StrNCmpShort(u: Name, v: Name, t: Name)
    requires |u| < |v| && v <= t && NoZero(u) && NoZero(v)
    ensures StrNCmp(u, t, |v|) == Lex(u, v)
    decreases |u|
  {
    assert t[0] == v[0];
    if u != [] { StrNCmpShort(u[1..], v[1..], t[1..]); }
  }

  lemma {:induction false} StrNCmpLong(u: Name, v: Name, t: Name)
    requires |u| < |v| && v <= t && NoZero(u) && NoZero(v)
    ensures StrNCmp(t, u, |v|) == Lex(v, u)
    decreases |u|
  {
    assert t[0] == v[0];
    if u != [] { StrNCmpLong(u[1..], v[1..], t[1..]); }
  }

  lemma UcNoZero(s: Name)
    requires WellFormed(s)
    ensures NoZero(UcPart(s)) && UcPart(s) <= s[UcStart(s)..]
    ensures s[UcStart(s)..][..|UcPart(s)|] == UcPart(s)
  {
    forall i: nat | i < |UcPart(s)|
      ensures UcPart(s)[i] != 0
    {
      assert IsNameChar(s[UcStart(s) + i]);
    }
  }

  /** The comparison is alphabetic order of upper-case parts. */
  lemma CompareIsLex(s: Name, t: Name)
    requires WellFormed(s) && WellFormed(t)
    ensures CompareUc(s, t) == Lex(UcPart(s), UcPart(t))
  {
    hide WellFormed, NoZero;
    UcNoZero(s);
    UcNoZero(t);
    var u, v := UcPart(s), UcPart(t);
    if |u| == |v| {
      StrNCmpSame(u, v, s[UcStart(s)..], t[UcStart(t)..]);
    } else if |u| < |v| {
      StrNCmpShort(u, v, t[UcStart(t)..]);
    } else {
      StrNCmpLong(v, u, s[UcStart(s)..]);
    }
  }

  lemma {:induction false} LexZero(u: Name, v: Name)
    ensures Lex(u, v) == 0 <==> u == v
    decreases |u|
  {
    if u != [] && v != [] {
      LexZero(u[1..], v[1..]);
      assert u == [u[0]] + u[1..] && v == [v[0]] + v[1..];
    }
  }

  lemma {:induction false} LexSwap(u: Name, v: Name)
    ensures Lex(u, v) == -Lex(v, u)
    decreases |u|
  {
    if u != [] && v != [] { LexSwap(u[1..], v[1..]); }
  }

  lemma {:induction false} LexTransitive(u: Name, v: Name, w: Name)
    requires Lex(u, v) <= 0 && Lex(v, w) <= 0
    ensures Lex(u, w) <= 0
    ensures Lex(u, v) < 0 || Lex(v, w) < 0 ==> Lex(u, w) < 0
    decreases |u|
  {
    if u != [] && v != [] && w != [] && u[0] == v[0] == w[0] {
      LexTransitive(u[1..], v[1..], w[1..]);
    }
  }

  /** A total preorder in which exactly the connectors with the same upper-case
      part are equivalent. */
  lemma CompareTotalPreorder(s: Name, t: Name, u: Name)
    requires WellFormed(s) && WellFormed(t) && WellFormed(u)
    ensures CompareUc(s, t) == -CompareUc(t, s)
    ensures CompareUc(s, t) <= 0 && CompareUc(t, u) <= 0 ==> CompareUc(s, u) <= 0
    ensures CompareUc(s, t) == 0 <==> UcPart(s) == UcPart(t)
  {
    hide WellFormed, CompareUc, UcPart;
    CompareIsLex(s, t);
    CompareIsLex(t, s);
    CompareIsLex(t, u);
    CompareIsLex(s, u);
    LexSwap(UcPart(s), UcPart(t));
    LexZero(UcPart(s), UcPart(t));
    if CompareUc(s, t) <= 0 && CompareUc(t, u) <= 0 { LexTransitive(UcPart(s), UcPart(t), UcPart(u)); }
  }

  // ---------- Lists of connectors, by number ----------

  ghost predicate AllWellFormed(names: seq<Name>) {
    forall k: nat :: k < |names| ==> WellFormed(names[k])
  }

  ghost predicate ValidNumbers(list: seq<nat>, names: seq<Name>) {
    forall i: nat :: i < |list| ==> list[i] < |names|
  }

  ghost predicate Unrepeated(list: seq<nat>) {
    forall i: nat, j: nat :: i < j < |list| ==> list[i] != list[j]
  }

  ghost predicate InOrder(names: seq<Name>, list: seq<nat>)
    requires AllWellFormed(names) && ValidNumbers(list, names)
  {
    forall i: nat, j: nat :: i < j < |list| ==> Lex(UcPart(names[list[i]]), UcPart(names[list[j]])) <= 0
  }

  /** The test for a new upper-case part: another length, or other characters. */
  predicate NewPart(s: Name, t: Name)
    requires WellFormed(s) && WellFormed(t)
  {
    |UcPart(s)| != |UcPart(t)|
    || StrNCmp(s[UcStart(s)..], t[UcStart(t)..], |UcPart(s)|) != 0
  }

  lemma NewPartExact(s: Name, t: Name)
    requires WellFormed(s) && WellFormed(t)
    ensures NewPart(s, t) <==> UcPart(s) != UcPart(t)
  {
    hide WellFormed;
    if |UcPart(s)| == |UcPart(t)| {
      UcNoZero(s);
      UcNoZero(t);
      StrNCmpSame(UcPart(s), UcPart(t), s[UcStart(s)..], t[UcStart(t)..]);
      LexZero(UcPart(s), UcPart(t));
    }
  }

  /** After numbering the first `n` of an ordered list from `lo` up to `hi`. */
  ghost predicate NumberedTo(names: seq<Name>, list: seq<nat>, nums: seq<nat>, n: nat, lo: nat, hi: nat)
    requires AllWellFormed(names) && ValidNumbers(list, names) && |nums| == |names| && n <= |list|
  {
    && PartsTold(names, list, nums, n)
    && Rising(list, nums, n, lo, hi)
    && (forall m: nat :: lo <= m < hi ==> Used(list, nums, n, m))
  }

  /** Equal numbers for equal upper-case parts, and only for those. */
  ghost predicate PartsTold(names: seq<Name>, list: seq<nat>, nums: seq<nat>, n: nat)
    requires AllWellFormed(names) && ValidNumbers(list, names) && |nums| == |names| && n <= |list|
  {
    forall i: nat, j: nat :: i < n && j < n ==>
      (nums[list[i]] == nums[list[j]] <==> UcPart(names[list[i]]) == UcPart(names[list[j]]))
  }

  ghost predicate Rising(list: seq<nat>, nums: seq<nat>, n: nat, lo: nat, hi: nat)
    requires n <= |list| && forall i: nat :: i < |list| ==> list[i] < |nums|
  {
    && (forall i: nat :: i < n ==> lo <= nums[list[i]] < hi)
    && (forall i: nat, j: nat :: i < j < n ==> nums[list[i]] <= nums[list[j]])
  }

  ghost predicate Used(list: seq<nat>, nums: seq<nat>, n: nat, m: nat) {
    exists i: nat :: i < n && i < |list| && list[i] < |nums| && nums[list[i]] == m
  }

  lemma NumberFirst(names: seq<Name>, list: seq<nat>, nums: seq<nat>, lo: nat)
    requires AllWellFormed(names) && ValidNumbers(list, names) && |nums| == |names| && list != []
    ensures NumberedTo(names, list, nums[list[0] := lo], 1, lo, lo + 1)
  {
    var nums' := nums[list[0] := lo];
    assert nums'[list[0]] == lo;
    assert Used(list, nums', 1, lo);
  }

  /** Give the next connector of an ordered list its number. */
  lemma NumberNext(names: seq<Name>, list: seq<nat>, nums: seq<nat>, n: nat, lo: nat, hi: nat)
    requires AllWellFormed(names) && ValidNumbers(list, names) && |nums| == |names| && 0 < n < |list|
    requires Unrepeated(list) && InOrder(names, list) && lo < hi
    requires NumberedTo(names, list, nums, n, lo, hi) && nums[list[n - 1]] == hi - 1
    ensures var hi' := if UcPart(names[list[n]]) != UcPart(names[list[n - 1]]) then hi + 1 else hi;
            NumberedTo(names, list, nums[list[n] := hi' - 1], n + 1, lo, hi')
  {
    hide UcPart, AllWellFormed, PartsTold, InOrder;
    var hi' := if UcPart(names[list[n]]) != UcPart(names[list[n - 1]]) then hi + 1 else hi;
    var nums', n' := nums[list[n] := hi' - 1], n + 1;
    PartsNext(names, list, nums, n, lo, hi);
    assert forall i: nat :: i < n ==> nums'[list[i]] == nums[list[i]];
    forall m: nat | lo <= m < hi'
      ensures Used(list, nums', n', m)
    {
      if m == hi' - 1 {
        assert nums'[list[n]] == m;
      } else {
        assert Used(list, nums, n, m);
        var i: nat :| i < n && i < |list| && list[i] < |nums| && nums[list[i]] == m;
        assert nums'[list[i]] == m;
      }
    }
  }

  lemma PartsNext(names: seq<Name>, list: seq<nat>, nums: seq<nat>, n: nat, lo: nat, hi: nat)
    requires AllWellFormed(names) && ValidNumbers(list, names) && |nums| == |names| && 0 < n < |list|
    requires Unrepeated(list) && InOrder(names, list) && lo < hi && Rising(list, nums, n, lo, hi)
    requires PartsTold(names, list, nums, n) && nums[list[n - 1]] == hi - 1
    ensures var hi' := if UcPart(names[list[n]]) != UcPart(names[list[n - 1]]) then hi + 1 else hi;
            PartsTold(names, list, nums[list[n] := hi' - 1], n + 1)
  {
    hide UcPart, AllWellFormed, InOrder;
    var hi' := if UcPart(names[list[n]]) != UcPart(names[list[n - 1]]) then hi + 1 else hi;
    var nums' := nums[list[n] := hi' - 1];
    forall i: nat | i < n
      ensures nums'[list[i]] == nums[list[i]]
      ensures nums'[list[i]] == nums'[list[n]] <==> UcPart(names[list[i]]) == UcPart(names[list[n]])
    {
      EarlierPart(names, list, i, n);
    }
  }

  /** In an ordered list, a part that differs from the one before it differs from
      all earlier ones. */
  lemma EarlierPart(names: seq<Name>, list: seq<nat>, i: nat, n: nat)
    requires AllWellFormed(names) && ValidNumbers(list, names) && InOrder(names, list) && i < n < |list|
    ensures UcPart(names[list[n]]) != UcPart(names[list[n - 1]]) ==> UcPart(names[list[i]]) != UcPart(names[list[n]])
  {
    hide UcPart, AllWellFormed;
    var a, b, c := UcPart(names[list[i]]), UcPart(names[list[n - 1]]), UcPart(names[list[n]]);
    if b != c && i < n - 1 {
      assert Lex(a, b) <= 0 && Lex(b, c) <= 0;
      LexZero(b, c);
      LexTransitive(a, b, c);
      LexZero(a, c);
    }
  }

  // ---------- Sorting ----------

  /** Any list in the order of the comparison with the same elements. */
  ghost predicate SortedFrom(names: seq<Name>, list: seq<nat>, sorted: seq<nat>)
    requires AllWellFormed(names) && ValidNumbers(list, names)
  {
    multiset(sorted) == multiset(list) && ValidNumbers(sorted, names) && InOrder(names, sorted)
  }

  /** Where to put a connector in an ordered list: after those not greater. */
  method Place(names: seq<Name>, sorted: seq<nat>, k: nat) returns (p: nat)
    requires AllWellFormed(names) && ValidNumbers(sorted, names) && InOrder(names, sorted) && k < |names|
    ensures p <= |sorted|
    ensures forall i: nat :: i < p ==> Lex(UcPart(names[sorted[i]]), UcPart(names[k])) <= 0
    ensures forall i: nat :: p <= i < |sorted| ==> Lex(UcPart(names[k]), UcPart(names[sorted[i]])) <= 0
  {
    hide UcPart, AllWellFormed, CompareUc;
    p := 0;
    while p < |sorted| && Before(names, sorted[p], k)
      invariant p <= |sorted|
      invariant forall i: nat :: i < p ==> Lex(UcPart(names[sorted[i]]), UcPart(names[k])) <= 0
    {
      p := p + 1;
    }
    if p < |sorted| {
      forall i: nat | p <= i < |sorted|
        ensures Lex(UcPart(names[k]), UcPart(names[sorted[i]])) <= 0
      {
        LexSwap(UcPart(names[sorted[p]]), UcPart(names[k]));
        if p < i { LexTransitive(UcPart(names[k]), UcPart(names[sorted[p]]), UcPart(names[sorted[i]])); }
      }
    }
  }

  predicate Before(names: seq<Name>, j: nat, k: nat): (b: bool)
    requires AllWellFormed(names) && j < |names| && k < |names|
    ensures b <==> Lex(UcPart(names[j]), UcPart(names[k])) <= 0
  {
    CompareIsLex(names[j], names[k]);
    CompareUc(names[j], names[k]) <= 0
  }

  /** Stands for qsort(): only that the result is sorted is used. */
  method SortByUcPart(names: seq<Name>, list: seq<nat>) returns (sorted: seq<nat>)
    requires AllWellFormed(names) && ValidNumbers(list, names)
    ensures SortedFrom(names, list, sorted)
  {
    hide UcPart, Lex, AllWellFormed;
    sorted := [];
    for i := 0 to |list|
      invariant SortedFrom(names, list[..i], sorted)
    {
      var p := Place(names, sorted, list[i]);
      Inserted(names, sorted, list[i], p);
      assert list[..i + 1] == list[..i] + [list[i]];
      sorted := sorted[..p] + [list[i]] + sorted[p..];
    }
    assert list[..|list|] == list;
  }

  lemma Inserted(names: seq<Name>, sorted: seq<nat>, k: nat, p: nat)
    requires AllWellFormed(names) && ValidNumbers(sorted, names) && InOrder(names, sorted) && k < |names| && p <= |sorted|
    requires forall i: nat :: i < p ==> Lex(UcPart(names[sorted[i]]), UcPart(names[k])) <= 0
    requires forall i: nat :: p <= i < |sorted| ==> Lex(UcPart(names[k]), UcPart(names[sorted[i]])) <= 0
    ensures var r := sorted[..p] + [k] + sorted[p..];
            multiset(r) == multiset(sorted) + multiset{k} && ValidNumbers(r, names) && InOrder(names, r)
  {
    hide UcPart, Lex, AllWellFormed;
    var r := sorted[..p] + [k] + sorted[p..];
    assert sorted[..p] + sorted[p..] == sorted;
    forall i: nat, j: nat | i < j < |r|
      ensures Lex(UcPart(names[r[i]]), UcPart(names[r[j]])) <= 0
    {
      InsertedAt(sorted, k, p, i);
      InsertedAt(sorted, k, p, j);
    }
    forall i: nat | i < |r|
      ensures r[i] < |names|
    {
      InsertedAt(sorted, k, p, i);
    }
  }

  lemma InsertedAt(sorted: seq<nat>, k: nat, p: nat, i: nat)
    requires p <= |sorted| && i <= |sorted|
    ensures (sorted[..p] + [k] + sorted[p..])[i] == if i < p then sorted[i] else if i == p then k else sorted[i - 1]
  {
  }
}
