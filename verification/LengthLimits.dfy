/** Length limits.  A definition gives a limit to every connector that matches
    one of its own; the connectors are found by scanning two lists that are
    ordered by upper-case number. */
module LengthLimits {
  import opened ConnectorMatch
  import opened UcOrder

  const UNLIMITED_LEN: nat := 255

  /** A flat definition: the numbers of its connectors, and the limit. */
  datatype Def = Def(connectors: seq<nat>, limit: nat)

  /** The connectors, their upper-case numbers, and the list of all of them in
      the order of these numbers. */
  datatype Table = Table(names: seq<Name>, ucNum: seq<nat>, sdesc: seq<nat>)

  ghost predicate TableOk(ct: Table) {
    && AllWellFormed(ct.names)
    && |ct.ucNum| == |ct.names|
    && ValidNumbers(ct.sdesc, ct.names)
    && (forall k: nat :: k < |ct.names| ==> k in ct.sdesc)
    && Ascending(ct.ucNum, ct.sdesc)
  }

  ghost predicate Ascending(ucNum: seq<nat>, list: seq<nat>) {
    && (forall i: nat :: i < |list| ==> list[i] < |ucNum|)
    && forall i: nat, j: nat :: i < j < |list| ==> ucNum[list[i]] <= ucNum[list[j]]
  }

  /** A definition's connector and another one match: the same upper-case number
      and matching lower-case parts. */
  ghost predicate Match(ct: Table, e: nat, k: nat)
    requires AllWellFormed(ct.names) && |ct.ucNum| == |ct.names| && e < |ct.names| && k < |ct.names|
  {
    EasyMatchDesc(ct.ucNum[e], Compile(ct.names[e]), ct.ucNum[k], Compile(ct.names[k]))
  }

  /** Some of the first `n` connectors of the list matches `k`. */
  ghost predicate Covered(ct: Table, list: seq<nat>, n: nat, k: nat)
    requires TableOk(ct) && ValidNumbers(list, ct.names) && n <= |list| && k < |ct.names|
  {
    exists m: nat :: m < n && Match(ct, list[m], k)
  }

  /** No connector of a definition has a wildcard. */
  predicate NoWildcards(names: seq<Name>, list: seq<nat>) {
    forall i: nat :: i < |list| && list[i] < |names| ==> WILD !in names[list[i]]
  }

  ghost predicate DefOk(ct: Table, d: Def) {
    ValidNumbers(d.connectors, ct.names) && NoWildcards(ct.names, d.connectors)
  }

  // ---------- Sorting ----------

  /** Stands for qsort(): only that the result is sorted is used. */
  method SortByUcNum(ucNum: seq<nat>, list: seq<nat>) returns (sorted: seq<nat>)
    requires forall i: nat :: i < |list| ==> list[i] < |ucNum|
    ensures Ascending(ucNum, sorted) && |sorted| == |list|
    ensures forall k: nat :: k in sorted <==> k in list
  {
    sorted := [];
    for n := 0 to |list|
      invariant Ascending(ucNum, sorted) && |sorted| == n
      invariant forall k: nat :: k in sorted <==> k in list[..n]
    {
      var p := 0;
      while p < |sorted| && ucNum[sorted[p]] <= ucNum[list[n]]
        invariant p <= |sorted| && forall i: nat :: i < p ==> ucNum[sorted[i]] <= ucNum[list[n]]
      {
        p := p + 1;
      }
      assert list[..n + 1] == list[..n] + [list[n]];
      Inserted(ucNum, sorted, list[n], p);
      sorted := sorted[..p] + [list[n]] + sorted[p..];
    }
    assert list[..|list|] == list;
  }

  lemma Inserted(ucNum: seq<nat>, sorted: seq<nat>, x: nat, p: nat)
    requires Ascending(ucNum, sorted) && x < |ucNum| && p <= |sorted|
    requires forall i: nat :: i < p ==> ucNum[sorted[i]] <= ucNum[x]
    requires p < |sorted| ==> ucNum[x] < ucNum[sorted[p]]
    ensures var r := sorted[..p] + [x] + sorted[p..];
            Ascending(ucNum, r) && forall k: nat :: k in r <==> k in sorted || k == x
  {
    var r := sorted[..p] + [x] + sorted[p..];
    forall i: nat | i < |r|
      ensures r[i] == if i < p then sorted[i] else if i == p then x else sorted[i - 1]
    {
    }
    forall k: nat | k in sorted
      ensures k in r
    {
      var i: nat :| i < |sorted| && sorted[i] == k;
      assert r[if i < p then i else i + 1] == k;
    }
    assert r[p] == x;
  }

  // ---------- One definition ----------

  /** What a definition does to the limit of `k`: limits are stored in one byte. */
  ghost function Limited(ct: Table, list: seq<nat>, n: nat, limit: nat, k: nat, old': nat): nat
    requires TableOk(ct) && ValidNumbers(list, ct.names) && n <= |list| && k < |ct.names|
  {
    if Covered(ct, list, n, k) then limit % 256 else old'
  }

  /** The first place from `from` on whose number is not below `uc`. */
  method SkipTo(ct: Table, from: nat, uc: nat) returns (cn: nat)
    requires TableOk(ct) && from <= |ct.sdesc|
    ensures from <= cn <= |ct.sdesc|
    ensures forall i: nat :: from <= i < cn ==> ct.ucNum[ct.sdesc[i]] < uc
    ensures cn < |ct.sdesc| ==> ct.ucNum[ct.sdesc[cn]] >= uc
  {
    hide AllWellFormed;
    cn := from;
    while cn < |ct.sdesc| && ct.ucNum[ct.sdesc[cn]] < uc
      invariant from <= cn <= |ct.sdesc|
      invariant forall i: nat :: from <= i < cn ==> ct.ucNum[ct.sdesc[i]] < uc
    {
      cn := cn + 1;
    }
  }

  /** The same for the connectors of the definition. */
  method SkipConnectors(ct: Table, econ: seq<nat>, from: nat, uc: nat) returns (en: nat)
    requires |ct.ucNum| == |ct.names| && ValidNumbers(econ, ct.names) && from <= |econ|
    ensures from <= en <= |econ|
    ensures forall m: nat :: from <= m < en ==> ct.ucNum[econ[m]] < uc
    ensures en < |econ| ==> ct.ucNum[econ[en]] >= uc
  {
    en := from;
    while en < |econ| && ct.ucNum[econ[en]] < uc
      invariant from <= en <= |econ|
      invariant forall m: nat :: from <= m < en ==> ct.ucNum[econ[m]] < uc
    {
      en := en + 1;
    }
  }

  /** Set the limit of the connectors from `from` on that match `e`, up to the
      end of its group. */
  method MarkGroup(ct: Table, e: nat, from: nat, limit: nat, limits: array<nat>)
    requires TableOk(ct) && limits.Length == |ct.names| && e < |ct.names|
    requires from < |ct.sdesc| && ct.ucNum[ct.sdesc[from]] == ct.ucNum[e]
    requires forall i: nat :: i < from ==> ct.ucNum[ct.sdesc[i]] != ct.ucNum[e]
    modifies limits
    ensures forall k: nat :: k < limits.Length ==> limits[k] == if Match(ct, e, k) then limit % 256 else old(limits[k])
  {
    hide AllWellFormed, LcEasyMatch, Compile;
    var cn := from;
    while cn < |ct.sdesc| && ct.ucNum[ct.sdesc[cn]] == ct.ucNum[e]
      invariant from <= cn <= |ct.sdesc|
      invariant from < cn ==> ct.ucNum[ct.sdesc[cn - 1]] == ct.ucNum[e]
      invariant forall k: nat :: k < limits.Length ==>
                  limits[k] == if Match(ct, e, k) && k in ct.sdesc[from..cn] then limit % 256 else old(limits[k])
    {
      var c := ct.sdesc[cn];
      GroupStep(ct, from, cn);
      Formed(ct.names, e);
      Formed(ct.names, c);
      if LcEasyMatch(Compile(ct.names[e]), Compile(ct.names[c])) { limits[c] := limit % 256; }
      cn := cn + 1;
    }
    GroupEnd(ct, e, from, cn);
  }

  lemma Formed(names: seq<Name>, k: nat)
    requires AllWellFormed(names) && k < |names|
    ensures WellFormed(names[k])
  {
  }

  lemma GroupStep(ct: Table, from: nat, cn: nat)
    requires from <= cn < |ct.sdesc|
    ensures forall k: nat :: k in ct.sdesc[from..cn + 1] <==> k in ct.sdesc[from..cn] || k == ct.sdesc[cn]
  {
    assert ct.sdesc[from..cn + 1] == ct.sdesc[from..cn] + [ct.sdesc[cn]];
  }

  /** The group has been seen in full. */
  lemma GroupEnd(ct: Table, e: nat, from: nat, cn: nat)
    requires TableOk(ct) && e < |ct.names| && from < cn <= |ct.sdesc|
    requires forall i: nat :: i < from ==> ct.ucNum[ct.sdesc[i]] != ct.ucNum[e]
    requires cn < |ct.sdesc| ==> ct.ucNum[ct.sdesc[cn]] != ct.ucNum[e]
    requires ct.ucNum[ct.sdesc[cn - 1]] == ct.ucNum[e]
    ensures forall k: nat :: k < |ct.names| && Match(ct, e, k) ==> k in ct.sdesc[from..cn]
  {
    hide AllWellFormed, LcEasyMatch, Compile;
    forall k: nat | k < |ct.names| && Match(ct, e, k)
      ensures k in ct.sdesc[from..cn]
    {
      assert k in ct.sdesc;
      var i: nat :| i < |ct.sdesc| && ct.sdesc[i] == k;
      assert from <= i < cn;
      assert ct.sdesc[from..cn][i - from] == k;
    }
  }

  /** Everything before the restart place has a smaller number than every
      connector of the definition that is still to come. */
  ghost predicate RestartOk(ct: Table, econ: seq<nat>, en: nat, restart: nat)
    requires |ct.ucNum| == |ct.names| && ValidNumbers(ct.sdesc, ct.names) && ValidNumbers(econ, ct.names)
  {
    restart <= |ct.sdesc|
    && forall i: nat, m: nat :: i < restart && en <= m < |econ| ==> ct.ucNum[ct.sdesc[i]] < ct.ucNum[econ[m]]
  }

  /** The scan stops in the group of the next connector of the definition: the
      table has it, and nothing of its group lies before. */
  lemma GroupFound(ct: Table, econ: seq<nat>, en: nat, restart: nat, cn: nat)
    requires TableOk(ct) && ValidNumbers(econ, ct.names) && en < |econ| && RestartOk(ct, econ, en, restart)
    requires restart <= cn <= |ct.sdesc|
    requires forall i: nat :: restart <= i < cn ==> ct.ucNum[ct.sdesc[i]] < ct.ucNum[econ[en]]
    requires cn < |ct.sdesc| ==> ct.ucNum[ct.sdesc[cn]] >= ct.ucNum[econ[en]]
    ensures cn < |ct.sdesc| && ct.ucNum[ct.sdesc[cn]] == ct.ucNum[econ[en]]
    ensures forall i: nat :: i < cn ==> ct.ucNum[ct.sdesc[i]] < ct.ucNum[econ[en]]
  {
    hide AllWellFormed;
    assert econ[en] in ct.sdesc;
    var i: nat :| i < |ct.sdesc| && ct.sdesc[i] == econ[en];
    assert cn <= i;
  }

  lemma CoveredNext(ct: Table, list: seq<nat>, n: nat, k: nat)
    requires TableOk(ct) && ValidNumbers(list, ct.names) && n < |list| && k < |ct.names|
    ensures Covered(ct, list, n + 1, k) <==> Covered(ct, list, n, k) || Match(ct, list[n], k)
  {
    hide AllWellFormed, Match;
  }

  lemma CoveredSame(ct: Table, a: seq<nat>, b: seq<nat>, k: nat)
    requires TableOk(ct) && ValidNumbers(a, ct.names) && ValidNumbers(b, ct.names) && k < |ct.names|
    requires forall x: nat :: x in a <==> x in b
    ensures Covered(ct, a, |a|, k) <==> Covered(ct, b, |b|, k)
  {
    hide AllWellFormed, Match;
    if Covered(ct, a, |a|, k) {
      var m: nat :| m < |a| && Match(ct, a[m], k);
      assert a[m] in b;
    }
    if Covered(ct, b, |b|, k) {
      var m: nat :| m < |b| && Match(ct, b[m], k);
      assert b[m] in a;
    }
  }

  /** One pass over both lists. */
  method Scan(ct: Table, econ: seq<nat>, limit: nat, limits: array<nat>)
    requires TableOk(ct) && limits.Length == |ct.names| && ValidNumbers(econ, ct.names) && Ascending(ct.ucNum, econ)
    modifies limits
    ensures forall k: nat :: k < limits.Length ==>
              limits[k] == Limited(ct, econ, |econ|, limit, k, old(limits[k]))
  {
    hide AllWellFormed, Match, Covered;
    var restart, en := 0, 0;
    NothingCovered(ct, econ);
    while en < |econ|
      invariant en <= |econ| && RestartOk(ct, econ, en, restart)
      invariant forall k: nat :: k < limits.Length ==> limits[k] == Limited(ct, econ, en, limit, k, old(limits[k]))
      decreases |econ| - en
    {
      var cn := SkipTo(ct, restart, ct.ucNum[econ[en]]);
      GroupFound(ct, econ, en, restart, cn);
      ghost var here := en;
      en := SkipConnectors(ct, econ, en, ct.ucNum[ct.sdesc[cn]]);
      if en == |econ| { break; }
      if ct.ucNum[econ[en]] == ct.ucNum[ct.sdesc[cn]] {
        restart := cn;
        MarkGroup(ct, econ[en], cn, limit, limits);
        forall k: nat | k < limits.Length
          ensures Covered(ct, econ, en + 1, k) <==> Covered(ct, econ, en, k) || Match(ct, econ[en], k)
        {
          CoveredNext(ct, econ, en, k);
        }
      }
      en := en + 1;
    }
  }

  lemma NothingCovered(ct: Table, list: seq<nat>)
    requires TableOk(ct) && ValidNumbers(list, ct.names)
    ensures forall k: nat :: k < |ct.names| ==> !Covered(ct, list, 0, k)
  {
  }

  /** set_condesc_length_limit() for a flat definition: exactly the connectors
      that match one of its own get its limit. */
  method SetCondescLengthLimit(ct: Table, d: Def, limits: array<nat>)
    requires TableOk(ct) && DefOk(ct, d) && limits.Length == |ct.names|
    modifies limits
    ensures forall k: nat :: k < limits.Length ==>
              limits[k] == Limited(ct, d.connectors, |d.connectors|, d.limit, k, old(limits[k]))
    ensures d.limit <= 255 ==> forall k: nat :: k < limits.Length ==>
              limits[k] == if (exists e: nat :: e in d.connectors && Match(ct, e, k)) then d.limit else old(limits[k])
  {
    hide AllWellFormed, Covered;
    var econ := SortByUcNum(ct.ucNum, d.connectors);
    assert ValidNumbers(econ, ct.names) by { SortedValid(ct.names, d.connectors, econ); }
    Scan(ct, econ, d.limit, limits);
    forall k: nat | k < limits.Length
      ensures Covered(ct, econ, |econ|, k) <==> Covered(ct, d.connectors, |d.connectors|, k)
    {
      CoveredSame(ct, econ, d.connectors, k);
    }
    forall k: nat | k < limits.Length
      ensures Covered(ct, d.connectors, |d.connectors|, k) <==> exists e: nat :: e in d.connectors && Match(ct, e, k)
    {
      CoveredByOne(ct, d.connectors, k);
    }
  }

  lemma CoveredByOne(ct: Table, list: seq<nat>, k: nat)
    requires TableOk(ct) && ValidNumbers(list, ct.names) && k < |ct.names|
    ensures Covered(ct, list, |list|, k) <==> exists e: nat :: e in list && Match(ct, e, k)
  {
    hide AllWellFormed, Match;
    if Covered(ct, list, |list|, k) {
      var m: nat :| m < |list| && Match(ct, list[m], k);
      assert list[m] in list;
    }
    if e: nat :| e in list && Match(ct, e, k) {
      var m: nat :| m < |list| && list[m] == e;
      assert Match(ct, list[m], k);
    }
  }

  lemma SortedValid(names: seq<Name>, list: seq<nat>, sorted: seq<nat>)
    requires ValidNumbers(list, names) && forall k: nat :: k in sorted <==> k in list
    ensures ValidNumbers(sorted, names)
  {
    forall i: nat | i < |sorted|
      ensures sorted[i] < |names|
    {
      assert sorted[i] in list;
    }
  }

  // ---------- All definitions ----------

  ghost predicate DefsOk(ct: Table, defs: seq<Def>) {
    forall i: nat :: i < |defs| ==> DefOk(ct, defs[i])
  }

  ghost predicate Defines(ct: Table, d: Def, k: nat)
    requires TableOk(ct) && DefOk(ct, d) && k < |ct.names|
  {
    Covered(ct, d.connectors, |d.connectors|, k)
  }

  /** The limit of the last definition that matches, zero if none does. */
  ghost function LastLimit(ct: Table, defs: seq<Def>, k: nat): nat
    requires TableOk(ct) && DefsOk(ct, defs) && k < |ct.names|
  {
    if defs == [] then 0
    else
      var n := |defs| - 1;
      if Defines(ct, defs[n], k) then defs[n].limit % 256 else LastLimit(ct, defs[..n], k)
  }

  lemma {:induction false} LastDefinitionDecides(ct: Table, defs: seq<Def>, k: nat, i: nat)
    requires TableOk(ct) && DefsOk(ct, defs) && k < |ct.names| && i < |defs|
    requires Defines(ct, defs[i], k) && forall j: nat :: i < j < |defs| ==> !Defines(ct, defs[j], k)
    ensures LastLimit(ct, defs, k) == defs[i].limit % 256
    ensures defs[i].limit <= 255 ==> LastLimit(ct, defs, k) == defs[i].limit
  {
    if i < |defs| - 1 { LastDefinitionDecides(ct, defs[..|defs| - 1], k, i); }
  }

  lemma {:induction false} NoDefinition(ct: Table, defs: seq<Def>, k: nat)
    requires TableOk(ct) && DefsOk(ct, defs) && k < |ct.names|
    requires forall i: nat :: i < |defs| ==> !Defines(ct, defs[i], k)
    ensures LastLimit(ct, defs, k) == 0
  {
    if defs != [] { NoDefinition(ct, defs[..|defs| - 1], k); }
  }

  ghost predicate SomeUnlimited(defs: seq<Def>) {
    exists i: nat :: i < |defs| && defs[i].limit == 255
  }

  /** set_all_condesc_length_limit(): the last definition that matches decides.
      If no definition says "unlimited", connectors without one are unlimited. */
  method SetAllCondescLengthLimit(ct: Table, defs: seq<Def>, limits: array<nat>)
    requires TableOk(ct) && DefsOk(ct, defs) && limits.Length == |ct.names|
    requires forall k: nat :: k < limits.Length ==> limits[k] == 0
    modifies limits
    ensures forall k: nat :: k < limits.Length ==>
              limits[k] == (var l := LastLimit(ct, defs, k);
                            if l == 0 && !SomeUnlimited(defs) then 255 else l)
  {
    hide AllWellFormed, Covered;
    var found := false;
    for n := 0 to |defs|
      invariant forall k: nat :: k < limits.Length ==> limits[k] == LastLimit(ct, defs[..n], k)
      invariant found <==> SomeUnlimited(defs[..n])
    {
      assert DefOk(ct, defs[n]);
      SetCondescLengthLimit(ct, defs[n], limits);
      if UNLIMITED_LEN == defs[n].limit { found := true; }
      assert defs[..n + 1][..n] == defs[..n];
      UnlimitedNext(defs, n);
    }
    assert defs[..|defs|] == defs;
    if !found {
      var en := 0;
      while en < |ct.sdesc|
        invariant en <= |ct.sdesc|
        invariant forall k: nat :: k < limits.Length ==>
                    limits[k] == if k in ct.sdesc[..en] && LastLimit(ct, defs, k) == 0 then UNLIMITED_LEN
                                 else LastLimit(ct, defs, k)
      {
        assert ct.sdesc[..en + 1] == ct.sdesc[..en] + [ct.sdesc[en]];
        if limits[ct.sdesc[en]] == 0 { limits[ct.sdesc[en]] := UNLIMITED_LEN; }
        en := en + 1;
      }
      assert ct.sdesc[..|ct.sdesc|] == ct.sdesc;
    }
  }

  lemma UnlimitedNext(defs: seq<Def>, n: nat)
    requires n < |defs|
    ensures SomeUnlimited(defs[..n + 1]) <==> SomeUnlimited(defs[..n]) || defs[n].limit == UNLIMITED_LEN
  {
    if SomeUnlimited(defs[..n]) {
      var i: nat :| i < n && defs[..n][i].limit == UNLIMITED_LEN;
      assert defs[..n + 1][i].limit == UNLIMITED_LEN;
    }
    if defs[n].limit == UNLIMITED_LEN { assert defs[..n + 1][n].limit == UNLIMITED_LEN; }
    if SomeUnlimited(defs[..n + 1]) {
      var i: nat :| i < n + 1 && defs[..n + 1][i].limit == UNLIMITED_LEN;
      if i < n { assert defs[..n][i].limit == UNLIMITED_LEN; }
    }
  }

  /** A connector in a definition need not get that definition's limit: it matches
      itself exactly when it is neither head nor dependent. */
  lemma MatchesItself(s: Name)
    requires WellFormed(s)
    ensures LcEasyMatch(Compile(s), Compile(s)) <==> UcStart(s) == 0
  {
    LcMatchIsNameMatch(s, s);
  }

  /** Batch numbering produces such a table, in which matching by number is
      matching by name, up to a tenth subscript character. */
  lemma BatchTable(ct: Table, numUc: nat)
    requires AllWellFormed(ct.names) && |ct.ucNum| == |ct.names| && ValidNumbers(ct.sdesc, ct.names)
    requires forall k: nat :: k < |ct.names| ==> k in ct.sdesc
    requires NumberedTo(ct.names, ct.sdesc, ct.ucNum, |ct.sdesc|, 0, numUc)
    ensures TableOk(ct)
    ensures forall e: nat, k: nat :: e < |ct.names| && k < |ct.names| ==>
              NamesMatch(ct.names[e], ct.names[k])
                == (Match(ct, e, k) && !TenthClash(LcPart(ct.names[e]), LcPart(ct.names[k])))
  {
    hide AllWellFormed, LcEasyMatch, UcPart, SubscriptsMatch, HeadsMatch;
    forall e: nat, k: nat | e < |ct.names| && k < |ct.names|
      ensures NamesMatch(ct.names[e], ct.names[k])
           == (Match(ct, e, k) && !TenthClash(LcPart(ct.names[e]), LcPart(ct.names[k])))
    {
      Formed(ct.names, e);
      Formed(ct.names, k);
      assert e in ct.sdesc && k in ct.sdesc;
      var x: nat :| x < |ct.sdesc| && ct.sdesc[x] == e;
      var y: nat :| y < |ct.sdesc| && ct.sdesc[y] == k;
      assert ct.ucNum[e] == ct.ucNum[k] <==> UcPart(ct.names[e]) == UcPart(ct.names[k]);
      LcMatchIsNameMatch(ct.names[e], ct.names[k]);
      MatchKept(LcPart(ct.names[e]), LcPart(ct.names[k]));
    }
  }
}
