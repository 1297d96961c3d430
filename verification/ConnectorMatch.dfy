/** Connector names, their compiled form, and the two ways of matching them:
    character by character, and by two 64-bit words per connector. */
module ConnectorMatch {

  // Names are C strings of ASCII bytes, without the terminator.
  type Name = seq<bv8>

  const WILD: bv8 := 0x2A
  const HEAD: bv8 := 0x68
  const DEPENDENT: bv8 := 0x64
  /** The subscript characters that fit one word, and the number beyond which
      the packing would shift by more than a word. */
  const MAX_LC: nat := 9
  const LC_LIMIT: nat := 10

  predicate IsUpper(c: bv8) { 0x41 <= c <= 0x5A }
  predicate IsLower(c: bv8) { 0x61 <= c <= 0x7A }
  predicate IsDigit(c: bv8) { 0x30 <= c <= 0x39 }
  predicate IsNameChar(c: bv8) { IsUpper(c) || c == 0x5F }
  predicate IsSubscriptChar(c: bv8) { IsLower(c) || IsDigit(c) || c == WILD }

  /** The character at `i`, or the terminator. */
  function CharAt(s: Name, i: nat): bv8 {
    if i < |s| then s[i] else 0
  }

  // ---------- The parts of a name ----------

  function UcStart(s: Name): (i: nat)
    ensures i <= 1
  {
    if IsLower(CharAt(s, 0)) then 1 else 0
  }

  /** The end of the run of name characters at `i`. */
  function RunEnd(s: Name, i: nat): (e: nat)
    requires i <= |s|
    ensures i <= e <= |s|
    ensures forall j: nat :: i <= j < e ==> IsNameChar(s[j])
    ensures e < |s| ==> !IsNameChar(s[e])
    decreases |s| - i
  {
    if i < |s| && IsNameChar(s[i]) then RunEnd(s, i + 1) else i
  }

  function UcEnd(s: Name): nat
    requires UcStart(s) <= |s|
  {
    RunEnd(s, UcStart(s))
  }

  function UcPart(s: Name): Name
    requires UcStart(s) <= |s|
  {
    s[UcStart(s)..UcEnd(s)]
  }

  function LcPart(s: Name): Name
    requires UcStart(s) <= |s|
  {
    s[UcEnd(s)..]
  }

  /** An optional 'h' or 'd', at least one name character, at most ten subscript
      characters. */
  predicate WellFormed(s: Name) {
    && UcStart(s) <= |s|
    && (UcStart(s) == 1 ==> s[0] == HEAD || s[0] == DEPENDENT)
    && UcPart(s) != []
    && |LcPart(s)| <= LC_LIMIT
    && forall i: nat :: i < |LcPart(s)| ==> IsSubscriptChar(LcPart(s)[i])
  }

  /** No underscore in the upper-case part. */
  predicate Plain(s: Name)
    requires UcStart(s) <= |s|
  {
    forall i: nat :: i < |UcPart(s)| ==> IsUpper(UcPart(s)[i])
  }

  // ---------- Matching characters ----------

  /** Subscripts agree, up to wildcards, as far as both go. */
  predicate SubscriptsMatch(a: Name, b: Name) {
    forall i: nat :: i < |a| && i < |b| ==> a[i] == WILD || b[i] == WILD || a[i] == b[i]
  }

  predicate HeadsMatch(s: Name, t: Name) {
    !(UcStart(s) == 1 && UcStart(t) == 1 && CharAt(s, 0) == CharAt(t, 0))
  }

  /** What it means for two connectors to match. */
  predicate NamesMatch(s: Name, t: Name)
    requires UcStart(s) <= |s| && UcStart(t) <= |t|
  {
    HeadsMatch(s, t) && UcPart(s) == UcPart(t) && SubscriptsMatch(LcPart(s), LcPart(t))
  }

  /** The upper-case comparison, then the subscript comparison, from `i` in `s`
      and `j` in `t` on. */
  predicate Compared(s: Name, t: Name, i: nat, j: nat)
    requires i <= |s| && j <= |t|
    decreases |s| - i + |t| - j
  {
    if IsUpper(CharAt(s, i)) || IsUpper(CharAt(t, j)) then
      CharAt(s, i) == CharAt(t, j) && Compared(s, t, i + 1, j + 1)
    else SubscriptsMatch(s[i..], t[j..])
  }

  /** easy_match() on any two strings. */
  method EasyMatch(s: Name, t: Name) returns (r: bool)
    requires forall c :: c in s || c in t ==> c != 0
    ensures r == (HeadsMatch(s, t) && Compared(s, t, UcStart(s), UcStart(t)))
  {
    var hs: bv8, ht: bv8 := 0, 0;
    var i, j := 0, 0;
    if IsLower(CharAt(s, 0)) { hs := s[0]; i := 1; }
    if IsLower(CharAt(t, 0)) { ht := t[0]; j := 1; }
    if hs != 0 && ht != 0 && hs == ht { return false; }
    while IsUpper(CharAt(s, i)) || IsUpper(CharAt(t, j))
      invariant i <= |s| && j <= |t|
      invariant Compared(s, t, i, j) == Compared(s, t, UcStart(s), UcStart(t))
      decreases |s| - i + |t| - j
    {
      if CharAt(s, i) != CharAt(t, j) { return false; }
      i, j := i + 1, j + 1;
    }
    ghost var a, b := s[i..], t[j..];
    ghost var k := 0;
    while i < |s| && j < |t|
      invariant k <= |a| && k <= |b| && i == |s| - |a| + k && j == |t| - |b| + k
      invariant forall n: nat :: n < k ==> a[n] == WILD || b[n] == WILD || a[n] == b[n]
      decreases |s| - i
    {
      assert s[i] == a[k] && t[j] == b[k];
      if s[i] == WILD || t[j] == WILD || s[i] == t[j] {
        i, j, k := i + 1, j + 1, k + 1;
      } else {
        return false;
      }
    }
    return true;
  }

  /** From equal distances before the ends of the two runs, the comparison says
      whether the rest of the runs and the subscripts match. */
  lemma {:induction false} ComparedRuns(s: Name, t: Name, i: nat, j: nat)
    requires WellFormed(s) && WellFormed(t) && Plain(s) && Plain(t)
    requires UcStart(s) <= i <= UcEnd(s) && UcStart(t) <= j <= UcEnd(t)
    ensures Compared(s, t, i, j)
        <==> s[i..UcEnd(s)] == t[j..UcEnd(t)] && SubscriptsMatch(LcPart(s), LcPart(t))
    decreases |s| - i + |t| - j
  {
    hide WellFormed, Plain, UcStart;
    PlainUpper(s, i);
    PlainUpper(t, j);
    NameParts(s);
    NameParts(t);
    if i < UcEnd(s) && j < UcEnd(t) {
      if s[i] == t[j] { ComparedRuns(s, t, i + 1, j + 1); }
      var a, b := s[i..UcEnd(s)], t[j..UcEnd(t)];
      assert a == [s[i]] + s[i + 1..UcEnd(s)] && b == [t[j]] + t[j + 1..UcEnd(t)];
    } else if i < UcEnd(s) {
      assert !IsUpper(CharAt(t, j));
      assert |s[i..UcEnd(s)]| > 0;
    } else if j < UcEnd(t) {
      assert |t[j..UcEnd(t)]| > 0;
    }
  }

  lemma NameParts(s: Name)
    requires WellFormed(s)
    ensures UcStart(s) <= UcEnd(s) <= |s| && LcPart(s) == s[UcEnd(s)..]
  {
  }

  /** In a plain name, a character is upper-case exactly within the run. */
  lemma PlainUpper(s: Name, i: nat)
    requires WellFormed(s) && Plain(s) && UcStart(s) <= i <= UcEnd(s)
    ensures IsUpper(CharAt(s, i)) <==> i < UcEnd(s)
  {
    if i < UcEnd(s) { assert s[i] == UcPart(s)[i - UcStart(s)]; }
  }

  /** On well-formed names without underscore, easy_match() says whether the
      connectors match. */
  lemma ComparedIsMatch(s: Name, t: Name)
    requires WellFormed(s) && WellFormed(t) && Plain(s) && Plain(t)
    ensures (HeadsMatch(s, t) && Compared(s, t, UcStart(s), UcStart(t))) == NamesMatch(s, t)
  {
    ComparedRuns(s, t, UcStart(s), UcStart(t));
  }

  // ---------- Compiled connectors ----------

  datatype Compiled = Compiled(lcLetters: bv64, lcMask: bv64)

  // The operations on words, named so that proofs can treat them as such.

  function Join(x: bv64, y: bv64): bv64 { x | y }
  function Meet(x: bv64, y: bv64): bv64 { x & y }
  function Differ(x: bv64, y: bv64): bv64 { x ^ y }
  function ShiftPlace(x: bv64): bv64 { x << 7 }

  /** A 7-bit code in the `n`th place: shifted by 7 * n bits. */
  function Place(x: bv64, n: nat): bv64 {
    if n == 0 then x else ShiftPlace(Place(x, n - 1))
  }

  function Code(c: bv8): bv64 {
    if c == WILD then 0 else LowBits(c)
  }

  function LowBits(c: bv8): bv64 { (c as bv64) & 127 }

  function Care(c: bv8): bv64 {
    if c == WILD then 0 else 127
  }

  function Letters(lc: Name): bv64
    requires |lc| <= LC_LIMIT
  {
    if lc == [] then 0
    else
      var n := |lc| - 1;
      Join(Letters(lc[..n]), Place(Code(lc[n]), n))
  }

  function Mask(lc: Name): bv64
    requires |lc| <= LC_LIMIT
  {
    if lc == [] then 0
    else
      var n := |lc| - 1;
      Join(Mask(lc[..n]), Place(Care(lc[n]), n))
  }

  function Bit(b: bool): bv64 { if b then 1 else 0 }

  /** Make room for a flag in the lowest bit, and set it. */
  function AddFlag(x: bv64, b: bool): bv64 { (x << 1) + Bit(b) }

  /** Pack the subscript of a connector. */
  method EncodeLc(lc: Name, headDependent: bool, head: bool) returns (d: Compiled)
    requires |lc| <= LC_LIMIT
    ensures d == Compiled(AddFlag(Letters(lc), head), AddFlag(Mask(lc), headDependent))
  {
    hide Join, LowBits, Bit, ShiftPlace, AddFlag;
    var mask: bv64, value: bv64, wildcard: bv64 := 0, 0, 127;
    var i := 0;
    while i < |lc|
      invariant 0 <= i <= |lc|
      invariant value == Letters(lc[..i]) && mask == Mask(lc[..i])
      invariant wildcard == Place(127, i)
    {
      assert lc[..i + 1][..i] == lc[..i];
      if lc[i] != WILD {
        value := Join(value, Place(LowBits(lc[i]), i));
        mask := Join(mask, wildcard);
      }
      EncodeStep(lc[..i + 1], i);
      wildcard := ShiftPlace(wildcard);
      i := i + 1;
    }
    assert lc[..i] == lc;
    d := Compiled(AddFlag(value, head), AddFlag(mask, headDependent));
  }

  /** calculate_connector_info(): find the parts of a name and compile it. */
  method CalculateConnectorInfo(s: Name) returns (d: Compiled, ucStart: nat, ucLength: nat)
    requires WellFormed(s)
    ensures ucStart == UcStart(s) && ucStart + ucLength <= |s| && s[ucStart..ucStart + ucLength] == UcPart(s)
    ensures d == Compile(s)
  {
    var i := 0;
    var headDependent, head := false, false;
    if IsLower(s[0]) {
      headDependent := s[0] == HEAD || s[0] == DEPENDENT;
      head := s[0] == HEAD;
      i := i + 1;
    }
    ucStart := i;
    assert UcPart(s)[0] == s[ucStart];
    i := i + 1;
    while IsNameChar(CharAt(s, i))
      invariant ucStart < i <= |s| && RunEnd(s, i) == UcEnd(s)
      decreases |s| - i
    {
      i := i + 1;
    }
    ucLength := i - ucStart;
    d := EncodeLc(s[i..], headDependent, head);
  }

  /** The compiled form of a name. */
  function Compile(s: Name): Compiled
    requires WellFormed(s)
  {
    Compiled(AddFlag(Letters(LcPart(s)), UcStart(s) == 1 && s[0] == HEAD),
             AddFlag(Mask(LcPart(s)), UcStart(s) == 1))
  }

  /** The bits in which two masked words differ: (x ^ y) & m & k. */
  function Difference(x: bv64, y: bv64, m: bv64, k: bv64): bv64 {
    Meet(Meet(Differ(x, y), m), k)
  }

  /** lc_easy_match(): the difference is m1 & m2 & 1. */
  predicate LcEasyMatch(c1: Compiled, c2: Compiled) {
    Difference(c1.lcLetters, c2.lcLetters, c1.lcMask, c2.lcMask) == Meet(Meet(c1.lcMask, c2.lcMask), 1)
  }

  /** easy_match_desc(). */
  predicate EasyMatchDesc(ucNum1: nat, c1: Compiled, ucNum2: nat, c2: Compiled) {
    ucNum1 == ucNum2 && LcEasyMatch(c1, c2)
  }

  // ---------- The bits ----------

  lemma ShiftZero()
    ensures ShiftPlace(0) == 0
  {
  }

  lemma {:induction false} PlaceZero(n: nat)
    ensures Place(0, n) == 0
  {
    hide ShiftPlace;
    ShiftZero();
    if n > 0 { PlaceZero(n - 1); }
  }

  lemma JoinNothing(x: bv64)
    ensures Join(x, 0) == x && Join(0, x) == x
  {
  }

  lemma EncodeStep(lc: Name, n: nat)
    requires |lc| == n + 1 <= LC_LIMIT
    ensures Letters(lc) == if lc[n] == WILD then Letters(lc[..n]) else Join(Letters(lc[..n]), Place(LowBits(lc[n]), n))
    ensures Mask(lc) == if lc[n] == WILD then Mask(lc[..n]) else Join(Mask(lc[..n]), Place(127, n))
  {
    hide Join, LowBits;
    PlaceZero(n);
    JoinNothing(Letters(lc[..n]));
    JoinNothing(Mask(lc[..n]));
  }

  /** The bits of the first `n` places. */
  function Below(n: nat): bv64
    requires n <= MAX_LC
  {
    if n == 0 then 0
    else if n == 1 then 0x7F
    else if n == 2 then 0x3FFF
    else if n == 3 then 0x1F_FFFF
    else if n == 4 then 0x0FFF_FFFF
    else if n == 5 then 0x7_FFFF_FFFF
    else if n == 6 then 0x3FF_FFFF_FFFF
    else if n == 7 then 0x1_FFFF_FFFF_FFFF
    else if n == 8 then 0xFF_FFFF_FFFF_FFFF
    else 0x7FFF_FFFF_FFFF_FFFF
  }

  predicate Within(x: bv64, bits: bv64) {
    x & bits == x
  }

  predicate Apart(lo: bv64, hi: bv64) {
    lo & hi == 0
  }

  /** The bits of the `n`th place. */
  function PlaceBits(n: nat): bv64
    requires n < MAX_LC
  {
    if n == 0 then 0x7F
    else if n == 1 then 0x3F80
    else if n == 2 then 0x1F_C000
    else if n == 3 then 0x0FE0_0000
    else if n == 4 then 0x7_F000_0000
    else if n == 5 then 0x3F8_0000_0000
    else if n == 6 then 0x1_FC00_0000_0000
    else if n == 7 then 0xFE_0000_0000_0000
    else 0x7F00_0000_0000_0000
  }

  lemma ShiftBits(n: nat)
    requires n + 1 < MAX_LC
    ensures ShiftPlace(PlaceBits(n)) == PlaceBits(n + 1)
  {
  }

  lemma {:induction false} PlaceOfBits(n: nat)
    requires n < MAX_LC
    ensures Place(127, n) == PlaceBits(n)
  {
    hide ShiftPlace, PlaceBits;
    if n == 0 {
      FirstBits();
    } else {
      PlaceOfBits(n - 1);
      ShiftBits(n - 1);
    }
  }

  lemma FirstBits()
    ensures PlaceBits(0) == 127
  {
  }

  lemma BitsApart(n: nat)
    requires n < MAX_LC
    ensures Apart(Below(n), PlaceBits(n)) && Join(Below(n), PlaceBits(n)) == Below(n + 1)
  {
  }

  lemma PlacesApart(n: nat)
    requires n < MAX_LC
    ensures Apart(Below(n), Place(127, n)) && Join(Below(n), Place(127, n)) == Below(n + 1)
  {
    hide Apart, Join, Below, PlaceBits, ShiftPlace;
    PlaceOfBits(n);
    BitsApart(n);
  }

  lemma ShiftWithin(x: bv64, bits: bv64)
    requires Within(x, bits)
    ensures Within(ShiftPlace(x), ShiftPlace(bits))
  {
  }

  lemma {:induction false} PlaceWithin(x: bv64, n: nat)
    requires Within(x, 127)
    ensures Within(Place(x, n), Place(127, n))
  {
    hide Within, ShiftPlace;
    if n > 0 {
      PlaceWithin(x, n - 1);
      ShiftWithin(Place(x, n - 1), Place(127, n - 1));
    }
  }

  lemma CodeWithin(c: bv8)
    ensures Within(Code(c), 127) && Within(Care(c), 127)
  {
  }

  lemma Widen(x: bv64, y: bv64, lo: bv64, hi: bv64)
    requires Within(x, lo) && Within(y, hi)
    ensures Within(Join(x, y), Join(lo, hi))
  {
  }

  lemma {:induction false} EncodedWithin(lc: Name)
    requires |lc| <= MAX_LC
    ensures Within(Letters(lc), Below(|lc|)) && Within(Mask(lc), Below(|lc|))
  {
    hide ShiftPlace, Below, Within, Code, Care, Join, Apart;
    if lc == [] {
      assert Within(0, Below(0)) by { NothingWithin(Below(0)); }
    } else {
      var n := |lc| - 1;
      EncodedWithin(lc[..n]);
      CodeWithin(lc[n]);
      PlaceWithin(Code(lc[n]), n);
      PlaceWithin(Care(lc[n]), n);
      PlacesApart(n);
      Widen(Letters(lc[..n]), Place(Code(lc[n]), n), Below(n), Place(127, n));
      Widen(Mask(lc[..n]), Place(Care(lc[n]), n), Below(n), Place(127, n));
    }
  }

  lemma NothingWithin(bits: bv64)
    ensures Within(0, bits)
  {
  }

  lemma DifferAssociates(x: bv64, y: bv64, z: bv64)
    ensures Differ(Differ(x, y), z) == Differ(x, Differ(y, z))
  {
    assert (x ^ y) ^ z == x ^ (y ^ z);
  }

  lemma DifferCommutes(x: bv64, y: bv64)
    ensures Differ(x, y) == Differ(y, x)
  {
  }

  lemma DifferRegroups(x: bv64, a: bv64, y: bv64, b: bv64)
    ensures Differ(Differ(x, a), Differ(y, b)) == Differ(Differ(x, y), Differ(a, b))
  {
    hide Differ;
    DifferAssociates(x, a, Differ(y, b));
    DifferAssociates(a, y, b);
    DifferCommutes(a, y);
    DifferAssociates(y, a, b);
    DifferAssociates(x, y, Differ(a, b));
  }

  lemma PartsApart(lo: bv64, hi: bv64, x: bv64, a: bv64)
    requires Apart(lo, hi) && Within(x, lo) && Within(a, hi)
    ensures Join(x, a) == Differ(x, a) && Meet(x, a) == 0 && Meet(a, x) == 0
  {
    assert x & a == 0;
  }

  lemma DifferWithin(x: bv64, y: bv64, lo: bv64)
    requires Within(x, lo) && Within(y, lo)
    ensures Within(Differ(x, y), lo)
  {
  }

  lemma MeetWithin(x: bv64, y: bv64, lo: bv64)
    requires Within(x, lo)
    ensures Within(Meet(x, y), lo)
  {
  }

  lemma MeetDistributes(x: bv64, a: bv64, m: bv64)
    ensures Meet(Join(x, a), m) == Join(Meet(x, m), Meet(a, m))
  {
    assert (x | a) & m == (x & m) | (a & m);
  }

  lemma MeetCommutes(x: bv64, y: bv64)
    ensures Meet(x, y) == Meet(y, x)
  {
  }

  lemma DifferSplit(lo: bv64, hi: bv64, x: bv64, y: bv64, a: bv64, b: bv64)
    requires Apart(lo, hi) && Within(x, lo) && Within(y, lo) && Within(a, hi) && Within(b, hi)
    ensures Differ(Join(x, a), Join(y, b)) == Join(Differ(x, y), Differ(a, b))
    ensures Within(Differ(x, y), lo) && Within(Differ(a, b), hi)
  {
    hide Join, Differ, Within, Apart, Meet;
    PartsApart(lo, hi, x, a);
    PartsApart(lo, hi, y, b);
    DifferWithin(x, y, lo);
    DifferWithin(a, b, hi);
    PartsApart(lo, hi, Differ(x, y), Differ(a, b));
    DifferRegroups(x, a, y, b);
  }

  lemma MeetSplit(lo: bv64, hi: bv64, x: bv64, m: bv64, a: bv64, p: bv64)
    requires Apart(lo, hi) && Within(x, lo) && Within(m, lo) && Within(a, hi) && Within(p, hi)
    ensures Meet(Join(x, a), Join(m, p)) == Join(Meet(x, m), Meet(a, p))
    ensures Within(Meet(x, m), lo) && Within(Meet(a, p), hi)
  {
    hide Join, Within, Apart, Meet;
    MeetDistributes(x, a, Join(m, p));
    MeetMissesHigh(lo, hi, m, p, x);
    MeetMissesLow(lo, hi, m, p, a);
    MeetWithin(x, m, lo);
    MeetWithin(a, p, hi);
  }

  lemma MeetMissesHigh(lo: bv64, hi: bv64, m: bv64, p: bv64, x: bv64)
    requires Apart(lo, hi) && Within(x, lo) && Within(p, hi)
    ensures Meet(x, Join(m, p)) == Meet(x, m) && Meet(Join(m, p), x) == Meet(m, x)
  {
    hide Join, Within, Apart, Meet, Differ;
    MeetCommutes(x, Join(m, p));
    MeetCommutes(m, x);
    MeetDistributes(m, p, x);
    PartsApart(lo, hi, x, p);
    JoinNothing(Meet(m, x));
  }

  lemma MeetMissesLow(lo: bv64, hi: bv64, m: bv64, p: bv64, a: bv64)
    requires Apart(lo, hi) && Within(a, hi) && Within(m, lo)
    ensures Meet(a, Join(m, p)) == Meet(a, p)
  {
    hide Join, Within, Apart, Meet, Differ;
    MeetCommutes(a, Join(m, p));
    MeetCommutes(p, a);
    MeetDistributes(m, p, a);
    PartsApart(lo, hi, m, a);
    JoinNothing(Meet(p, a));
  }

  lemma JoinZero(x: bv64, y: bv64)
    ensures Join(x, y) == 0 <==> x == 0 && y == 0
  {
  }

  /** Differences in disjoint places add up. */
  lemma DifferenceJoin(lo: bv64, hi: bv64, x: bv64, y: bv64, m: bv64, k: bv64, a: bv64, b: bv64, p: bv64, q: bv64)
    requires Apart(lo, hi)
    requires Within(x, lo) && Within(y, lo) && Within(m, lo) && Within(k, lo)
    requires Within(a, hi) && Within(b, hi) && Within(p, hi) && Within(q, hi)
    ensures Difference(Join(x, a), Join(y, b), Join(m, p), Join(k, q))
         == Join(Difference(x, y, m, k), Difference(a, b, p, q))
    ensures Within(Difference(x, y, m, k), lo) && Within(Difference(a, b, p, q), hi)
  {
    hide Apart, Within, Join, Meet, Differ;
    DifferSplit(lo, hi, x, y, a, b);
    MeetSplit(lo, hi, Differ(x, y), m, Differ(a, b), p);
    MeetSplit(lo, hi, Meet(Differ(x, y), m), k, Meet(Differ(a, b), p), q);
  }

  lemma DifferenceSplit(lo: bv64, hi: bv64, x: bv64, y: bv64, m: bv64, k: bv64, a: bv64, b: bv64, p: bv64, q: bv64)
    requires Apart(lo, hi)
    requires Within(x, lo) && Within(y, lo) && Within(m, lo) && Within(k, lo)
    requires Within(a, hi) && Within(b, hi) && Within(p, hi) && Within(q, hi)
    ensures Difference(Join(x, a), Join(y, b), Join(m, p), Join(k, q)) == 0
        <==> Difference(x, y, m, k) == 0 && Difference(a, b, p, q) == 0
  {
    hide Apart, Within, Join, Difference;
    DifferenceJoin(lo, hi, x, y, m, k, a, b, p, q);
    JoinZero(Difference(x, y, m, k), Difference(a, b, p, q));
  }

  lemma ShiftOps(a: bv64, b: bv64)
    ensures Differ(ShiftPlace(a), ShiftPlace(b)) == ShiftPlace(Differ(a, b))
    ensures Meet(ShiftPlace(a), ShiftPlace(b)) == ShiftPlace(Meet(a, b))
  {
  }

  lemma {:induction false} PlaceOps(n: nat, a: bv64, b: bv64)
    ensures Differ(Place(a, n), Place(b, n)) == Place(Differ(a, b), n)
    ensures Meet(Place(a, n), Place(b, n)) == Place(Meet(a, b), n)
  {
    hide Differ, Meet, ShiftPlace;
    if n > 0 {
      PlaceOps(n - 1, a, b);
      ShiftOps(Place(a, n - 1), Place(b, n - 1));
    }
  }

  lemma ShiftNothing(x: bv64, n: nat)
    requires n + 1 < MAX_LC && Within(x, PlaceBits(n))
    ensures ShiftPlace(x) == 0 <==> x == 0
  {
  }

  lemma {:induction false} PlaceNothing(n: nat, a: bv64)
    requires n < MAX_LC && Within(a, 127)
    ensures Place(a, n) == 0 <==> a == 0
  {
    hide Within, ShiftPlace, PlaceBits;
    if n > 0 {
      PlaceNothing(n - 1, a);
      PlaceWithin(a, n - 1);
      PlaceOfBits(n - 1);
      ShiftNothing(Place(a, n - 1), n - 1);
    }
  }

  lemma DifferenceWithin(a: bv64, b: bv64, p: bv64, q: bv64, bits: bv64)
    requires Within(p, bits)
    ensures Within(Difference(a, b, p, q), bits)
  {
  }

  lemma DifferencePlace(n: nat, a: bv64, b: bv64, p: bv64, q: bv64)
    ensures Difference(Place(a, n), Place(b, n), Place(p, n), Place(q, n)) == Place(Difference(a, b, p, q), n)
  {
    hide Differ, Meet;
    PlaceOps(n, a, b);
    PlaceOps(n, Differ(a, b), p);
    PlaceOps(n, Meet(Differ(a, b), p), q);
  }

  /** Moving to another place changes no difference. */
  lemma DifferencePlaced(n: nat, a: bv64, b: bv64, p: bv64, q: bv64)
    requires n < MAX_LC && Within(p, 127)
    ensures Difference(Place(a, n), Place(b, n), Place(p, n), Place(q, n)) == 0 <==> Difference(a, b, p, q) == 0
  {
    hide Within, Difference;
    DifferencePlace(n, a, b, p, q);
    DifferenceWithin(a, b, p, q, 127);
    PlaceNothing(n, Difference(a, b, p, q));
  }

  /** One pair of subscript characters. */
  lemma CharDifference(c: bv8, d: bv8)
    requires c < 128 && d < 128
    ensures Difference(Code(c), Code(d), Care(c), Care(d)) == 0 <==> c == WILD || d == WILD || c == d
  {
  }

  predicate Ascii(s: Name) {
    forall i: nat :: i < |s| ==> s[i] < 128
  }

  /** Equal lengths: the compiled subscripts differ nowhere exactly when the
      characters match. */
  lemma {:induction false} SameLength(a: Name, b: Name)
    requires |a| == |b| <= MAX_LC && Ascii(a) && Ascii(b)
    ensures Difference(Letters(a), Letters(b), Mask(a), Mask(b)) == 0 <==> SubscriptsMatch(a, b)
  {
    hide ShiftPlace, Below, Within, Code, Care, Join, Apart, Difference;
    if a == [] {
      NoDifference();
    } else {
      var n := |a| - 1;
      var c, d := a[n], b[n];
      SameLength(a[..n], b[..n]);
      EncodedWithin(a[..n]);
      EncodedWithin(b[..n]);
      CodeWithin(c);
      CodeWithin(d);
      PlacesApart(n);
      PlaceWithin(Code(c), n);
      PlaceWithin(Code(d), n);
      PlaceWithin(Care(c), n);
      PlaceWithin(Care(d), n);
      DifferenceSplit(Below(n), Place(127, n), Letters(a[..n]), Letters(b[..n]), Mask(a[..n]), Mask(b[..n]),
                      Place(Code(c), n), Place(Code(d), n), Place(Care(c), n), Place(Care(d), n));
      DifferencePlaced(n, Code(c), Code(d), Care(c), Care(d));
      CharDifference(c, d);
      MatchLast(a, b, n);
    }
  }

  lemma NoDifference()
    ensures Difference(0, 0, 0, 0) == 0
  {
  }

  lemma MatchLast(a: Name, b: Name, n: nat)
    requires |a| == |b| == n + 1
    ensures SubscriptsMatch(a, b) <==>
              SubscriptsMatch(a[..n], b[..n]) && (a[n] == WILD || b[n] == WILD || a[n] == b[n])
  {
    if SubscriptsMatch(a, b) {
      forall i: nat | i < n
        ensures a[..n][i] == WILD || b[..n][i] == WILD || a[..n][i] == b[..n][i]
      {
        assert a[i] == WILD || b[i] == WILD || a[i] == b[i];
      }
    }
  }

  /** What lies beyond the shorter subscript is not compared. */
  lemma {:induction false} LongerIgnored(a: Name, b: Name)
    requires |b| <= |a| <= MAX_LC
    ensures Difference(Letters(a), Letters(b), Mask(a), Mask(b))
         == Difference(Letters(a[..|b|]), Letters(b), Mask(a[..|b|]), Mask(b))
    decreases |a|
  {
    hide ShiftPlace, Below, Within, Code, Care, Difference, Join, Apart;
    if |a| == |b| {
      assert a[..|b|] == a;
    } else {
      var n := |a| - 1;
      LongerIgnored(a[..n], b);
      assert a[..n][..|b|] == a[..|b|];
      EncodedWithin(a[..n]);
      EncodedWithin(b);
      BelowGrows(|b|, n);
      WithinWider(Letters(b), Below(|b|), Below(n));
      WithinWider(Mask(b), Below(|b|), Below(n));
      CodeWithin(a[n]);
      PlacesApart(n);
      PlaceWithin(Code(a[n]), n);
      PlaceWithin(Care(a[n]), n);
      BeyondIgnored(Below(n), Place(127, n), Letters(a[..n]), Letters(b), Mask(a[..n]), Mask(b),
                    Place(Code(a[n]), n), Place(Care(a[n]), n));
    }
  }

  lemma BelowGrows(m: nat, n: nat)
    requires m <= n <= MAX_LC
    ensures Within(Below(m), Below(n))
  {
  }

  lemma BeyondIgnored(lo: bv64, hi: bv64, x: bv64, y: bv64, m: bv64, k: bv64, a: bv64, p: bv64)
    requires Apart(lo, hi) && Within(x, lo) && Within(y, lo) && Within(m, lo) && Within(k, lo)
    requires Within(a, hi) && Within(p, hi)
    ensures Difference(Join(x, a), y, Join(m, p), k) == Difference(x, y, m, k)
  {
    hide Difference, Join, Within, Apart;
    JoinNothing(y);
    JoinNothing(k);
    NothingWithin(hi);
    DifferenceJoin(lo, hi, x, y, m, k, a, 0, p, 0);
    NothingDiffers(a, 0, p);
    JoinNothing(Difference(x, y, m, k));
  }

  lemma NothingDiffers(a: bv64, b: bv64, p: bv64)
    ensures Difference(a, b, p, 0) == 0
  {
  }

  lemma WithinWider(x: bv64, lo: bv64, wider: bv64)
    requires Within(x, lo) && Within(lo, wider)
    ensures Within(x, wider)
  {
  }

  lemma DifferenceSwap(x: bv64, y: bv64, m: bv64, k: bv64)
    ensures Difference(x, y, m, k) == Difference(y, x, k, m)
  {
    hide Differ, Meet;
    DifferCommutes(x, y);
    MeetRotates(Differ(x, y), m, k);
  }

  lemma MeetRotates(x: bv64, m: bv64, k: bv64)
    ensures Meet(Meet(x, m), k) == Meet(Meet(x, k), m)
  {
    assert (x & m) & k == (x & k) & m;
  }

  /** The packed subscripts differ nowhere exactly when the strings match. */
  lemma SubscriptBits(a: Name, b: Name)
    requires |a| <= MAX_LC && |b| <= MAX_LC && Ascii(a) && Ascii(b)
    ensures Difference(Letters(a), Letters(b), Mask(a), Mask(b)) == 0 <==> SubscriptsMatch(a, b)
  {
    hide Difference;
    if |b| <= |a| {
      LongerIgnored(a, b);
      SameLength(a[..|b|], b);
    } else {
      LongerIgnored(b, a);
      SameLength(a, b[..|a|]);
      DifferenceSwap(Letters(a), Letters(b), Mask(a), Mask(b));
      DifferenceSwap(Letters(a), Letters(b[..|a|]), Mask(a), Mask(b[..|a|]));
    }
  }

  const ALL63: bv64 := 0x7FFF_FFFF_FFFF_FFFF
  const HIGH: bv64 := 0xFFFF_FFFF_FFFF_FFFE

  function Double(x: bv64): bv64 { x << 1 }

  lemma FlagJoins(x: bv64, b: bool)
    ensures AddFlag(x, b) == Join(Double(x), Bit(b))
    ensures Within(Double(x), HIGH) && Within(Bit(b), 1)
  {
  }

  lemma DoubleOps(x: bv64, y: bv64)
    ensures Differ(Double(x), Double(y)) == Double(Differ(x, y))
    ensures Meet(Double(x), Double(y)) == Double(Meet(x, y))
  {
  }

  lemma DoubleNothing(x: bv64)
    requires Within(x, ALL63)
    ensures Double(x) == 0 <==> x == 0
  {
  }

  lemma DifferenceDoubled(x: bv64, y: bv64, m: bv64, k: bv64)
    requires Within(m, ALL63)
    ensures Difference(Double(x), Double(y), Double(m), Double(k)) == 0 <==> Difference(x, y, m, k) == 0
  {
    hide Double, Within, Differ, Meet;
    DoubleOps(x, y);
    DoubleOps(Differ(x, y), m);
    DoubleOps(Meet(Differ(x, y), m), k);
    DifferenceWithin(x, y, m, k, ALL63);
    DoubleNothing(Difference(x, y, m, k));
  }

  lemma LowBitDecides(hi: bv64, lo: bv64, mhi: bv64, khi: bv64, d1: bool, d2: bool)
    requires Within(hi, HIGH) && Within(lo, 1) && Within(mhi, HIGH) && Within(khi, HIGH)
    ensures Join(hi, lo) == Meet(Meet(Join(mhi, Bit(d1)), Join(khi, Bit(d2))), 1)
        <==> hi == 0 && lo == Bit(d1 && d2)
  {
  }

  lemma FlagDifference(h1: bool, h2: bool, d1: bool, d2: bool)
    ensures Difference(Bit(h1), Bit(h2), Bit(d1), Bit(d2)) == Bit(d1 && d2) <==> (d1 && d2 ==> h1 != h2)
  {
  }

  lemma HighLowApart()
    ensures Apart(HIGH, 1)
  {
  }

  /** The head/dependent bit and the 63 subscript bits of one comparison. */
  lemma FlagBit(x: bv64, y: bv64, m: bv64, k: bv64, h1: bool, h2: bool, d1: bool, d2: bool)
    requires Within(m, ALL63)
    ensures LcEasyMatch(Compiled(AddFlag(x, h1), AddFlag(m, d1)), Compiled(AddFlag(y, h2), AddFlag(k, d2)))
        <==> Difference(x, y, m, k) == 0 && (d1 && d2 ==> h1 != h2)
  {
    hide AddFlag, Join, Double, Bit, Within, Difference, Apart, Meet;
    FlagJoins(x, h1);
    FlagJoins(y, h2);
    FlagJoins(m, d1);
    FlagJoins(k, d2);
    HighLowApart();
    DifferenceJoin(HIGH, 1, Double(x), Double(y), Double(m), Double(k), Bit(h1), Bit(h2), Bit(d1), Bit(d2));
    LowBitDecides(Difference(Double(x), Double(y), Double(m), Double(k)),
                  Difference(Bit(h1), Bit(h2), Bit(d1), Bit(d2)), Double(m), Double(k), d1, d2);
    DifferenceDoubled(x, y, m, k);
    FlagDifference(h1, h2, d1, d2);
  }

  lemma WithinAll(x: bv64, n: nat)
    requires n <= MAX_LC && Within(x, Below(n))
    ensures Within(x, ALL63)
  {
  }

  lemma SubscriptAscii(s: Name)
    requires WellFormed(s)
    ensures Ascii(Kept(LcPart(s)))
  {
    assert Ascii(LcPart(s)) by { SubscriptChars(s); }
  }

  lemma SubscriptChars(s: Name)
    requires WellFormed(s)
    ensures Ascii(LcPart(s))
  {
    forall i: nat | i < |LcPart(s)|
      ensures LcPart(s)[i] < 128
    {
      assert IsSubscriptChar(LcPart(s)[i]);
    }
  }

  // ---------- A tenth character ----------

  /** The part of a subscript that is kept in the word. */
  function Kept(lc: Name): (r: Name)
    ensures |r| <= MAX_LC
  {
    if |lc| <= MAX_LC then lc else lc[..MAX_LC]
  }

  /** The tenth characters are both there and do not match. */
  predicate TenthClash(a: Name, b: Name) {
    |a| > MAX_LC && |b| > MAX_LC && a[MAX_LC] != WILD && b[MAX_LC] != WILD && a[MAX_LC] != b[MAX_LC]
  }

  lemma TenthPlace(x: bv64)
    requires Within(x, 127)
    ensures Meet(Place(x, MAX_LC), ALL63) == 0
  {
    hide Within, ShiftPlace, PlaceBits, Meet;
    PlaceWithin(x, 8);
    PlaceOfBits(8);
    OutOfPlaces(Place(x, 8));
    assert Place(x, 9) == ShiftPlace(Place(x, 8));
  }

  lemma OutOfPlaces(x: bv64)
    requires Within(x, PlaceBits(8))
    ensures Meet(ShiftPlace(x), ALL63) == 0
  {
  }

  lemma FlagDropsTop(x: bv64, z: bv64, b: bool)
    requires Meet(z, ALL63) == 0
    ensures AddFlag(Join(x, z), b) == AddFlag(x, b)
  {
    hide AddFlag, Join, Double, Bit, Meet, Within;
    FlagJoins(Join(x, z), b);
    FlagJoins(x, b);
    DoubleDrops(x, z);
  }

  lemma DoubleDrops(x: bv64, z: bv64)
    requires Meet(z, ALL63) == 0
    ensures Double(Join(x, z)) == Double(x)
  {
    assert z & 0x7FFF_FFFF_FFFF_FFFF == 0;
    assert (x | z) << 1 == x << 1;
  }

  /** Making room for the polarity bit drops the tenth character. */
  lemma TenthDropped(lc: Name, b: bool)
    requires |lc| <= LC_LIMIT
    ensures AddFlag(Letters(lc), b) == AddFlag(Letters(Kept(lc)), b)
    ensures AddFlag(Mask(lc), b) == AddFlag(Mask(Kept(lc)), b)
  {
    hide AddFlag, Join, Within, Code, Care, Meet;
    if |lc| > MAX_LC {
      CodeWithin(lc[MAX_LC]);
      TenthPlace(Code(lc[MAX_LC]));
      TenthPlace(Care(lc[MAX_LC]));
      FlagDropsTop(Letters(lc[..MAX_LC]), Place(Code(lc[MAX_LC]), MAX_LC), b);
      FlagDropsTop(Mask(lc[..MAX_LC]), Place(Care(lc[MAX_LC]), MAX_LC), b);
    }
  }

  /** What is kept matches, and the tenth characters do not clash. */
  lemma MatchKept(a: Name, b: Name)
    requires |a| <= LC_LIMIT && |b| <= LC_LIMIT
    ensures SubscriptsMatch(a, b) <==> SubscriptsMatch(Kept(a), Kept(b)) && !TenthClash(a, b)
  {
    if SubscriptsMatch(a, b) {
      forall i: nat | i < |Kept(a)| && i < |Kept(b)|
        ensures Kept(a)[i] == WILD || Kept(b)[i] == WILD || Kept(a)[i] == Kept(b)[i]
      {
        assert a[i] == WILD || b[i] == WILD || a[i] == b[i];
      }
    }
    if SubscriptsMatch(Kept(a), Kept(b)) && !TenthClash(a, b) {
      forall i: nat | i < |a| && i < |b|
        ensures a[i] == WILD || b[i] == WILD || a[i] == b[i]
      {
        if i < MAX_LC { assert Kept(a)[i] == WILD || Kept(b)[i] == WILD || Kept(a)[i] == Kept(b)[i]; }
      }
    }
  }

  /** Matching compiled connectors is matching their names: on well-formed names
      without underscore, with numbers that tell upper-case parts apart,
      easy_match_desc() on the compiled forms is easy_match() on the strings,
      except that a tenth subscript character is not compared. */
  lemma DescriptorsRefineNames(s: Name, t: Name, ucNum1: nat, ucNum2: nat)
    requires WellFormed(s) && WellFormed(t) && Plain(s) && Plain(t)
    requires ucNum1 == ucNum2 <==> UcPart(s) == UcPart(t)
    ensures NamesMatch(s, t)
         == (EasyMatchDesc(ucNum1, Compile(s), ucNum2, Compile(t)) && !TenthClash(LcPart(s), LcPart(t)))
    ensures (HeadsMatch(s, t) && Compared(s, t, UcStart(s), UcStart(t))) == NamesMatch(s, t)
  {
    ComparedIsMatch(s, t);
    LcMatchIsNameMatch(s, t);
    MatchKept(LcPart(s), LcPart(t));
  }

  /** Two names that differ in their tenth subscript character only: the strings
      do not match, the compiled connectors do. */
  lemma TenthExample()
    ensures var nine: Name := [0x61, 0x61, 0x61, 0x61, 0x61, 0x61, 0x61, 0x61, 0x61];
            var s, t: Name := [0x41] + nine + [0x62], [0x41] + nine + [0x63];
            && WellFormed(s) && WellFormed(t) && Plain(s) && Plain(t) && UcPart(s) == UcPart(t)
            && !NamesMatch(s, t)
            && forall n: nat :: EasyMatchDesc(n, Compile(s), n, Compile(t))
  {
    hide LcEasyMatch;
    var nine: Name := [0x61, 0x61, 0x61, 0x61, 0x61, 0x61, 0x61, 0x61, 0x61];
    var s, t: Name := [0x41] + nine + [0x62], [0x41] + nine + [0x63];
    assert RunEnd(s, 1) == 1 && RunEnd(t, 1) == 1;
    assert UcPart(s) == [0x41] && UcPart(t) == [0x41];
    assert LcPart(s) == nine + [0x62] && LcPart(t) == nine + [0x63];
    assert LcPart(s)[9] != LcPart(t)[9];
    assert Kept(LcPart(s)) == nine && Kept(LcPart(t)) == nine;
    LcMatchIsNameMatch(s, t);
  }

  /** The lower-case comparison decides heads and the first nine subscript
      characters, underscore or not. */
  lemma LcMatchIsNameMatch(s: Name, t: Name)
    requires WellFormed(s) && WellFormed(t)
    ensures LcEasyMatch(Compile(s), Compile(t))
         == (HeadsMatch(s, t) && SubscriptsMatch(Kept(LcPart(s)), Kept(LcPart(t))))
  {
    hide Within, Difference, LcEasyMatch, Below, AddFlag, Kept;
    var a, b := Kept(LcPart(s)), Kept(LcPart(t));
    SubscriptAscii(s);
    SubscriptAscii(t);
    SubscriptBits(a, b);
    EncodedWithin(a);
    EncodedWithin(b);
    WithinAll(Letters(a), |a|);
    WithinAll(Letters(b), |b|);
    WithinAll(Mask(a), |a|);
    WithinAll(Mask(b), |b|);
    TenthDropped(LcPart(s), UcStart(s) == 1 && s[0] == HEAD);
    TenthDropped(LcPart(t), UcStart(t) == 1 && t[0] == HEAD);
    TenthDropped(LcPart(s), UcStart(s) == 1);
    TenthDropped(LcPart(t), UcStart(t) == 1);
    FlagBit(Letters(a), Letters(b), Mask(a), Mask(b), UcStart(s) == 1 && s[0] == HEAD, UcStart(t) == 1 && t[0] == HEAD,
            UcStart(s) == 1, UcStart(t) == 1);
  }

  // ---------- Underscores ----------

  /** The two ways of matching give the same answer. */
  predicate Agree(s: Name, t: Name)
    requires UcStart(s) <= |s| && UcStart(t) <= |t|
  {
    (HeadsMatch(s, t) && Compared(s, t, UcStart(s), UcStart(t))) == NamesMatch(s, t)
  }

  /** The end of the run of capitals at `i`. */
  function CapsEnd(s: Name, i: nat): (e: nat)
    requires i <= |s|
    ensures i <= e <= |s|
    decreases |s| - i
  {
    if i < |s| && IsUpper(s[i]) then CapsEnd(s, i + 1) else i
  }

  /** The capitals after the polarity, and all that follows them. */
  function Caps(s: Name): Name
    requires UcStart(s) <= |s|
  {
    s[UcStart(s)..CapsEnd(s, UcStart(s))]
  }

  function AfterCaps(s: Name): Name
    requires UcStart(s) <= |s|
  {
    s[CapsEnd(s, UcStart(s))..]
  }

  /** The string comparison on any two strings: equal runs of capitals, then
      everything else as if it were a subscript. */
  lemma {:induction false} ComparedCaps(s: Name, t: Name, i: nat, j: nat)
    requires i <= |s| && j <= |t|
    ensures Compared(s, t, i, j) <==>
              s[i..CapsEnd(s, i)] == t[j..CapsEnd(t, j)] && SubscriptsMatch(s[CapsEnd(s, i)..], t[CapsEnd(t, j)..])
    decreases |s| - i + |t| - j
  {
    hide SubscriptsMatch;
    if IsUpper(CharAt(s, i)) && IsUpper(CharAt(t, j)) {
      ComparedCaps(s, t, i + 1, j + 1);
      var a, b := s[i..CapsEnd(s, i)], t[j..CapsEnd(t, j)];
      assert a == [s[i]] + s[i + 1..CapsEnd(s, i)] && b == [t[j]] + t[j + 1..CapsEnd(t, j)];
    } else if IsUpper(CharAt(s, i)) {
      assert |s[i..CapsEnd(s, i)]| > 0;
    } else if IsUpper(CharAt(t, j)) {
      assert |t[j..CapsEnd(t, j)]| > 0;
    }
  }

  /** How many capitals a string begins with. */
  function CapsCount(u: Name): (n: nat)
    ensures n <= |u|
  {
    CapsEnd(u, 0)
  }

  /** The capitals are those of the upper-case part alone. */
  lemma {:induction false} CapsOfPart(s: Name, i: nat, j: nat)
    requires UcStart(s) <= |s| && UcStart(s) <= i <= UcEnd(s) && j == i - UcStart(s)
    ensures CapsEnd(s, i) == UcStart(s) + CapsEnd(UcPart(s), j)
    decreases UcEnd(s) - i
  {
    if i < UcEnd(s) {
      assert s[i] == UcPart(s)[j];
      if IsUpper(s[i]) { CapsOfPart(s, i + 1, j + 1); }
    }
  }

  lemma CapsSplit(s: Name)
    requires WellFormed(s)
    ensures Caps(s) == UcPart(s)[..CapsCount(UcPart(s))]
    ensures AfterCaps(s) == UcPart(s)[CapsCount(UcPart(s))..] + LcPart(s)
  {
    CapsOfPart(s, UcStart(s), 0);
    CutTwice(s, UcStart(s), CapsEnd(s, UcStart(s)), UcEnd(s));
  }

  lemma CutTwice(s: Name, b: nat, c: nat, n: nat)
    requires b <= c <= n <= |s|
    ensures s[b..c] == s[b..n][..c - b] && s[c..] == s[b..n][c - b..] + s[n..]
  {
    assert s[b..n][c - b..] == s[c..n];
  }

  lemma SamePrefixMatch(u: Name, a: Name, b: Name)
    ensures SubscriptsMatch(u + a, u + b) <==> SubscriptsMatch(a, b)
  {
    if SubscriptsMatch(u + a, u + b) {
      forall i: nat | i < |a| && i < |b|
        ensures a[i] == WILD || b[i] == WILD || a[i] == b[i]
      {
        assert (u + a)[|u| + i] == a[i] && (u + b)[|u| + i] == b[i];
      }
    }
  }

  /** Matching by string and matching by parts agree on a pair of well-formed
      names if and only if the polarities clash, or the upper-case parts are
      equal, or the runs of capitals differ, or what follows them does not match
      as a subscript. */
  lemma AgreeExactly(s: Name, t: Name)
    requires WellFormed(s) && WellFormed(t)
    ensures Agree(s, t) <==>
              !HeadsMatch(s, t) || UcPart(s) == UcPart(t) || Caps(s) != Caps(t)
              || !SubscriptsMatch(AfterCaps(s), AfterCaps(t))
  {
    hide SubscriptsMatch, HeadsMatch, WellFormed, UcPart, LcPart;
    NameParts(s);
    NameParts(t);
    ComparedCaps(s, t, UcStart(s), UcStart(t));
    if UcPart(s) == UcPart(t) {
      CapsSplit(s);
      CapsSplit(t);
      SamePrefixMatch(UcPart(s)[CapsCount(UcPart(s))..], LcPart(s), LcPart(t));
    }
  }

  /** Generated idiom connectors begin with an underscore.  "_IB" and "_IBA" match
      as strings, although their upper-case parts differ. */
  lemma IdiomsDisagree()
    ensures var s, t: Name := [0x5F, 0x49, 0x42], [0x5F, 0x49, 0x42, 0x41];
            WellFormed(s) && WellFormed(t) && !Agree(s, t)
  {
    var s, t: Name := [0x5F, 0x49, 0x42], [0x5F, 0x49, 0x42, 0x41];
    AllNameChars(s, 0);
    AllNameChars(t, 0);
    assert UcPart(s) == s && UcPart(t) == t;
    AgreeExactly(s, t);
    assert Caps(s) == [] && Caps(t) == [];
    assert |s| != |t|;
  }

  lemma {:induction false} AllNameChars(t: Name, i: nat)
    requires i <= |t| && forall j: nat :: j < |t| ==> IsNameChar(t[j])
    ensures RunEnd(t, i) == |t|
    decreases |t| - i
  {
    if i < |t| { AllNameChars(t, i + 1); }
  }

  /** A name agrees with every plain name exactly when it is plain itself or
      begins, after its polarity, with an underscore. */
  lemma AgreesWithPlain(s: Name)
    requires WellFormed(s)
    ensures (forall t: Name | WellFormed(t) && Plain(t) :: Agree(s, t)) <==> Plain(s) || UcPart(s)[0] == 0x5F
  {
    if Plain(s) {
      forall t: Name | WellFormed(t) && Plain(t)
        ensures Agree(s, t)
      {
        ComparedIsMatch(s, t);
      }
    } else if UcPart(s)[0] == 0x5F {
      forall t: Name | WellFormed(t) && Plain(t)
        ensures Agree(s, t)
      {
        LeadingUnderscore(s, t);
      }
    } else {
      var t := CutAtUnderscore(s);
    }
  }

  lemma LeadingUnderscore(s: Name, t: Name)
    requires WellFormed(s) && UcPart(s)[0] == 0x5F && WellFormed(t) && Plain(t)
    ensures Agree(s, t)
  {
    assert IsUpper(UcPart(t)[0]);
    assert CharAt(s, UcStart(s)) == 0x5F && CharAt(t, UcStart(t)) == UcPart(t)[0];
  }

  /** The plain part before an inner underscore is taken for the whole name. */
  lemma CutAtUnderscore(s: Name) returns (t: Name)
    requires WellFormed(s) && !Plain(s) && UcPart(s)[0] != 0x5F
    ensures WellFormed(t) && Plain(t) && !Agree(s, t)
  {
    var u := UcPart(s);
    var k := 1;
    while IsUpper(u[k])
      invariant 1 <= k < |u|
      invariant forall i: nat :: i < k ==> IsUpper(u[i])
      decreases |u| - k
    {
      k := k + 1;
    }
    t := u[..k];
    assert t[0] == u[0];
    AllNameChars(t, 0);
    assert UcPart(t) == t && LcPart(t) == [];
    PrefixCompared(s, t, 0);
    assert |UcPart(s)| > |UcPart(t)|;
  }

  lemma {:induction false} PrefixCompared(s: Name, t: Name, i: nat)
    requires WellFormed(s) && i <= |t| < |UcPart(s)| && t == UcPart(s)[..|t|]
    requires (forall j: nat :: j < |t| ==> IsUpper(t[j])) && !IsUpper(UcPart(s)[|t|])
    ensures Compared(s, t, UcStart(s) + i, i)
    decreases |t| - i
  {
    assert s[UcStart(s) + i] == UcPart(s)[i];
    if i < |t| {
      assert t[i] == UcPart(s)[i];
      PrefixCompared(s, t, i + 1);
    }
  }
}
