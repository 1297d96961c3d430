/** Connector names byte by byte: which strings are names, what their parts are,
    when they match, and that the compiled form can be read back. */
module NameForms {
  import opened ConnectorMatch

  /** The polarity ('h', 'd' or none), the upper-case part (capitals and
      underscores) and the subscript (small letters, digits and stars). */
  predicate NameBytes(h: Name, u: Name, l: Name) {
    && (h == [] || h == [0x68] || h == [0x64])
    && u != []
    && |l| <= 10
    && (forall i: nat :: i < |u| ==> 0x41 <= u[i] <= 0x5A || u[i] == 0x5F)
    && forall i: nat :: i < |l| ==> 0x61 <= l[i] <= 0x7A || 0x30 <= l[i] <= 0x39 || l[i] == 0x2A
  }

  lemma {:induction false} RunOver(s: Name, i: nat, e: nat)
    requires i <= e <= |s|
    requires forall k: nat :: i <= k < e ==> 0x41 <= s[k] <= 0x5A || s[k] == 0x5F
    requires e < |s| ==> !(0x41 <= s[e] <= 0x5A || s[e] == 0x5F)
    ensures RunEnd(s, i) == e
    decreases e - i
  {
    if i < e { RunOver(s, i + 1, e); }
  }

  /** The parts of a name are those it is written from. */
  lemma PartsOfName(h: Name, u: Name, l: Name)
    requires NameBytes(h, u, l)
    ensures var s := h + u + l;
            && WellFormed(s)
            && UcStart(s) == |h|
            && UcPart(s) == u
            && LcPart(s) == l
            && (Plain(s) <==> 0x5F !in u)
  {
    hide WellFormed;
    var s := h + u + l;
    assert s[0] == if h == [] then u[0] else h[0];
    assert UcStart(s) == |h|;
    var e := |h| + |u|;
    assert forall k: nat :: |h| <= k < e ==> s[k] == u[k - |h|];
    assert e < |s| ==> s[e] == l[0];
    RunOver(s, |h|, e);
    assert s[|h|..e] == u && s[e..] == l;
    assert UcPart(s) == u && LcPart(s) == l;
    PlainBytes(s, u);
    FormedBytes(s, h, u, l);
  }

  lemma FormedBytes(s: Name, h: Name, u: Name, l: Name)
    requires NameBytes(h, u, l) && s == h + u + l && UcStart(s) == |h| && UcPart(s) == u && LcPart(s) == l
    ensures WellFormed(s)
  {
    if |h| == 1 { assert s[0] == h[0]; }
  }

  lemma PlainBytes(s: Name, u: Name)
    requires UcStart(s) <= |s| && UcPart(s) == u
    requires forall i: nat :: i < |u| ==> 0x41 <= u[i] <= 0x5A || u[i] == 0x5F
    ensures Plain(s) <==> 0x5F !in u
  {
  }

  /** Well-formed names are exactly those. */
  lemma NamesOfBytes(s: Name)
    ensures WellFormed(s) <==> exists h: Name, u: Name, l: Name :: NameBytes(h, u, l) && s == h + u + l
  {
    if WellFormed(s) {
      var h, u, l := s[..UcStart(s)], UcPart(s), LcPart(s);
      assert s == h + u + l;
      assert h == [] || h == [s[0]];
      assert NameBytes(h, u, l);
    }
    if h: Name, u: Name, l: Name :| NameBytes(h, u, l) && s == h + u + l {
      PartsOfName(h, u, l);
    }
  }

  /** When two names match. */
  lemma MatchOfNames(h: Name, u: Name, l: Name, h': Name, u': Name, l': Name)
    requires NameBytes(h, u, l) && NameBytes(h', u', l')
    ensures var s, s' := h + u + l, h' + u' + l';
            && UcStart(s) <= |s| && UcStart(s') <= |s'|
            && (NamesMatch(s, s') <==>
                  && (h == [] || h != h')
                  && u == u'
                  && forall i: nat :: i < |l| && i < |l'| ==> l[i] == 0x2A || l'[i] == 0x2A || l[i] == l'[i])
  {
    hide WellFormed;
    PartsOfName(h, u, l);
    PartsOfName(h', u', l');
    var s, s' := h + u + l, h' + u' + l';
    assert h != [] ==> CharAt(s, 0) == h[0];
    assert h' != [] ==> CharAt(s', 0) == h'[0];
    assert HeadsMatch(s, s') <==> h == [] || h != h';
    assert SubscriptsMatch(l, l') <==>
      forall i: nat :: i < |l| && i < |l'| ==> l[i] == 0x2A || l'[i] == 0x2A || l[i] == l'[i];
  }

  // ---------- Reading the compiled form ----------

  function Unshift(x: bv64): bv64 { x >> 7 }
  function Lowest(x: bv64): bv64 { x & 127 }
  function WithoutFlag(x: bv64): bv64 { x >> 1 }

  /** As the link label is read: seven bits after seven bits. */
  function Dropped(x: bv64, i: nat): bv64 {
    if i == 0 then x else Dropped(Unshift(x), i - 1)
  }

  lemma UnshiftJoin(x: bv64, y: bv64)
    ensures Unshift(Join(x, y)) == Join(Unshift(x), Unshift(y))
  {
  }

  lemma {:induction false} DroppedJoin(x: bv64, y: bv64, i: nat)
    ensures Dropped(Join(x, y), i) == Join(Dropped(x, i), Dropped(y, i))
    decreases i
  {
    hide Join, Unshift;
    if i > 0 {
      UnshiftJoin(x, y);
      DroppedJoin(Unshift(x), Unshift(y), i - 1);
    }
  }

  lemma ShiftBack(p: bv64, n: nat)
    requires n + 1 < MAX_LC && Within(p, PlaceBits(n))
    ensures Unshift(ShiftPlace(p)) == p
  {
    assert p & 0xFE00_0000_0000_0000 == 0;
  }

  lemma {:induction false} DroppedPlace(c: bv64, n: nat, i: nat)
    requires i <= n < MAX_LC && Within(c, 127)
    ensures Dropped(Place(c, n), i) == Place(c, n - i)
    decreases i
  {
    hide Within, ShiftPlace, PlaceBits, Unshift;
    if i > 0 {
      PlaceWithin(c, n - 1);
      PlaceOfBits(n - 1);
      ShiftBack(Place(c, n - 1), n - 1);
      DroppedPlace(c, n - 1, i - 1);
    }
  }

  lemma BelowDropped(x: bv64, n: nat)
    requires 0 < n <= MAX_LC && Within(x, Below(n))
    ensures Within(Unshift(x), Below(n - 1))
  {
  }

  lemma {:induction false} NothingLeft(x: bv64, n: nat, i: nat)
    requires n <= MAX_LC && Within(x, Below(n)) && n <= i
    ensures Dropped(x, i) == 0
    decreases i
  {
    hide Below, Within, Unshift;
    if n > 0 {
      BelowDropped(x, n);
      NothingLeft(Unshift(x), n - 1, i - 1);
    } else {
      NoBits(x);
      ZeroDropped(i);
    }
  }

  lemma NoBits(x: bv64)
    requires Within(x, Below(0))
    ensures x == 0
  {
  }

  lemma {:induction false} ZeroDropped(i: nat)
    ensures Dropped(0, i) == 0
  {
    if i > 0 { ZeroDropped(i - 1); }
  }

  lemma HigherPlace(x: bv64, c: bv64, n: nat)
    requires n > 0
    ensures Lowest(Join(x, Place(c, n))) == Lowest(x)
  {
    var p := Place(c, n - 1);
    assert (x | (p << 7)) & 127 == x & 127;
  }

  lemma LowestPlace(x: bv64, c: bv64)
    requires x == 0 && Within(c, 127)
    ensures Lowest(Join(x, Place(c, 0))) == c
  {
  }

  /** One of the two words: `last` is in its `n`th place, `rest` below. */
  lemma WordBack(rest: bv64, last: bv64, n: nat, i: nat)
    requires n < MAX_LC && i <= n && Within(rest, Below(n)) && Within(last, 127)
    ensures Lowest(Dropped(Join(rest, Place(last, n)), i)) == if i == n then last else Lowest(Dropped(rest, i))
  {
    hide Within, Below, Join, ShiftPlace, Lowest, Unshift;
    DroppedJoin(rest, Place(last, n), i);
    DroppedPlace(last, n, i);
    if i == n {
      NothingLeft(rest, n, n);
      LowestPlace(Dropped(rest, n), last);
    } else {
      HigherPlace(Dropped(rest, i), last, n - i);
    }
  }

  lemma {:induction false} LettersBack(lc: Name, i: nat)
    requires i < |lc| <= MAX_LC
    ensures Lowest(Dropped(Letters(lc), i)) == Code(lc[i])
    ensures Lowest(Dropped(Mask(lc), i)) == Care(lc[i])
    decreases |lc|
  {
    hide Within, Below, Code, Care, Join, ShiftPlace, Lowest, Unshift;
    var n := |lc| - 1;
    EncodedWithin(lc[..n]);
    CodeWithin(lc[n]);
    WordBack(Letters(lc[..n]), Code(lc[n]), n, i);
    WordBack(Mask(lc[..n]), Care(lc[n]), n, i);
    if i < n { LettersBack(lc[..n], i); }
  }

  lemma FlagBack(x: bv64, b: bool)
    requires Within(x, ALL63)
    ensures WithoutFlag(AddFlag(x, b)) == x
  {
  }

  lemma FlagAlone(x: bv64, b: bool)
    ensures AddFlag(x, b) & 1 == if b then 1 else 0
  {
  }

  lemma CharBack(c: bv8)
    requires 0x61 <= c <= 0x7A || 0x30 <= c <= 0x39 || c == 0x2A
    ensures Code(c) == if c == 0x2A then 0 else c as bv64
    ensures Care(c) == if c == 0x2A then 0 else 127
  {
  }

  /** The two words without the polarity bits are those of the subscript. */
  lemma WithoutPolarity(h: Name, u: Name, l: Name)
    requires NameBytes(h, u, l) && |l| <= 9
    ensures WellFormed(h + u + l)
    ensures var c := Compile(h + u + l);
            WithoutFlag(c.lcLetters) == Letters(l) && WithoutFlag(c.lcMask) == Mask(l)
  {
    hide Within, Below, AddFlag, WellFormed, WithoutFlag, Join, ShiftPlace, Code, Care;
    PartsOfName(h, u, l);
    var s := h + u + l;
    EncodedWithin(l);
    WithinAll(Letters(l), |l|);
    WithinAll(Mask(l), |l|);
    FlagBack(Letters(l), UcStart(s) == 1 && s[0] == HEAD);
    FlagBack(Mask(l), UcStart(s) == 1);
  }

  /** Up to nine subscript characters can be read back from the compiled form, a
      star as zero, and the mask says where there is a star; nothing follows. */
  lemma ReadBack(h: Name, u: Name, l: Name, i: nat)
    requires NameBytes(h, u, l) && |l| <= 9
    ensures WellFormed(h + u + l)
    ensures var c := Compile(h + u + l);
            var x, m := Dropped(WithoutFlag(c.lcLetters), i), Dropped(WithoutFlag(c.lcMask), i);
            if i >= |l| then x == 0 && m == 0
            else if l[i] == 0x2A then x & 127 == 0 && m & 127 == 0
            else x & 127 == l[i] as bv64 && m & 127 == 127
  {
    hide Letters, Mask, Within, Below, Compile, WellFormed, Code, Care, Unshift, WithoutFlag;
    WithoutPolarity(h, u, l);
    if i < |l| {
      LettersBack(l, i);
      CharBack(l[i]);
    } else {
      EncodedWithin(l);
      NothingLeft(Letters(l), |l|, i);
      NothingLeft(Mask(l), |l|, i);
    }
  }

  /** The lowest bits tell the polarity: of the letters, 'h'; of the mask, any. */
  lemma PolarityBits(h: Name, u: Name, l: Name)
    requires NameBytes(h, u, l)
    ensures WellFormed(h + u + l)
    ensures var c := Compile(h + u + l);
            && c.lcLetters & 1 == (if h == [0x68] then 1 else 0)
            && c.lcMask & 1 == (if h == [] then 0 else 1)
  {
    hide Letters, Mask, AddFlag, WellFormed;
    PartsOfName(h, u, l);
    var s := h + u + l;
    FlagAlone(Letters(l), UcStart(s) == 1 && s[0] == HEAD);
    FlagAlone(Mask(l), UcStart(s) == 1);
    assert h != [] ==> s[0] == h[0];
  }
}
