/** The table of connector descriptors: strings are interned by open addressing
    with linear probing, and each new string gets the next ordinal number. */
module ConTables {
  import opened Bits
  import opened ConnectorMatch
  import opened UcOrder
  import Probing

  /** The number of a connector that has none yet. */
  const UNNUMBERED: nat := 0xFFFF_FFFF

  /** A slot: empty, or the descriptor with this ordinal number. */
  datatype Slot = Empty | Full(con: nat)

  // ---------- Hashing ----------

  function JenkinsStep(hash: bv32, c: bv8): bv32 {
    var i := hash + c as bv32;
    var j := i + (i << 10);
    j ^ (j >> 6)
  }

  /** The Jenkins hash of the leading name characters, over the first `n`. */
  function Jenkins(s: Name, n: nat): bv32
    requires n <= |s|
  {
    if n == 0 then 0
    else
      JenkinsStep(Jenkins(s, n - 1), s[n - 1])
  }

  function Avalanche(i: bv32): bv32 {
    var j := i + (i << 3);
    var k := j ^ (j >> 11);
    k + (k << 15)
  }

  function StrHash(s: Name): bv32 {
    Avalanche(Jenkins(s, RunEnd(s, 0)))
  }

  /** The hash of "SJ". */
  lemma HashExample()
    ensures var s: Name := [0x53, 0x4A]; StrHash(s) == 3480207689
  {
    var s: Name := [0x53, 0x4A];
    assert RunEnd(s, 0) == 2;
    assert Jenkins(s, 1) == JenkinsStep(0, 0x53);
    assert Jenkins(s, 2) == JenkinsStep(Jenkins(s, 1), 0x4A) == 87254602;
  }

  method ConnectorStrHash(s: Name) returns (hash: bv32)
    ensures hash == StrHash(s)
  {
    hide Avalanche, JenkinsStep;
    var i: bv32 := 0;
    var n := 0;
    while IsNameChar(CharAt(s, n))
      invariant n <= |s| && i == Jenkins(s, n) && RunEnd(s, n) == RunEnd(s, 0)
      decreases |s| - n
    {
      i := JenkinsStep(i, s[n]);
      n := n + 1;
    }
    hash := Avalanche(i);
  }

  function HashNumber(hash: bv32): nat { hash as nat }

  function Home(hash: bv32, size: nat): (h: nat)
    requires size > 0
    ensures h < size
  {
    hide HashNumber;
    And(HashNumber(hash), size - 1)
  }

  // ---------- Linear probing ----------

  /** The slot `n` steps after `h`, around the end. */
  function After(h: nat, n: nat, size: nat): (i: nat)
    requires h < size && n < size
    ensures i < size
  {
    if h + n < size then h + n else h + n - size
  }

  /** How many steps from `h` to `i`. */
  function Distance(h: nat, i: nat, size: nat): (n: nat)
    requires h < size && i < size
    ensures n < size && After(h, n, size) == i
  {
    if i >= h then i - h else i + size - h
  }

  lemma Advance(h: nat, n: nat, size: nat)
    requires h < size && n + 1 < size && PowerOfTwo(size)
    ensures And(After(h, n, size) + 1, size - 1) == After(h, n + 1, size)
  {
    hide PowerOfTwo;
    MaskNext(After(h, n, size), size);
  }

  ghost predicate SlotsValid(t: seq<Slot>, names: seq<Name>) {
    forall i: nat :: i < |t| && t[i].Full? ==> t[i].con < |names|
  }

  /** The first `n` slots from `s`'s home on hold other strings. */
  ghost predicate Passed(t: seq<Slot>, names: seq<Name>, s: Name, n: nat)
    requires |t| > 0 && n <= |t| && SlotsValid(t, names)
  {
    forall m: nat :: m < n ==>
      var i := After(Home(StrHash(s), |t|), m, |t|);
      t[i].Full? && names[t[i].con] != s
  }

  /** A search for `s` that has met no match arrives at slot `i`. */
  ghost predicate OnPath(t: seq<Slot>, names: seq<Name>, s: Name, i: nat)
    requires i < |t| && SlotsValid(t, names)
  {
    Passed(t, names, s, Distance(Home(StrHash(s), |t|), i, |t|))
  }

  ghost predicate DistinctNames(names: seq<Name>) {
    forall j: nat, k: nat :: j < k < |names| ==> names[j] != names[k]
  }

  ghost predicate HasSlot(t: seq<Slot>, names: seq<Name>, k: nat)
    requires SlotsValid(t, names) && k < |names|
  {
    exists i: nat :: i < |t| && t[i] == Full(k) && OnPath(t, names, names[k], i)
  }

  /** The table holds exactly the strings with these numbers, each where a search
      finds it. */
  ghost predicate Holds(t: seq<Slot>, names: seq<Name>, present: set<nat>) {
    && |t| > 0
    && SlotsValid(t, names)
    && DistinctNames(names)
    && (forall k :: k in present ==> k < |names| && HasSlot(t, names, k))
    && (forall i: nat :: i < |t| && t[i].Full? ==> t[i].con in present && OnPath(t, names, names[t[i].con], i))
  }

  /** A search that stops at an empty slot has missed nothing; one that stops at
      the string has found its only slot. */
  lemma SearchExact(t: seq<Slot>, names: seq<Name>, present: set<nat>, s: Name, i: nat)
    requires Holds(t, names, present) && i < |t| && OnPath(t, names, s, i)
    ensures t[i].Empty? ==> forall k :: k in present ==> names[k] != s
  {
    if t[i].Empty? {
      forall k | k in present
        ensures names[k] != s
      {
        if names[k] == s {
          assert HasSlot(t, names, k);
          var j: nat :| j < |t| && t[j] == Full(k) && OnPath(t, names, s, j);
          SamePlace(t, names, s, i, j);
        }
      }
    }
  }

  /** Two slots at which a search for `s` can stop are one. */
  lemma SamePlace(t: seq<Slot>, names: seq<Name>, s: Name, i: nat, j: nat)
    requires i < |t| && j < |t| && SlotsValid(t, names) && OnPath(t, names, s, i) && OnPath(t, names, s, j)
    requires t[i].Full? ==> names[t[i].con] == s
    requires t[j].Full? ==> names[t[j].con] == s
    ensures i == j
  {
    var h := Home(StrHash(s), |t|);
    var m, n := Distance(h, i, |t|), Distance(h, j, |t|);
    assert After(h, m, |t|) == i && After(h, n, |t|) == j;
  }

  /** Filling the empty slot on a string's path keeps all others in place. */
  lemma PathsKept(t: seq<Slot>, names: seq<Name>, names': seq<Name>, i: nat, k: nat, s: Name, n: nat)
    requires SlotsValid(t, names) && names <= names' && i < |t| && t[i].Empty? && k < |names'| && n <= |t|
    requires Passed(t, names, s, n)
    ensures SlotsValid(t[i := Full(k)], names') && Passed(t[i := Full(k)], names', s, n)
  {
    forall m: nat | m < n
      ensures var j := After(Home(StrHash(s), |t|), m, |t|);
              j != i && names'[t[j].con] == names[t[j].con]
    {
      var j := After(Home(StrHash(s), |t|), m, |t|);
      assert t[j].Full?;
    }
  }

  lemma Fill(t: seq<Slot>, names: seq<Name>, names': seq<Name>, present: set<nat>, i: nat, k: nat)
    requires Holds(t, names, present) && names <= names' && DistinctNames(names')
    requires i < |t| && t[i].Empty? && k < |names'| && OnPath(t, names, names'[k], i)
    ensures Holds(t[i := Full(k)], names', present + {k})
  {
    var t' := t[i := Full(k)];
    PathsKept(t, names, names', i, k, names'[k], Distance(Home(StrHash(names'[k]), |t|), i, |t|));
    forall j: nat | j < |t'| && t'[j].Full?
      ensures t'[j].con in present + {k} && OnPath(t', names', names'[t'[j].con], j)
    {
      if j != i {
        assert OnPath(t, names, names[t[j].con], j);
        var s := names[t[j].con];
        PathsKept(t, names, names', i, k, s, Distance(Home(StrHash(s), |t|), j, |t|));
      }
    }
    forall c | c in present + {k}
      ensures c < |names'| && HasSlot(t', names', c)
    {
      if c == k {
        assert t'[i] == Full(c) && OnPath(t', names', names'[c], i);
      } else {
        assert HasSlot(t, names, c);
        var j: nat :| j < |t| && t[j] == Full(c) && OnPath(t, names, names[c], j);
        assert t'[j] == Full(c) && OnPath(t', names', names'[c], j);
      }
    }
  }

  ghost function Occupied(t: seq<Slot>): set<nat> {
    set i: nat | i < |t| && t[i].Full?
  }

  lemma OccupiedStep(t: seq<Slot>, n: nat)
    requires n < |t|
    ensures Occupied(t[..n + 1]) == Occupied(t[..n]) + if t[n].Full? then {n} else {}
  {
  }

  lemma {:induction false} AllFull(t: seq<Slot>, n: nat)
    requires n <= |t| && forall j: nat :: j < |t| ==> t[j].Full?
    ensures |Occupied(t[..n])| == n
  {
    if n > 0 {
      AllFull(t, n - 1);
      OccupiedStep(t, n - 1);
    }
  }

  lemma Whole(t: seq<Slot>)
    ensures t[..|t|] == t
  {
  }

  /** There is an empty slot while fewer are occupied than there are. */
  lemma SomeEmpty(t: seq<Slot>) returns (i: nat)
    requires |Occupied(t)| < |t|
    ensures i < |t| && t[i].Empty?
  {
    if forall j: nat :: j < |t| ==> t[j].Full? {
      Whole(t);
      AllFull(t, |t|);
      assert false;
    }
    i :| i < |t| && t[i].Empty?;
  }

  /** Where a search for `s` stops. */
  ghost predicate Stops(t: seq<Slot>, names: seq<Name>, s: Name, i: nat) {
    && SlotsValid(t, names)
    && i < |t|
    && OnPath(t, names, s, i)
    && (t[i].Full? ==> names[t[i].con] == s)
  }

  /** condesc_find(). */
  method Find(t: array<Slot>, names: seq<Name>, s: Name, hash: bv32) returns (i: nat)
    requires t.Length > 0 && PowerOfTwo(t.Length) && SlotsValid(t[..], names) && hash == StrHash(s) && |Occupied(t[..])| < t.Length
    ensures Stops(t[..], names, s, i)
  {
    hide StrHash, Home, PowerOfTwo;
    ghost var free := SomeEmpty(t[..]);
    ghost var h := Home(hash, t.Length);
    ghost var last := Distance(h, free, t.Length);
    ghost var n := 0;
    i := Home(hash, t.Length);
    while t[i].Full? && names[t[i].con] != s
      invariant n <= last && i == After(h, n, t.Length)
      invariant Passed(t[..], names, s, n)
      decreases last - n
    {
      assert n != last;
      Advance(h, n, t.Length);
      i := And(i + 1, t.Length - 1);
      n := n + 1;
    }
    assert Distance(h, i, t.Length) == n;
  }

  lemma OccupiedFill(t: seq<Slot>, i: nat, k: nat)
    requires i < |t| && t[i].Empty?
    ensures |Occupied(t[i := Full(k)])| == |Occupied(t)| + 1
  {
    assert Occupied(t[i := Full(k)]) == Occupied(t) + {i};
  }

  /** The numbers in the first `n` slots. */
  ghost function Numbers(t: seq<Slot>, n: nat): set<nat>
    requires n <= |t|
  {
    set i: nat | i < n && t[i].Full? :: t[i].con
  }

  lemma NumbersStep(t: seq<Slot>, n: nat)
    requires n < |t|
    ensures Numbers(t, n + 1) == Numbers(t, n) + if t[n].Full? then {t[n].con} else {}
  {
  }

  /** A slot's number is in no earlier slot. */
  lemma NumbersFresh(t: seq<Slot>, names: seq<Name>, present: set<nat>, n: nat)
    requires Holds(t, names, present) && n < |t| && t[n].Full?
    ensures t[n].con !in Numbers(t, n)
  {
    if t[n].con in Numbers(t, n) {
      var i: nat :| i < n && t[i].Full? && t[i].con == t[n].con;
      SamePlace(t, names, names[t[n].con], i, n);
      assert false;
    }
  }

  lemma NumbersAll(t: seq<Slot>, names: seq<Name>, present: set<nat>)
    requires Holds(t, names, present)
    ensures Numbers(t, |t|) == present
  {
    forall k | k in present
      ensures k in Numbers(t, |t|)
    {
      assert HasSlot(t, names, k);
    }
  }

  /** The numbers below `n`. */
  ghost function FirstNumbers(n: nat): (b: set<nat>)
    ensures forall k: nat :: k in b <==> k < n
  {
    if n == 0 then {} else FirstNumbers(n - 1) + {n - 1}
  }

  /** A power of two more than four times the expected number of connectors. */
  method TableSize(numCon: nat) returns (size: nat)
    ensures PowerOfTwo(size) && 4 * numCon < size && (size <= 8 * numCon || size == 4)
  {
    var n := numCon;
    ghost var k := 0;
    size := 1;
    while n > 0
      invariant size >= 1 && Between(numCon, n, size) && size == Pow2(k)
      invariant size <= 2 * numCon || size == 1
      decreases n
    {
      HalveBetween(numCon, n, size);
      n, size, k := n / 2, size * 2, k + 1;
    }
    TwiceIsPower(k);
    TwiceIsPower(k + 1);
    size := 4 * size;
  }

  lemma TwiceIsPower(k: nat)
    ensures Pow2(k + 1) == 2 * Pow2(k) && PowerOfTwo(2 * Pow2(k))
  {
    assert Pow2(k + 1) == 2 * Pow2(k);
  }

  predicate Between(x: nat, n: nat, size: nat) { n * size <= x < (n + 1) * size }

  lemma HalveBetween(x: nat, n: nat, size: nat)
    requires Between(x, n, size)
    ensures Between(x, n / 2, size * 2) && (n > 0 ==> size <= x)
  {
    Halve(n, size);
  }

  lemma Halve(n: nat, size: nat)
    ensures (n + 1) * size <= (n / 2 + 1) * (size * 2)
    ensures n / 2 * (size * 2) <= n * size
    ensures n > 0 ==> size <= n * size
  {
    var m := 2 * (n / 2 + 1);
    assert (n / 2 + 1) * (size * 2) == m * size;
    Probing.MulMono(n + 1, m, size);
    var h := 2 * (n / 2);
    assert n / 2 * (size * 2) == h * size;
    Probing.MulMono(h, n, size);
    Probing.MulMono(1, n, size);
  }

  lemma TwicePower(size: nat)
    requires PowerOfTwo(size)
    ensures PowerOfTwo(2 * size)
  {
    var k: nat :| Pow2(k) == size;
    TwiceIsPower(k);
  }

  lemma HoldsFacts(t: seq<Slot>, names: seq<Name>, present: set<nat>)
    requires Holds(t, names, present)
    ensures |t| > 0 && SlotsValid(t, names) && DistinctNames(names)
    ensures forall k :: k in present ==> k < |names|
  {
  }

  /** The place found for a string not yet in the table is empty. */
  lemma NotYetThere(t: seq<Slot>, names: seq<Name>, present: set<nat>, con: nat, j: nat)
    requires Holds(t, names, present) && con < |names| && con !in present && Stops(t, names, names[con], j)
    ensures t[j].Empty?
  {
  }

  lemma OccupiedWithin(t: seq<Slot>, n: nat)
    requires n <= |t|
    ensures |Occupied(t[..n])| <= |Occupied(t)|
  {
    Probing.SubsetSize(Occupied(t[..n]), Occupied(t));
  }

  lemma StartMove(t: seq<Slot>, from: seq<Slot>, names: seq<Name>)
    requires |t| > |from| && (forall i: nat :: i < |t| ==> t[i].Empty?) && Holds(from, names, FirstNumbers(|names|))
    ensures Moved(t, from, names, 0) && |Occupied(from)| < |t|
  {
    assert Occupied(t) == {} && Occupied(from[..0]) == {} && Numbers(from, 0) == {};
    OccupiedBound(from, |from|);
    Whole(from);
  }

  lemma {:induction false} OccupiedBound(t: seq<Slot>, n: nat)
    requires n <= |t|
    ensures |Occupied(t[..n])| <= n
  {
    if n > 0 {
      OccupiedBound(t, n - 1);
      OccupiedStep(t, n - 1);
    } else {
      assert Occupied(t[..0]) == {};
    }
  }

  /** The slots of `from` up to `i` have been moved to `t`. */
  ghost predicate Moved(t: seq<Slot>, from: seq<Slot>, names: seq<Name>, i: nat)
    requires i <= |from|
  {
    Holds(t, names, Numbers(from, i)) && |Occupied(t)| == |Occupied(from[..i])|
  }

  lemma MoveOne(t: seq<Slot>, from: seq<Slot>, names: seq<Name>, i: nat, con: nat, j: nat)
    requires Holds(from, names, FirstNumbers(|names|)) && i < |from| && from[i] == Full(con) && con < |names|
    requires Moved(t, from, names, i) && Stops(t, names, names[con], j)
    ensures t[j].Empty? && Moved(t[j := Full(con)], from, names, i + 1)
  {
    hide Holds, StrHash, OnPath;
    NumbersFresh(from, names, FirstNumbers(|names|), i);
    NumbersStep(from, i);
    OccupiedStep(from, i);
    NotYetThere(t, names, Numbers(from, i), con, j);
    HoldsFacts(from, names, FirstNumbers(|names|));
    Fill(t, names, names, Numbers(from, i), j, con);
    OccupiedFill(t, j, con);
  }

  lemma MoveNone(t: seq<Slot>, from: seq<Slot>, names: seq<Name>, i: nat)
    requires i < |from| && from[i].Empty? && Moved(t, from, names, i)
    ensures Moved(t, from, names, i + 1)
  {
    hide Holds;
    NumbersStep(from, i);
    OccupiedStep(from, i);
  }

  lemma AllMoved(t: seq<Slot>, from: seq<Slot>, names: seq<Name>)
    requires Holds(from, names, FirstNumbers(|names|)) && Moved(t, from, names, |from|)
    ensures Holds(t, names, FirstNumbers(|names|)) && |Occupied(t)| == |Occupied(from)|
  {
    hide Holds;
    NumbersAll(from, names, FirstNumbers(|names|));
    Whole(from);
  }

  class ConTable {
    var hdesc: array<Slot>
    var names: seq<Name>
    var hashes: seq<bv32>
    var ucNum: seq<nat>
    var numUc: nat
    var lastNum: nat

    ghost predicate Shape()
      reads this, hdesc
    {
      && hdesc.Length >= 4
      && PowerOfTwo(hdesc.Length)
      && Holds(hdesc[..], names, FirstNumbers(|names|))
      && |Occupied(hdesc[..])| == |names|
      && HashesOk()
    }

    ghost predicate HashesOk()
      reads this
    {
      |hashes| == |names| == |ucNum| && forall k: nat :: k < |names| ==> hashes[k] == StrHash(names[k])
    }

    /** At rest, at most 3/8 of the slots are in use. */
    ghost predicate Valid()
      reads this, hdesc
    {
      Shape() && 8 * |names| <= 3 * hdesc.Length
    }

    /** condesc_init() for an expected number of connectors. */
    constructor (numCon: nat)
      ensures Valid() && fresh(hdesc) && names == []
      ensures 4 * numCon < hdesc.Length && (hdesc.Length <= 8 * numCon || hdesc.Length == 4)
      ensures numUc == lastNum == 0
    {
      var size := TableSize(numCon);
      hdesc := new Slot[size](_ => Empty);
      names, hashes, ucNum := [], [], [];
      numUc, lastNum := 0, 0;
      new;
      assert Occupied(hdesc[..]) == {};
    }

    /** Move one slot.  The place found is always empty: the code's internal
        error cannot occur. */
    method MoveSlot(ghost from: seq<Slot>, ghost i: nat, con: nat)
      requires HashesOk() && Holds(from, names, FirstNumbers(|names|)) && |Occupied(from)| < hdesc.Length
      requires PowerOfTwo(hdesc.Length)
      requires i < |from| && from[i] == Full(con) && Moved(hdesc[..], from, names, i)
      modifies hdesc
      ensures Moved(hdesc[..], from, names, i + 1)
    {
      hide StrHash, Holds, OnPath, PowerOfTwo;
      OccupiedWithin(from, i);
      HoldsFacts(hdesc[..], names, Numbers(from, i));
      HoldsFacts(from, names, FirstNumbers(|names|));
      var j := Find(hdesc, names, names[con], hashes[con]);
      MoveOne(hdesc[..], from, names, i, con, j);
      ghost var t := hdesc[..];
      hdesc[j] := Full(con);
      assert hdesc[..] == t[j := Full(con)];
    }

    /** condesc_grow(): twice the size. */
    method Grow()
      requires Shape()
      modifies this`hdesc
      ensures Shape() && fresh(hdesc) && hdesc.Length == 2 * old(hdesc.Length)
    {
      hide Holds, Moved, PowerOfTwo;
      TwicePower(hdesc.Length);
      var oldHdesc := hdesc;
      ghost var from := hdesc[..];
      hdesc := new Slot[2 * oldHdesc.Length](_ => Empty);
      StartMove(hdesc[..], from, names);
      var i := 0;
      while i < oldHdesc.Length
        invariant i <= |from| == oldHdesc.Length && oldHdesc[..] == from && fresh(hdesc)
        invariant hdesc.Length == 2 * |from| && Moved(hdesc[..], from, names, i)
        decreases oldHdesc.Length - i
      {
        assert oldHdesc[i] == from[i];
        if oldHdesc[i].Full? {
          MoveSlot(from, i, oldHdesc[i].con);
        } else {
          MoveNone(hdesc[..], from, names, i);
        }
        i := i + 1;
      }
      AllMoved(hdesc[..], from, names);
    }

    /** condesc_add(): the number of the string, a new one if it is new. */
    method Add(s: Name) returns (k: nat)
      requires Valid()
      modifies `hdesc, `names, `hashes, `ucNum, hdesc
      ensures Valid() && (hdesc == old(hdesc) || fresh(hdesc))
      ensures names == if s in old(names) then old(names) else old(names) + [s]
      ensures k < |names| && names[k] == s
      ensures ucNum == if s in old(names) then old(ucNum) else old(ucNum) + [0xFFFF_FFFF]
      ensures var size := old(hdesc.Length);
              hdesc.Length == if s !in old(names) && 8 * |names| > 3 * size then 2 * size else size
    {
      hide Holds, StrHash, Home, OnPath, PowerOfTwo;
      var hash := ConnectorStrHash(s);
      HoldsFacts(hdesc[..], names, FirstNumbers(|names|));
      var h := Find(hdesc, names, s, hash);
      SearchExact(hdesc[..], names, FirstNumbers(|names|), s, h);
      if hdesc[h].Full? { return hdesc[h].con; }
      k := |names|;
      Fill(hdesc[..], names, names + [s], FirstNumbers(|names|), h, k);
      OccupiedFill(hdesc[..], h, k);
      ghost var t := hdesc[..];
      hdesc[h] := Full(k);
      assert hdesc[..] == t[h := Full(k)];
      names, hashes, ucNum := names + [s], hashes + [hash], ucNum + [UNNUMBERED];
      if 8 * |names| > 3 * hdesc.Length { Grow(); }
    }

    /** The connectors in the table, in slot order: all, or those without a
        number. */
    method Collect(onlyNew: bool) returns (sdesc: seq<nat>)
      requires Valid()
      ensures Unrepeated(sdesc) && ValidNumbers(sdesc, names)
      ensures forall k: nat :: k in sdesc <==> k < |names| && (onlyNew ==> ucNum[k] == UNNUMBERED)
    {
      hide Holds;
      sdesc := [];
      HoldsFacts(hdesc[..], names, FirstNumbers(|names|));
      var n := 0;
      assert Numbers(hdesc[..], 0) == {};
      while n < hdesc.Length
        invariant n <= hdesc.Length && Unrepeated(sdesc) && ValidNumbers(sdesc, names)
        invariant forall k: nat :: k in sdesc <==>
                    k in Numbers(hdesc[..], n) && k < |names| && (onlyNew ==> ucNum[k] == UNNUMBERED)
      {
        NumbersStep(hdesc[..], n);
        if hdesc[n].Full? {
          NumbersFresh(hdesc[..], names, FirstNumbers(|names|), n);
          var con := hdesc[n].con;
          if !onlyNew || ucNum[con] == UNNUMBERED { sdesc := sdesc + [con]; }
        }
        n := n + 1;
      }
      NumbersAll(hdesc[..], names, FirstNumbers(|names|));
    }

    /** Number an ordered list, from `start` on. */
    method Enumerate(sdesc: seq<nat>, start: nat) returns (end: nat)
      requires sdesc != [] && Unrepeated(sdesc) && |ucNum| == |names|
      requires AllWellFormed(names) && ValidNumbers(sdesc, names) && InOrder(names, sdesc)
      modifies `ucNum
      ensures |ucNum| == |names| && start < end <= start + |sdesc|
      ensures NumberedTo(names, sdesc, ucNum, |sdesc|, start, end)
      ensures forall k: nat :: k < |names| && k !in sdesc ==> ucNum[k] == old(ucNum[k])
    {
      hide NewPart, AllWellFormed, InOrder, NumberedTo;
      NumberFirst(names, sdesc, ucNum, start);
      var uc := start;
      ucNum := ucNum[sdesc[0] := uc];
      var n := 1;
      while n < |sdesc|
        invariant 1 <= n <= |sdesc| && |ucNum| == |names| && start <= uc < start + n
        invariant NumberedTo(names, sdesc, ucNum, n, start, uc + 1) && ucNum[sdesc[n - 1]] == uc
        invariant forall k: nat :: k < |names| && k !in sdesc ==> ucNum[k] == old(ucNum[k])
      {
        Described(names, sdesc[n], sdesc[n - 1]);
        NumberNext(names, sdesc, ucNum, n, start, uc + 1);
        if NewPart(names[sdesc[n]], names[sdesc[n - 1]]) { uc := uc + 1; }
        ucNum := ucNum[sdesc[n] := uc];
        n := n + 1;
      }
      end := uc + 1;
    }

    /** The batch numbering: all connectors, in the order of their upper-case
        parts, from zero on. */
    method SortCondesc() returns (sdesc: seq<nat>)
      requires Valid() && AllWellFormed(names)
      modifies `ucNum, `numUc
      ensures Valid()
      ensures Unrepeated(sdesc) && ValidNumbers(sdesc, names) && forall k: nat :: k in sdesc <==> k < |names|
      ensures names == [] ==> ucNum == old(ucNum) && numUc == old(numUc)
      ensures names != [] ==> NumberedTo(names, sdesc, ucNum, |sdesc|, 0, numUc)
    {
      hide Holds, AllWellFormed, NumberedTo, InOrder;
      sdesc := Collect(false);
      if |names| == 0 { return; }
      assert 0 in sdesc;
      ghost var collected := sdesc;
      sdesc := SortByUcPart(names, sdesc);
      SameElements(collected, sdesc);
      numUc := Enumerate(sdesc, 0);
    }

    /** The incremental numbering: only connectors without a number, from the
        first free one on. */
    method UpdateCondesc()
      requires Valid() && AllWellFormed(names) && Tidy(ucNum, numUc, lastNum) && |names| < UNNUMBERED
      modifies `ucNum, `numUc, `lastNum
      ensures Valid() && Tidy(ucNum, numUc, lastNum) && lastNum == |names|
      ensures forall k: nat :: k < old(lastNum) ==> ucNum[k] == old(ucNum[k])
      ensures Told(names, ucNum, |names|) <==> Told(names, old(ucNum), old(lastNum)) && PartsNew(names, old(lastNum))
    {
      hide Holds, AllWellFormed, NumberedTo, InOrder, Tidy;
      TidyLengths(ucNum, numUc, lastNum);
      var numNew := |names| - lastNum;
      if numNew == 0 { return; }
      ghost var before, first := ucNum, lastNum;
      var sdesc := Collect(true);
      NewOnes(ucNum, numUc, lastNum, sdesc);
      ghost var collected := sdesc;
      sdesc := SortByUcPart(names, sdesc);
      SameElements(collected, sdesc);
      NewOnes(ucNum, numUc, lastNum, sdesc);
      var end := Enumerate(sdesc, numUc);
      Continued(names, before, ucNum, numUc, end, lastNum, sdesc);
      numUc := end;
      lastNum := |names|;
    }
  }

  lemma SameElements(a: seq<nat>, b: seq<nat>)
    requires multiset(a) == multiset(b) && Unrepeated(a)
    ensures Unrepeated(b) && |a| == |b| && forall k: nat :: k in a <==> k in b
  {
    assert |multiset(a)| == |multiset(b)|;
    forall k: nat
      ensures k in a <==> k in b
    {
      assert k in a <==> k in multiset(a);
      assert k in b <==> k in multiset(b);
    }
    forall i: nat, j: nat | i < j < |b|
      ensures b[i] != b[j]
    {
      if b[i] == b[j] {
        Twice(b, i, j);
        Once(a, b[i]);
        assert false;
      }
    }
  }

  lemma Twice(b: seq<nat>, i: nat, j: nat)
    requires i < j < |b| && b[i] == b[j]
    ensures multiset(b)[b[i]] >= 2
  {
    assert b == b[..j] + b[j..];
    assert b[i] in b[..j] && b[i] in b[j..];
  }

  lemma {:induction false} Once(a: seq<nat>, x: nat)
    requires Unrepeated(a)
    ensures multiset(a)[x] <= 1
  {
    if a != [] {
      var n := |a| - 1;
      Once(a[..n], x);
      assert a == a[..n] + [a[n]];
      if a[n] == x { assert x !in a[..n]; }
    }
  }

  // ---------- Numberings ----------

  /** The first `lastNum` connectors are numbered, with the numbers below `numUc`
      and no others; the rest are not. */
  ghost predicate Tidy(ucNum: seq<nat>, numUc: nat, lastNum: nat) {
    && numUc <= lastNum <= |ucNum|
    && (forall k: nat :: k < lastNum ==> ucNum[k] < numUc)
    && (forall k: nat :: lastNum <= k < |ucNum| ==> ucNum[k] == 0xFFFF_FFFF)
    && (forall m: nat :: m < numUc ==> Taken(ucNum, lastNum, m))
  }

  ghost predicate Taken(ucNum: seq<nat>, n: nat, m: nat) {
    exists k: nat :: k < n && k < |ucNum| && ucNum[k] == m
  }

  /** Two of the first `n` connectors have the same number exactly when they have
      the same upper-case part. */
  ghost predicate Told(names: seq<Name>, ucNum: seq<nat>, n: nat)
    requires AllWellFormed(names)
  {
    n <= |names| == |ucNum|
    && forall j: nat, k: nat :: j < n && k < n ==> (ucNum[j] == ucNum[k] <==> UcPart(names[j]) == UcPart(names[k]))
  }

  /** No connector from `n` on has the upper-case part of an earlier one. */
  ghost predicate PartsNew(names: seq<Name>, n: nat)
    requires AllWellFormed(names)
  {
    forall j: nat, k: nat :: j < n <= k < |names| ==> UcPart(names[j]) != UcPart(names[k])
  }

  lemma Described(names: seq<Name>, j: nat, k: nat)
    requires AllWellFormed(names) && j < |names| && k < |names|
    ensures WellFormed(names[j]) && WellFormed(names[k])
    ensures NewPart(names[j], names[k]) <==> UcPart(names[j]) != UcPart(names[k])
  {
    NewPartExact(names[j], names[k]);
  }

  lemma TidyLengths(ucNum: seq<nat>, numUc: nat, lastNum: nat)
    requires Tidy(ucNum, numUc, lastNum)
    ensures numUc <= lastNum <= |ucNum|
  {
  }

  lemma {:induction false} FirstNumbersSize(n: nat)
    ensures |FirstNumbers(n)| == n
  {
    if n > 0 { FirstNumbersSize(n - 1); }
  }

  ghost function Members(list: seq<nat>): (s: set<nat>)
    ensures forall k :: k in s <==> k in list
  {
    if list == [] then {}
    else
      assert list == list[..|list| - 1] + [list[|list| - 1]];
      Members(list[..|list| - 1]) + {list[|list| - 1]}
  }

  lemma {:induction false} ListSize(list: seq<nat>)
    requires Unrepeated(list)
    ensures |Members(list)| == |list|
  {
    if list != [] {
      var n := |list| - 1;
      ListSize(list[..n]);
      assert list[n] !in list[..n];
    }
  }

  /** The connectors without a number are the last ones, as many as counted. */
  lemma NewOnes(ucNum: seq<nat>, numUc: nat, lastNum: nat, sdesc: seq<nat>)
    requires Tidy(ucNum, numUc, lastNum) && |ucNum| < UNNUMBERED && Unrepeated(sdesc)
    requires forall k: nat :: k in sdesc <==> k < |ucNum| && ucNum[k] == UNNUMBERED
    ensures forall k: nat :: k in sdesc <==> lastNum <= k < |ucNum|
    ensures |sdesc| == |ucNum| - lastNum
  {
    hide Unrepeated;
    assert forall k: nat :: k in sdesc <==> lastNum <= k < |ucNum|;
    RangeSize(lastNum, |ucNum|, sdesc);
  }

  lemma RangeSize(lo: nat, hi: nat, list: seq<nat>)
    requires lo <= hi && Unrepeated(list) && forall k: nat :: k in list <==> lo <= k < hi
    ensures |list| == hi - lo
  {
    ListSize(list);
    FirstNumbersSize(lo);
    FirstNumbersSize(hi);
    var all, done, rest := FirstNumbers(hi), FirstNumbers(lo), Members(list);
    assert all == done + rest && done !! rest;
  }

  /** Numbering the new connectors continues the old numbering. */
  lemma Continued(names: seq<Name>, before: seq<nat>, after: seq<nat>, lo: nat, hi: nat, first: nat, sdesc: seq<nat>)
    requires AllWellFormed(names) && ValidNumbers(sdesc, names) && |before| == |after| == |names|
    requires Tidy(before, lo, first) && lo <= hi <= lo + |sdesc| && |sdesc| == |names| - first
    requires forall k: nat :: k in sdesc <==> first <= k < |names|
    requires forall k: nat :: k < first ==> after[k] == before[k]
    requires NumberedTo(names, sdesc, after, |sdesc|, lo, hi)
    ensures Tidy(after, hi, |names|)
    ensures Told(names, after, |names|) <==> Told(names, before, first) && PartsNew(names, first)
  {
    hide AllWellFormed, UcPart;
    forall m: nat | m < hi
      ensures Taken(after, |names|, m)
    {
      if m < lo {
        assert Taken(before, first, m);
        var k: nat :| k < first && k < |before| && before[k] == m;
        assert after[k] == m;
      } else {
        assert Used(sdesc, after, |sdesc|, m);
      }
    }
    NewRange(names, before, after, lo, hi, first, sdesc);
    ContinuedTold(names, before, after, lo, first);
  }

  lemma NewRange(names: seq<Name>, before: seq<nat>, after: seq<nat>, lo: nat, hi: nat, first: nat, sdesc: seq<nat>)
    requires AllWellFormed(names) && ValidNumbers(sdesc, names) && |before| == |after| == |names|
    requires Tidy(before, lo, first) && lo <= hi && first <= |names|
    requires forall k: nat :: k in sdesc <==> first <= k < |names|
    requires forall k: nat :: k < first ==> after[k] == before[k]
    requires NumberedTo(names, sdesc, after, |sdesc|, lo, hi)
    ensures forall k: nat :: k < first ==> after[k] < lo
    ensures forall k: nat :: first <= k < |names| ==> lo <= after[k] < hi
    ensures forall j: nat, k: nat :: first <= j < |names| && first <= k < |names| ==>
              (after[j] == after[k] <==> UcPart(names[j]) == UcPart(names[k]))
  {
    hide AllWellFormed, UcPart;
    forall k: nat | first <= k < |names|
      ensures lo <= after[k] < hi
    {
      assert k in sdesc;
    }
    forall j: nat, k: nat | first <= j < |names| && first <= k < |names|
      ensures after[j] == after[k] <==> UcPart(names[j]) == UcPart(names[k])
    {
      assert j in sdesc && k in sdesc;
      var x: nat :| x < |sdesc| && sdesc[x] == j;
      var y: nat :| y < |sdesc| && sdesc[y] == k;
    }
  }

  lemma ContinuedTold(names: seq<Name>, before: seq<nat>, after: seq<nat>, lo: nat, first: nat)
    requires AllWellFormed(names) && |before| == |after| == |names| && first <= |names|
    requires forall k: nat :: k < first ==> after[k] == before[k] < lo
    requires forall k: nat :: first <= k < |names| ==> lo <= after[k]
    requires forall j: nat, k: nat :: first <= j < |names| && first <= k < |names| ==>
               (after[j] == after[k] <==> UcPart(names[j]) == UcPart(names[k]))
    ensures Told(names, after, |names|) <==> Told(names, before, first) && PartsNew(names, first)
  {
    hide AllWellFormed, UcPart;
    if Told(names, after, |names|) {
      forall j: nat, k: nat | j < first <= k < |names|
        ensures UcPart(names[j]) != UcPart(names[k])
      {
        assert after[j] != after[k];
      }
      forall j: nat, k: nat | j < first && k < first
        ensures before[j] == before[k] <==> UcPart(names[j]) == UcPart(names[k])
      {
        assert after[j] == before[j] && after[k] == before[k];
      }
    }
  }

  /** Interning a new string leaves the numbering as it is. */
  lemma AddKeepsNumbering(names: seq<Name>, s: Name, ucNum: seq<nat>, numUc: nat, lastNum: nat)
    requires AllWellFormed(names) && WellFormed(s) && Tidy(ucNum, numUc, lastNum)
    ensures Tidy(ucNum + [UNNUMBERED], numUc, lastNum)
    ensures AllWellFormed(names + [s])
    ensures |names| == |ucNum| ==>
              (Told(names + [s], ucNum + [UNNUMBERED], lastNum) <==> Told(names, ucNum, lastNum))
  {
    hide WellFormed, UcPart;
    forall m: nat | m < numUc
      ensures Taken(ucNum + [UNNUMBERED], lastNum, m)
    {
      assert Taken(ucNum, lastNum, m);
      var k: nat :| k < lastNum && k < |ucNum| && ucNum[k] == m;
      assert (ucNum + [UNNUMBERED])[k] == m;
    }
    var names', ucNum' := names + [s], ucNum + [UNNUMBERED];
    if |names| == |ucNum| && Told(names', ucNum', lastNum) {
      forall j: nat, k: nat | j < lastNum && k < lastNum
        ensures ucNum[j] == ucNum[k] <==> UcPart(names[j]) == UcPart(names[k])
      {
        assert ucNum'[j] == ucNum[j] && ucNum'[k] == ucNum[k] && names'[j] == names[j] && names'[k] == names[k];
      }
    }
  }

  /** All of the name is upper-case part. */
  predicate UpperOnly(s: Name) {
    WellFormed(s) && UcPart(s) == s
  }

  /** With upper-case names only, incremental numbering tells all connectors
      apart, as batch numbering does. */
  lemma UpperNames(names: seq<Name>, n: nat)
    requires DistinctNames(names) && n <= |names| && forall k: nat :: k < |names| ==> UpperOnly(names[k])
    ensures AllWellFormed(names) && PartsNew(names, n)
  {
  }

  /** Batch numbering tells the connectors apart by their upper-case parts. */
  lemma BatchTells(names: seq<Name>, sdesc: seq<nat>, ucNum: seq<nat>, numUc: nat)
    requires AllWellFormed(names) && ValidNumbers(sdesc, names) && |ucNum| == |names|
    requires NumberedTo(names, sdesc, ucNum, |sdesc|, 0, numUc)
    requires forall k: nat :: k < |names| ==> k in sdesc
    ensures Told(names, ucNum, |names|)
  {
    hide AllWellFormed, UcPart;
    forall j: nat, k: nat | j < |names| && k < |names|
      ensures ucNum[j] == ucNum[k] <==> UcPart(names[j]) == UcPart(names[k])
    {
      assert j in sdesc && k in sdesc;
      var x: nat :| x < |sdesc| && sdesc[x] == j;
      var y: nat :| y < |sdesc| && sdesc[y] == k;
    }
  }

  // ---------- Interning over a run ----------

  /** The strings interned by adding these, in order of first insertion. */
  function InternAll(adds: seq<Name>): (names: seq<Name>)
    ensures forall s :: s in names <==> s in adds
    ensures DistinctNames(names)
  {
    if adds == [] then []
    else
      var n := |adds| - 1;
      var names := InternAll(adds[..n]);
      assert adds == adds[..n] + [adds[n]];
      if adds[n] in names then names else names + [adds[n]]
  }

  /** A string's number is the number of different strings added before it was
      first added, and it never changes. */
  lemma {:induction false} NumberIsInsertionOrder(adds: seq<Name>, i: nat)
    requires i < |adds| && adds[i] !in adds[..i]
    ensures var k := |InternAll(adds[..i])|;
            k < |InternAll(adds)| && InternAll(adds)[k] == adds[i]
    decreases |adds|
  {
    var n := |adds| - 1;
    if i < n {
      assert adds[..n][..i] == adds[..i];
      NumberIsInsertionOrder(adds[..n], i);
    }
  }
}
