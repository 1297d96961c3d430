/** The hash table of tracons (trailing connector sequences).  Slots hold
    pointers to connector cells; what a slot stands for is whatever its chain
    spells in memory, so the table never copies a key. */
module TraconSets {
  import opened Connectors
  import opened Probing
  import opened TableSizes

  const FIBONACCI_MULT: nat := 0x9E3779B9
  const SHALLOW_HASH: nat := 1000003

  /** What a slot stands for: the connectors of the tracon and, when the table
      tells shallow tracons from deep ones, whether the first is shallow. */
  datatype Key = Key(spell: seq<Con>, shallow: bool)

  datatype Slot = Slot(clist: Ptr, hash: nat)

  // ---------- Hashing ----------

  function ConnectorHash(c: Con): nat {
    (2 * c.desc.conNum + if c.multi then 1 else 0) % WORD32
  }

  function Mix(accum: nat, c: Con): nat {
    (accum * 128 + accum * 16384 + accum / 65536 - ConnectorHash(c)) % WORD32
  }

  function ListHash(s: seq<Con>): nat
    requires s != []
  {
    if |s| == 1 then ConnectorHash(s[0]) else Mix(ListHash(s[..|s| - 1]), s[|s| - 1])
  }

  function HashOf(k: Key): nat
    requires k.spell != []
  {
    ((if k.shallow then SHALLOW_HASH else 0) + ListHash(k.spell)) * FIBONACCI_MULT % WORD32
  }

  /** The hashes of a list of one connector and of two. */
  lemma HashExample()
    ensures var a, b := Con(Desc(150000, 1), false), Con(Desc(5, 2), true);
            && ListHash([a]) == 300000 && ListHash([b]) == 11
            && ListHash([a, b]) == 658632697
            && HashOf(Key([a, b], false)) == 3314686961
            && HashOf(Key([a, b], true)) == 2639243612
  {
    var a, b := Con(Desc(150000, 1), false), Con(Desc(5, 2), true);
    assert [a, b][..1] == [a];
    assert ListHash([a, b]) == Mix(ListHash([a]), b);
  }

  method ConnectorListHash(mem: array<Cell>, c: nat, ghost s: seq<Con>) returns (accum: nat)
    requires s != [] && Spells(mem[..], At(c), s)
    ensures accum == ListHash(s)
  {
    accum := ConnectorHash(mem[c].con);
    var p := mem[c].next;
    ghost var i := 1;
    while p.At?
      invariant 1 <= i <= |s|
      invariant Spells(mem[..], p, s[i..])
      invariant accum == ListHash(s[..i])
      decreases |s| - i
    {
      accum := Mix(accum, mem[p.addr].con);
      p := mem[p.addr].next;
      assert s[..i + 1][..i] == s[..i];
      assert s[i..][1..] == s[i + 1..];
      i := i + 1;
    }
    assert s[..i] == s;
  }

  method ConnectorListEqual(mem: array<Cell>, c1: nat, c2: nat, ghost s1: seq<Con>, ghost s2: seq<Con>)
    returns (eq: bool)
    requires Spells(mem[..], At(c1), s1) && Spells(mem[..], At(c2), s2)
    ensures eq == (s1 == s2)
  {
    var p, q := At(c1), At(c2);
    ghost var i := 0;
    while p.At? && q.At?
      invariant i <= |s1| && i <= |s2| && s1[..i] == s2[..i]
      invariant Spells(mem[..], p, s1[i..]) && Spells(mem[..], q, s2[i..])
      decreases |s1| - i
    {
      if mem[p.addr].con != mem[q.addr].con { return false; }
      p, q := mem[p.addr].next, mem[q.addr].next;
      assert s1[i..][1..] == s1[i + 1..] && s2[i..][1..] == s2[i + 1..];
      assert s1[..i + 1] == s1[..i] + [s1[i]] && s2[..i + 1] == s2[..i] + [s2[i]];
      i := i + 1;
    }
    assert p.Null? ==> s1 == s1[..i];
    assert q.Null? ==> s2 == s2[..i];
    return p.Null? && q.Null?;
  }

  // ---------- Table invariants, on values ----------

  ghost function Occupied(t: seq<Slot>): set<nat> {
    set i: nat | i < |t| && t[i].clist.At?
  }

  /** Every probe for `k` before the `n`th meets an entry other than `k`. */
  ghost predicate Passed(t: seq<Slot>, keys: seq<Key>, k: Key, n: nat)
    requires |t| == |keys| && |t| > 0 && k.spell != []
  {
    forall j: nat :: j < n ==>
      var q := Visit(HashOf(k), j, |t|);
      t[q].clist.At? && keys[q] != k
  }

  /** `p` is the slot at which a search for `k` that has met no match arrives. */
  ghost predicate OnPath(t: seq<Slot>, keys: seq<Key>, k: Key, p: nat)
    requires |t| == |keys| && |t| > 0 && k.spell != []
  {
    exists n: nat :: Visit(HashOf(k), n, |t|) == p && Passed(t, keys, k, n)
  }

  ghost predicate EntryOk(t: seq<Slot>, keys: seq<Key>, i: nat)
    requires |t| == |keys| && i < |t|
  {
    t[i].clist.At? ==>
      keys[i].spell != [] && t[i].hash == HashOf(keys[i]) && OnPath(t, keys, keys[i], i)
  }

  /** Every entry lies on its own probe path, after no empty slot and after no
      other entry with its key. */
  ghost predicate TableInv(t: seq<Slot>, keys: seq<Key>) {
    |t| == |keys| && |t| > 0 && forall i: nat :: i < |t| ==> EntryOk(t, keys, i)
  }

  /** The entries of the table are those of the map. */
  ghost predicate Represents(t: seq<Slot>, keys: seq<Key>, m: map<Key, Ptr>)
    requires |t| == |keys|
  {
    && (forall i: nat :: i < |t| && t[i].clist.At? ==> keys[i] in m && m[keys[i]] == t[i].clist)
    && (forall k :: k in m ==> exists i: nat :: i < |t| && t[i].clist.At? && keys[i] == k)
  }

  /** What a cell says agrees with the key. */
  ghost predicate CellFor(mem: seq<Cell>, p: Ptr, k: Key, shallowMode: bool) {
    && k.spell != []
    && Spells(mem, p, k.spell)
    && k.shallow == (shallowMode && mem[p.addr].shallow)
  }

  ghost predicate SlotsSpell(mem: seq<Cell>, t: seq<Slot>, keys: seq<Key>, shallowMode: bool)
    requires |t| == |keys|
  {
    forall i: nat :: i < |t| && t[i].clist.At? ==> CellFor(mem, t[i].clist, keys[i], shallowMode)
  }

  /** No key occurs twice. */
  lemma KeysDistinct(t: seq<Slot>, keys: seq<Key>, i: nat, j: nat)
    requires TableInv(t, keys)
    requires i < |t| && j < |t| && t[i].clist.At? && t[j].clist.At? && keys[i] == keys[j]
    ensures i == j
  {
    assert EntryOk(t, keys, i) && EntryOk(t, keys, j);
    SamePlace(t, keys, keys[i], i, j);
  }

  lemma NotPassedBefore(t: seq<Slot>, keys: seq<Key>, k: Key, m: nat, n: nat)
    requires |t| == |keys| && |t| > 0 && k.spell != [] && Passed(t, keys, k, n)
    requires var q := Visit(HashOf(k), m, |t|); t[q].clist.At? ==> keys[q] == k
    ensures n <= m
  {
  }

  /** Two stopping places on the path of one key coincide. */
  lemma SamePlace(t: seq<Slot>, keys: seq<Key>, k: Key, i: nat, j: nat)
    requires |t| == |keys| && |t| > 0 && k.spell != []
    requires OnPath(t, keys, k, i) && OnPath(t, keys, k, j)
    requires i < |t| && j < |t|
    requires t[i].clist.At? ==> keys[i] == k
    requires t[j].clist.At? ==> keys[j] == k
    ensures i == j
  {
    var h := HashOf(k);
    var m: nat :| Visit(h, m, |t|) == i && Passed(t, keys, k, m);
    var n: nat :| Visit(h, n, |t|) == j && Passed(t, keys, k, n);
    NotPassedBefore(t, keys, k, m, n);
    NotPassedBefore(t, keys, k, n, m);
  }

  /** A search that stops at an empty slot has missed nothing. */
  lemma StopsAtEmpty(t: seq<Slot>, keys: seq<Key>, m: map<Key, Ptr>, k: Key, p: nat)
    requires TableInv(t, keys) && Represents(t, keys, m)
    requires p < |t| && k.spell != [] && OnPath(t, keys, k, p) && t[p].clist.Null?
    ensures k !in m
  {
    if k in m {
      var i: nat :| i < |t| && t[i].clist.At? && keys[i] == k;
      assert EntryOk(t, keys, i);
      SamePlace(t, keys, k, i, p);
      assert false;
    }
  }

  /** Filling the empty slot on a key's path keeps every other entry in reach. */
  lemma FillKeepsInv(t: seq<Slot>, keys: seq<Key>, p: nat, slot: Slot, k: Key)
    requires TableInv(t, keys) && p < |t| && t[p].clist.Null?
    requires k.spell != [] && OnPath(t, keys, k, p)
    requires slot.clist.At? && slot.hash == HashOf(k)
    ensures TableInv(t[p := slot], keys[p := k])
  {
    var t', keys' := t[p := slot], keys[p := k];
    forall i: nat | i < |t'|
      ensures EntryOk(t', keys', i)
    {
      if t'[i].clist.At? {
        var key := if i == p then k else keys[i];
        assert i != p ==> EntryOk(t, keys, i);
        var n: nat :| Visit(HashOf(key), n, |t|) == i && Passed(t, keys, key, n);
        forall j: nat | j < n
          ensures var q := Visit(HashOf(key), j, |t'|); t'[q].clist.At? && keys'[q] != key
        {
          assert t[Visit(HashOf(key), j, |t|)].clist.At?;
        }
        assert Passed(t', keys', key, n);
      }
    }
  }

  lemma FillRepresents(t: seq<Slot>, keys: seq<Key>, m: map<Key, Ptr>, p: nat, slot: Slot, k: Key)
    requires |t| == |keys| && Represents(t, keys, m) && p < |t| && t[p].clist.Null?
    requires k !in m && slot.clist.At?
    ensures Represents(t[p := slot], keys[p := k], m[k := slot.clist])
    ensures Occupied(t[p := slot]) == Occupied(t) + {p} && p !in Occupied(t)
  {
    var t', keys', m' := t[p := slot], keys[p := k], m[k := slot.clist];
    forall k' | k' in m'
      ensures exists i: nat :: i < |t'| && t'[i].clist.At? && keys'[i] == k'
    {
      if k' == k {
        assert t'[p].clist.At? && keys'[p] == k;
      } else {
        var i: nat :| i < |t| && t[i].clist.At? && keys[i] == k';
        assert t'[i].clist.At? && keys'[i] == k';
      }
    }
  }

  lemma OccupiedBound(t: seq<Slot>, i: nat)
    requires i < |t|
    ensures |Occupied(t[..i + 1])| == |Occupied(t[..i])| + if t[i].clist.At? then 1 else 0
    ensures |Occupied(t[..i + 1])| <= |Occupied(t)|
  {
    assert Occupied(t[..i + 1]) == Occupied(t[..i]) + if t[i].clist.At? then {i} else {};
    SubsetSize(Occupied(t[..i + 1]), Occupied(t));
  }

  /** The search for `k` does not return: whatever slot it visits, before or
      after its 32-bit sum has wrapped, holds another key. */
  ghost predicate Hangs(t: seq<Slot>, keys: seq<Key>, k: Key)
    requires |t| == |keys| && |t| > 0 && k.spell != []
  {
    forall n: nat :: Passed(t, keys, k, n)
  }

  /** When the first `|t|` periods of the step are over, every slot that the
      search can visit has been visited. */
  lemma AllPassed(t: seq<Slot>, keys: seq<Key>, k: Key)
    requires |t| == |keys| && |t| > 0 && k.spell != [] && Passed(t, keys, k, |t| * STEP_PERIOD)
    ensures Hangs(t, keys, k)
  {
    forall n: nat
      ensures Passed(t, keys, k, n)
    {
      forall j: nat | j < n
        ensures var q := Visit(HashOf(k), j, |t|); t[q].clist.At? && keys[q] != k
      {
        var i := VisitedEarly(HashOf(k), j, |t|);
      }
    }
  }

  /** A search that arrives somewhere returns. */
  lemma StopsSomewhere(t: seq<Slot>, keys: seq<Key>, k: Key, p: nat)
    requires |t| == |keys| && |t| > 0 && k.spell != [] && OnPath(t, keys, k, p)
    requires p < |t| && (t[p].clist.At? ==> keys[p] == k)
    ensures !Hangs(t, keys, k)
  {
    var n: nat :| Visit(HashOf(k), n, |t|) == p && Passed(t, keys, k, n);
    var n' := n + 1;
    assert !Passed(t, keys, k, n') by { assert n < n'; }
  }

  // ---------- How long a search can take ----------

  /** At all listed sizes but two, a search in a table within its fill limit
      stops in the first half of its probes. */
  lemma StopsInFirstHalf(t: seq<Slot>, keys: seq<Key>, k: Key, idx: nat, n: nat)
    requires idx < |S_PRIME| && |t| == |keys| == S_PRIME[idx] && k.spell != [] && |Occupied(t)| <= Limit(|t|)
    requires Passed(t, keys, k, n) && idx != 4 && idx != 5
    ensures n <= (|t| - 1) / 2
  {
    var h, m := HashOf(k), (|t| + 1) / 2;
    SizesDecided(idx);
    if n >= m {
      forall i: nat | i < m
        ensures Probe(h, i, |t|) in Occupied(t)
      {
        FirstHalfFits(idx, h, i);
        assert t[Visit(h, i, |t|)].clist.At?;
      }
      ProbeSetSize(|t|, h, m);
      SubsetSize(ProbeSet(h, m, |t|), Occupied(t));
      assert false;
    }
  }

  /** A search that collides once at every place of its probe sequence collides
      until its 32-bit sum can wrap. */
  lemma CollidesUntilWrap(t: seq<Slot>, keys: seq<Key>, k: Key)
    requires 0 < |t| == |keys| && 3 * |t| <= WORD32 && k.spell != [] && Passed(t, keys, k, |t|)
    ensures Passed(t, keys, k, (WORD32 - |t|) / 2 + 1)
  {
    var h, n := HashOf(k), |t|;
    forall j: nat | j < (WORD32 - n) / 2 + 1
      ensures var q := Visit(h, j, n); t[q].clist.At? && keys[q] != k
    {
      VisitIsProbe(h, j, n);
      ProbeWraps(h, j, n);
      VisitIsProbe(h, j % n, n);
    }
  }

  /** A table in order and within its fill limit, and a key whose search in it
      does not return. */
  ghost predicate Trapped(t: seq<Slot>, keys: seq<Key>) {
    && TableInv(t, keys)
    && |Occupied(t)| <= Limit(|t|)
    && exists k: Key :: k.spell != [] && Hangs(t, keys, k)
  }

  lemma TrappedSize(t: seq<Slot>, keys: seq<Key>, idx: nat)
    requires Trapped(t, keys) && idx < |S_PRIME| && |t| == S_PRIME[idx]
    ensures idx == 4 || idx == 5
  {
    var k: Key :| k.spell != [] && Hangs(t, keys, k);
    if idx != 4 && idx != 5 {
      var n := |t|;
      assert Passed(t, keys, k, n);
      StopsInFirstHalf(t, keys, k, idx, n);
    }
  }

  /** The next slot to visit, and the counter of collisions: both in 32 bits. */
  method NextPlace(key: nat, collNum: nat, size: nat, ghost tries: nat) returns (next: nat, count: nat)
    requires key < size && collNum == tries % WORD32
    ensures next == Step(key, tries + 1, size) && count == (tries + 1) % WORD32
  {
    count := (collNum + 1) % WORD32;
    next := (key + 2 * count - 1) % WORD32;
    CountInStep(tries);
    CounterWraps(key, tries + 1, size);
    assert Step(key, tries + 1, size) == next % size;
    if next >= size {
      next := next % size;
    } else {
      ModUnique(next, 0, next, size);
    }
  }

  method NewTable(size: nat) returns (t: array<Slot>, ghost keys: seq<Key>)
    requires size > 0
    ensures fresh(t) && t.Length == size == |keys|
    ensures Occupied(t[..]) == {} && TableInv(t[..], keys) && Represents(t[..], keys, map[])
    ensures forall mem: seq<Cell>, mode: bool :: SlotsSpell(mem, t[..], keys, mode)
  {
    t := new Slot[size](_ => Slot(Null, 0));
    keys := seq(size, _ => Key([], false));
  }

  class TraconSet {
    var table: array<Slot>
    var available: nat
    var primeIdx: nat
    var shallowMode: bool
    ghost var keys: seq<Key>
    ghost var contents: map<Key, Ptr>

    ghost predicate Shape()
      reads this, table
    {
      && primeIdx < |S_PRIME|
      && table.Length == S_PRIME[primeIdx]
      && TableInv(table[..], keys)
      && Represents(table[..], keys, contents)
    }

    /** The table at rest. */
    ghost predicate Valid()
      reads this, table
    {
      && Shape()
      && |Occupied(table[..])| + available == Limit(table.Length)
    }

    ghost predicate Agrees(mem: seq<Cell>)
      requires |keys| == table.Length
      reads this, table
    {
      SlotsSpell(mem, table[..], keys, shallowMode)
    }

    /** Between `Add` and `Fill`: slot `p` has been reserved for `k`. */
    ghost predicate Pending(p: nat, k: Key)
      reads this, table
    {
      && Shape()
      && k.spell != []
      && k !in contents
      && p < table.Length
      && table[p].clist.Null?
      && table[p].hash == HashOf(k)
      && OnPath(table[..], keys, k, p)
      && |Occupied(table[..])| + available + 1 == Limit(table.Length)
    }

    /** The largest table is full. */
    ghost predicate UsedUp()
      reads this, table
    {
      Valid() && available == 0 && primeIdx + 1 == |S_PRIME|
    }

    /** Why an operation can fail: the sizes are used up, or a search in the
        table as it stands does not return. */
    ghost predicate Failed()
      reads this, table
    {
      UsedUp() || (primeIdx < |S_PRIME| && table.Length == S_PRIME[primeIdx] && Trapped(table[..], keys))
    }

    /** Only the fifth and the sixth size leave it open. */
    lemma FailedSize()
      requires Failed()
      ensures UsedUp() || primeIdx == 4 || primeIdx == 5
    {
      if !UsedUp() { TrappedSize(table[..], keys, primeIdx); }
    }

    /** The table has one of the four smallest sizes and holds fewer entries
        than the fourth admits. */
    ghost predicate Small()
      reads this
    {
      primeIdx <= 3 && |contents| < Limit(S_PRIME[3])
    }

    lemma SmallHasRoom()
      requires Valid() && Small()
      ensures available > 0 || primeIdx < 3
    {
      CountsMatch(table[..], keys, contents);
    }

    constructor (shallow: bool)
      ensures Valid() && fresh(table) && contents == map[] && shallowMode == shallow
      ensures primeIdx == 0
      ensures forall mem: seq<Cell> :: Agrees(mem)
    {
      var t, ks := NewTable(S_PRIME[0]);
      table, keys := t, ks;
      available := Limit(S_PRIME[0]);
      primeIdx := 0;
      shallowMode := shallow;
      contents := map[];
    }

    /** Empty the slots; the size stays. */
    method Reset()
      requires Shape()
      modifies this`available, this`contents, table
      ensures Valid() && contents == map[]
      ensures forall mem: seq<Cell> :: Agrees(mem)
    {
      var i := 0;
      while i < table.Length
        invariant 0 <= i <= table.Length
        invariant forall j: nat :: j < i ==> table[j] == Slot(Null, 0)
      {
        table[i] := Slot(Null, 0);
        i := i + 1;
      }
      available := Limit(table.Length);
      contents := map[];
      assert Occupied(table[..]) == {};
    }

    /** Does the search for the list at `c` stop at slot `i`? */
    method PlaceFound(mem: array<Cell>, c: nat, i: nat, h: nat, ghost k: Key) returns (found: bool)
      requires TableInv(table[..], keys) && SlotsSpell(mem[..], table[..], keys, shallowMode)
      requires CellFor(mem[..], At(c), k, shallowMode) && h == HashOf(k)
      requires i < table.Length
      ensures found == (table[i].clist.Null? || keys[i] == k)
    {
      if table[i].clist.Null? { return true; }
      assert EntryOk(table[..], keys, i);
      assert CellFor(mem[..], table[..][i].clist, keys[i], shallowMode);
      if h != table[i].hash { return false; }
      var a := table[i].clist.addr;
      var eq := ConnectorListEqual(mem, a, c, keys[i].spell, k.spell);
      if !eq { return false; }
      if shallowMode && mem[a].shallow != mem[c].shallow { return false; }
      return true;
    }

    /** Quadratic probing, in 32-bit arithmetic.  `tries` counts the collisions
        beyond the counter's wrapping: when all slots that can be visited have
        been, the code would go on for ever, and the result is not `ok`. */
    method FindPlace(mem: array<Cell>, c: nat, h: nat, ghost k: Key) returns (ok: bool, slot: nat)
      requires TableInv(table[..], keys) && SlotsSpell(mem[..], table[..], keys, shallowMode)
      requires CellFor(mem[..], At(c), k, shallowMode) && h == HashOf(k)
      ensures ok ==>
        && slot < table.Length
        && OnPath(table[..], keys, k, slot)
        && (table[slot].clist.At? ==> keys[slot] == k)
      ensures ok == !Hangs(table[..], keys, k)
    {
      var size := table.Length;
      var collNum, tries := 0, 0;
      slot := h % size;
      var found := PlaceFound(mem, c, slot, h, k);
      while !found && tries + 1 < size * STEP_PERIOD
        invariant 0 <= tries < size * STEP_PERIOD && collNum == tries % WORD32
        invariant slot == Visit(h, tries, size)
        invariant Passed(table[..], keys, k, tries)
        invariant found == (table[slot].clist.Null? || keys[slot] == k)
        decreases size * STEP_PERIOD - tries
      {
        slot, collNum := NextPlace(slot, collNum, size, tries);
        tries := tries + 1;
        found := PlaceFound(mem, c, slot, h, k);
      }
      ok := found;
      if !found {
        assert Passed(table[..], keys, k, tries + 1);
        AllPassed(table[..], keys, k);
      } else {
        StopsSomewhere(table[..], keys, k, slot);
      }
    }

    /** Store an entry whose key is not in the table. */
    method MoveEntry(mem: array<Cell>, entry: Slot, ghost k: Key, ghost m: map<Key, Ptr>) returns (ok: bool)
      requires TableInv(table[..], keys) && SlotsSpell(mem[..], table[..], keys, shallowMode)
      requires Represents(table[..], keys, m) && k !in m
      requires entry.clist.At? && CellFor(mem[..], entry.clist, k, shallowMode) && entry.hash == HashOf(k)
      requires |Occupied(table[..])| <= Limit(table.Length)
      modifies table, this`keys
      ensures ok ==> TableInv(table[..], keys) && SlotsSpell(mem[..], table[..], keys, shallowMode)
      ensures ok ==> Represents(table[..], keys, m[k := entry.clist])
      ensures ok ==> |Occupied(table[..])| == |Occupied(old(table[..]))| + 1
      ensures !ok ==> Trapped(table[..], keys)
    {
      var p;
      ok, p := FindPlace(mem, entry.clist.addr, entry.hash, k);
      if !ok { return; }
      FillKeepsInv(table[..], keys, p, entry, k);
      FillRepresents(table[..], keys, m, p, entry, k);
      table[p] := entry;
      keys := keys[p := k];
      assert table[..] == old(table[..])[p := entry];
    }

    /** The entries of the first `i` slots of `from` have been stored here. */
    ghost predicate Holds(mem: seq<Cell>, from: seq<Slot>, fromKeys: seq<Key>, i: nat)
      requires |from| == |fromKeys| && i <= |from|
      reads this, table
    {
      && TableInv(table[..], keys)
      && SlotsSpell(mem, table[..], keys, shallowMode)
      && Represents(table[..], keys, Entries(from, fromKeys, i))
      && |Occupied(table[..])| == |Occupied(from[..i])|
    }

    method MoveSlot(mem: array<Cell>, entry: Slot, ghost from: seq<Slot>, ghost fromKeys: seq<Key>, ghost i: nat)
      returns (ok: bool)
      requires TableInv(from, fromKeys) && SlotsSpell(mem[..], from, fromKeys, shallowMode)
      requires i < |from| && entry == from[i]
      requires Holds(mem[..], from, fromKeys, i) && |Occupied(from)| <= Limit(table.Length)
      modifies table, this`keys
      ensures ok ==> Holds(mem[..], from, fromKeys, i + 1)
      ensures !ok ==> Trapped(table[..], keys)
    {
      OccupiedBound(from, i);
      ok := true;
      if entry.clist.At? {
        NotYetMoved(from, fromKeys, i);
        assert EntryOk(from, fromKeys, i);
        ok := MoveEntry(mem, entry, fromKeys[i], Entries(from, fromKeys, i));
      }
    }

    /** Store the entries of `from` in this table, which is empty. */
    method MoveEntries(mem: array<Cell>, from: array<Slot>, ghost source: seq<Slot>, ghost fromKeys: seq<Key>)
      returns (ok: bool)
      requires from != table && from[..] == source && TableInv(source, fromKeys)
      requires SlotsSpell(mem[..], source, fromKeys, shallowMode)
      requires Occupied(table[..]) == {} && TableInv(table[..], keys)
      requires |Occupied(source)| <= Limit(table.Length)
      modifies table, this`keys
      ensures ok ==> Holds(mem[..], source, fromKeys, |source|)
      ensures !ok ==> Trapped(table[..], keys)
    {
      ok := true;
      assert Occupied(source[..0]) == {};
      NothingStored(table[..], keys);
      for i := 0 to from.Length
        invariant ok && from[..] == source && Holds(mem[..], source, fromKeys, i)
      {
        ok := MoveSlot(mem, from[i], source, fromKeys, i);
        if !ok { return; }
      }
    }

    /** Move every entry to a table of the next size. */
    method GrowTable(mem: array<Cell>) returns (ok: bool)
      requires Valid() && available == 0 && Agrees(mem[..])
      modifies this`table, this`available, this`primeIdx, this`keys
      ensures ok ==> Valid() && Agrees(mem[..]) && fresh(table) && available > 0
      ensures ok ==> primeIdx == old(primeIdx) + 1
      ensures !ok ==> Failed() && old(primeIdx) <= primeIdx <= old(primeIdx) + 1
    {
      hide Represents;
      if primeIdx + 1 == |S_PRIME| { return false; }
      var from := table;
      ghost var source, fromKeys := table[..], keys;
      primeIdx := primeIdx + 1;
      var size := S_PRIME[primeIdx];
      LimitsGrow(primeIdx);
      table, keys := NewTable(size);
      ok := MoveEntries(mem, from, source, fromKeys);
      if !ok { return; }
      available := Limit(size) - Limit(from.Length);
      assert source[..|source|] == source;
      AllMoved(source, fromKeys, contents);
    }

    /** The slot of the list at `c`: its entry, or an empty slot reserved for
        it, which the caller must fill. */
    method Add(mem: array<Cell>, c: nat, ghost k: Key) returns (ok: bool, slot: nat)
      requires Valid() && Agrees(mem[..])
      requires CellFor(mem[..], At(c), k, shallowMode)
      modifies this`table, this`available, this`primeIdx, this`keys, table
      ensures ok ==> Shape() && Agrees(mem[..]) && slot < table.Length
      ensures ok ==> table == old(table) || fresh(table)
      ensures ok && k in contents ==> Valid() && table[slot].clist.At? && table[slot].clist == contents[k]
      ensures ok && k !in contents ==> Pending(slot, k)
      ensures ok ==> primeIdx == old(primeIdx) ||
                     (primeIdx == old(primeIdx) + 1 && old(available) == 0)
      ensures !ok ==> Failed()
      ensures old(Small()) ==> ok && primeIdx <= 3
      ensures !ok ==> UsedUp() || primeIdx == 4 || primeIdx == 5
      ensures old(available) > 0 ==> ok == !old(Hangs(table[..], keys, k))
    {
      hide Represents, TableInv, SlotsSpell, Trapped;
      slot := 0;
      ghost var small := Small();
      if small { SmallHasRoom(); }
      if available == 0 {
        ok := GrowTable(mem);
        if !ok {
          FailedSize();
          return;
        }
      }
      ok, slot := Reserve(mem, c, k);
      if !ok { FailedSize(); }
    }

    method Reserve(mem: array<Cell>, c: nat, ghost k: Key) returns (ok: bool, slot: nat)
      requires Valid() && available > 0 && Agrees(mem[..])
      requires CellFor(mem[..], At(c), k, shallowMode)
      modifies this`available, table
      ensures ok ==> Shape() && Agrees(mem[..]) && slot < table.Length
      ensures ok && k in contents ==> Valid() && table[slot].clist.At? && table[slot].clist == contents[k]
      ensures ok && k !in contents ==> Pending(slot, k)
      ensures ok == !old(Hangs(table[..], keys, k))
      ensures !ok ==> Failed() && !UsedUp()
    {
      var sum := ConnectorListHash(mem, c, k.spell);
      var h := ((if shallowMode && mem[c].shallow then SHALLOW_HASH else 0) + sum) * FIBONACCI_MULT % WORD32;
      ok, slot := FindPlace(mem, c, h, k);
      if !ok { return; }
      if table[slot].clist.At? { return; }
      StopsAtEmpty(table[..], keys, contents, k, slot);
      table[slot] := table[slot].(hash := h);
      available := available - 1;
      HashOnly(old(table[..]), keys, contents, table[..], slot, k);
    }

    /** The caller's part: store the pointer in the reserved slot. */
    method Fill(slot: nat, p: Ptr, ghost k: Key)
      requires Pending(slot, k) && p.At?
      modifies this`keys, this`contents, table
      ensures Valid() && contents == old(contents)[k := p]
      ensures table[..] == old(table[..])[slot := Slot(p, HashOf(k))] && keys == old(keys)[slot := k]
    {
      FillKeepsInv(table[..], keys, slot, Slot(p, HashOf(k)), k);
      FillRepresents(table[..], keys, contents, slot, Slot(p, HashOf(k)), k);
      table[slot] := table[slot].(clist := p);
      keys := keys[slot := k];
      contents := contents[k := p];
      assert table[..] == old(table[..])[slot := Slot(p, HashOf(k))];
    }

    /** The entry of the list at `c`, or NULL. */
    method Lookup(mem: array<Cell>, c: nat, ghost k: Key) returns (ok: bool, p: Ptr)
      requires Valid() && Agrees(mem[..])
      requires CellFor(mem[..], At(c), k, shallowMode)
      ensures ok ==> p == if k in contents then contents[k] else Null
      ensures ok == !Hangs(table[..], keys, k)
      ensures !ok ==> Failed() && (primeIdx == 4 || primeIdx == 5)
    {
      var sum := ConnectorListHash(mem, c, k.spell);
      var h := ((if shallowMode && mem[c].shallow then SHALLOW_HASH else 0) + sum) * FIBONACCI_MULT % WORD32;
      var slot;
      ok, slot := FindPlace(mem, c, h, k);
      p := Null;
      if !ok {
        TrappedSize(table[..], keys, primeIdx);
        return;
      }
      p := table[slot].clist;
      if p.Null? { StopsAtEmpty(table[..], keys, contents, k, slot); }
    }
  }

  lemma LimitsGrow(k: nat)
    requires 0 < k < |S_PRIME|
    ensures 0 < Limit(S_PRIME[k - 1]) < Limit(S_PRIME[k])
  {
  }

  // ---------- Growing ----------

  /** The entries in the first `i` slots, as a map. */
  ghost function Entries(t: seq<Slot>, keys: seq<Key>, i: nat): map<Key, Ptr>
    requires |t| == |keys| && i <= |t|
  {
    if i == 0 then map[]
    else
      var m := Entries(t, keys, i - 1);
      if t[i - 1].clist.At? then m[keys[i - 1] := t[i - 1].clist] else m
  }

  lemma {:induction false} EntriesSound(t: seq<Slot>, keys: seq<Key>, i: nat, k: Key)
    requires |t| == |keys| && i <= |t| && k in Entries(t, keys, i)
    ensures exists j: nat :: j < i && t[j].clist.At? && keys[j] == k && Entries(t, keys, i)[k] == t[j].clist
  {
    if t[i - 1].clist.At? && keys[i - 1] == k {
    } else {
      EntriesSound(t, keys, i - 1, k);
    }
  }

  lemma {:induction false} EntriesComplete(t: seq<Slot>, keys: seq<Key>, i: nat, j: nat)
    requires |t| == |keys| && j < i <= |t| && t[j].clist.At?
    ensures keys[j] in Entries(t, keys, i)
  {
    if j < i - 1 { EntriesComplete(t, keys, i - 1, j); }
  }

  lemma NothingStored(t: seq<Slot>, keys: seq<Key>)
    requires |t| == |keys| && Occupied(t) == {}
    ensures Represents(t, keys, map[])
    ensures forall mem: seq<Cell>, mode: bool :: SlotsSpell(mem, t, keys, mode)
  {
    forall p: nat | p < |t|
      ensures t[p].clist.Null?
    {
      assert p !in Occupied(t);
    }
  }

  /** An entry being moved is not yet in the new table: growth merges nothing. */
  lemma NotYetMoved(t: seq<Slot>, keys: seq<Key>, i: nat)
    requires TableInv(t, keys) && i < |t| && t[i].clist.At?
    ensures keys[i] !in Entries(t, keys, i)
  {
    if keys[i] in Entries(t, keys, i) {
      EntriesSound(t, keys, i, keys[i]);
      var j: nat :| j < i && t[j].clist.At? && keys[j] == keys[i];
      KeysDistinct(t, keys, i, j);
      assert false;
    }
  }

  /** Growth loses nothing either: the same map is represented. */
  lemma AllMoved(t: seq<Slot>, keys: seq<Key>, m: map<Key, Ptr>)
    requires |t| == |keys| && Represents(t, keys, m)
    ensures Entries(t, keys, |t|) == m
  {
    var e := Entries(t, keys, |t|);
    forall k | k in e
      ensures k in m && e[k] == m[k]
    {
      EntriesSound(t, keys, |t|, k);
    }
    forall k | k in m
      ensures k in e
    {
      var j: nat :| j < |t| && t[j].clist.At? && keys[j] == k;
      EntriesComplete(t, keys, |t|, j);
    }
  }

  /** There are as many entries in the map as there are occupied slots. */
  lemma CountsMatch(t: seq<Slot>, keys: seq<Key>, m: map<Key, Ptr>)
    requires TableInv(t, keys) && Represents(t, keys, m)
    ensures |m| == |Occupied(t)|
  {
    AllMoved(t, keys, m);
    EntriesCount(t, keys, |t|);
    assert t[..|t|] == t;
  }

  lemma {:induction false} EntriesCount(t: seq<Slot>, keys: seq<Key>, i: nat)
    requires TableInv(t, keys) && i <= |t|
    ensures |Entries(t, keys, i)| == |Occupied(t[..i])|
  {
    if i > 0 {
      EntriesCount(t, keys, i - 1);
      OccupiedBound(t, i - 1);
      if t[i - 1].clist.At? { NotYetMoved(t, keys, i - 1); }
    } else {
      assert Occupied(t[..0]) == {};
    }
  }

  /** Storing the hash of a still empty slot changes nothing else. */
  lemma HashOnly(t: seq<Slot>, keys: seq<Key>, m: map<Key, Ptr>, t': seq<Slot>, p: nat, k: Key)
    requires TableInv(t, keys) && Represents(t, keys, m)
    requires p < |t| && t[p].clist.Null? && k.spell != [] && OnPath(t, keys, k, p)
    requires |t'| == |t| && t'[p].clist.Null? && forall i: nat :: i < |t| && i != p ==> t'[i] == t[i]
    ensures TableInv(t', keys) && Represents(t', keys, m) && OnPath(t', keys, k, p)
    ensures Occupied(t') == Occupied(t)
  {
    forall k': Key, n: nat | k'.spell != [] && Passed(t, keys, k', n)
      ensures Passed(t', keys, k', n)
    {
      forall j: nat | j < n
        ensures var q := Visit(HashOf(k'), j, |t'|); t'[q].clist.At? && keys[q] != k'
      {
        assert t[Visit(HashOf(k'), j, |t|)].clist.At?;
      }
    }
    forall i: nat | i < |t'|
      ensures EntryOk(t', keys, i)
    {
      assert EntryOk(t, keys, i);
    }
    forall k' | k' in m
      ensures exists i: nat :: i < |t'| && t'[i].clist.At? && keys[i] == k'
    {
      var i: nat :| i < |t| && t[i].clist.At? && keys[i] == k';
      assert t'[i].clist.At?;
    }
  }
}
