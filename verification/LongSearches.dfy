/** At the two composite sizes the probe sequence does not bound a search: tables
    in order and within the fill limit, in which a search collides until its
    32-bit sum can wrap.  At the other sizes there are none. */
module LongSearches {
  import opened Connectors
  import opened Probing
  import opened TableSizes
  import opened TraconSets

  /** The inverse of `FIBONACCI_MULT` modulo 2^32. */
  const FIBONACCI_INVERSE: nat := 0x144CBC89

  /** A single connector whose tracon hash is `x`. */
  function ConFor(x: nat): Con {
    var y := x * FIBONACCI_INVERSE % WORD32;
    Con(Desc(y / 2, 0), y % 2 == 1)
  }

  function KeyFor(x: nat): (k: Key)
    ensures k.spell != []
  {
    Key([ConFor(x)], false)
  }

  lemma KeyForHash(x: nat)
    requires x < WORD32
    ensures HashOf(KeyFor(x)) == x
  {
    var q, y := x * FIBONACCI_INVERSE / WORD32, x * FIBONACCI_INVERSE % WORD32;
    ModUnique(y, 0, y, WORD32);
    assert ListHash(KeyFor(x).spell) == ConnectorHash(ConFor(x)) == y;
    assert y * FIBONACCI_MULT == (x * 0xC8BC280 - q * FIBONACCI_MULT) * WORD32 + x;
    ModUnique(y * FIBONACCI_MULT, x * 0xC8BC280 - q * FIBONACCI_MULT, x, WORD32);
  }

  ghost function CrowdedTable(n: nat): (t: seq<Slot>)
    requires n > 0
    ensures |t| == n
  {
    seq(n, i requires 0 <= i < n => if i in ProbeSet(0, n, n) then Slot(At(i), i) else Slot(Null, 0))
  }

  function CrowdedKeys(n: nat): (keys: seq<Key>)
    ensures |keys| == n
  {
    seq(n, i requires 0 <= i < n => KeyFor(i))
  }

  /** One connector per slot, and one more. */
  function CrowdedMemory(n: nat): (mem: seq<Cell>)
    ensures |mem| == n + 1
  {
    seq(n + 1, i requires 0 <= i <= n => Cell(ConFor(i), 0, 0, Null, false, 0, 0))
  }

  /** Every entry is in its home slot. */
  lemma CrowdedInOrder(n: nat)
    requires 0 < n < WORD32
    ensures TableInv(CrowdedTable(n), CrowdedKeys(n))
    ensures SlotsSpell(CrowdedMemory(n), CrowdedTable(n), CrowdedKeys(n), false)
  {
    var t, keys, mem := CrowdedTable(n), CrowdedKeys(n), CrowdedMemory(n);
    forall i: nat | i < n
      ensures EntryOk(t, keys, i)
      ensures t[i].clist.At? ==> CellFor(mem, t[i].clist, keys[i], false)
    {
      if t[i].clist.At? {
        KeyForHash(i);
        ModUnique(i, 0, i, n);
        assert Visit(HashOf(keys[i]), 0, n) == i && Passed(t, keys, keys[i], 0);
        assert mem[i].con == keys[i].spell[0] && keys[i].spell[1..] == [];
      }
    }
  }

  /** The first half of 2^32 - n places that the search visits. */
  lemma CrowdedCollides(n: nat)
    requires 0 < n < WORD32
    ensures Passed(CrowdedTable(n), CrowdedKeys(n), KeyFor(n), (WORD32 - n) / 2 + 1)
  {
    var t, keys, k := CrowdedTable(n), CrowdedKeys(n), KeyFor(n);
    KeyForHash(n);
    forall j: nat | j < (WORD32 - n) / 2 + 1
      ensures var q := Visit(HashOf(k), j, n); t[q].clist.At? && keys[q] != k
    {
      var q := Probe(n, j, n);
      VisitIsProbe(n, j, n);
      ModShift(j * j, 1, n);
      ProbeWraps(0, j, n);
      assert q == Probe(0, j % n, n);
      assert q in ProbeSet(0, n, n);
      KeyForHash(q);
    }
  }

  /** The search for `k` in a table in order and within its fill limit collides
      at least `n` times. */
  ghost predicate LongSearch(t: seq<Slot>, keys: seq<Key>, k: Key, n: nat) {
    && TableInv(t, keys)
    && |Occupied(t)| <= Limit(|t|)
    && k.spell != []
    && Passed(t, keys, k, n)
  }

  ghost predicate OutlastsHalf(t: seq<Slot>, keys: seq<Key>, k: Key, n: nat) {
    |t| == n && LongSearch(t, keys, k, (n + 1) / 2)
  }

  /** At either composite size there are a memory, a table whose entries it
      spells, and a connector list of that memory the search for which makes more
      than (2^32 - n) / 2 collisions, one at every place of its probe sequence. */
  lemma LongSearchExists(idx: nat)
    requires idx == 4 || idx == 5
    ensures var n := S_PRIME[idx];
            var t, keys, mem, k := CrowdedTable(n), CrowdedKeys(n), CrowdedMemory(n), KeyFor(n);
            && LongSearch(t, keys, k, (WORD32 - n) / 2 + 1)
            && SlotsSpell(mem, t, keys, false)
            && CellFor(mem, At(n), k, false)
  {
    var n := S_PRIME[idx];
    var t, keys := CrowdedTable(n), CrowdedKeys(n);
    CrowdedInOrder(n);
    CrowdedCollides(n);
    assert CrowdedMemory(n)[n].con == KeyFor(n).spell[0] && KeyFor(n).spell[1..] == [];
    SizesDecided(idx);
    EscapesExactly(n);
    SubsetSize(Occupied(t), ProbeSet(0, n, n));
  }

  /** A search can outlast the first half of its probes at exactly two listed
      sizes. */
  lemma LongSearchesExactly(idx: nat)
    requires idx < |S_PRIME|
    ensures (exists t: seq<Slot>, keys: seq<Key>, k: Key :: OutlastsHalf(t, keys, k, S_PRIME[idx]))
       <==> idx == 4 || idx == 5
  {
    var n := S_PRIME[idx];
    if idx == 4 || idx == 5 {
      LongSearchExists(idx);
      assert OutlastsHalf(CrowdedTable(n), CrowdedKeys(n), KeyFor(n), n);
    }
    forall t: seq<Slot>, keys: seq<Key>, k: Key | OutlastsHalf(t, keys, k, n)
      ensures idx == 4 || idx == 5
    {
      if idx != 4 && idx != 5 {
        SizesDecided(idx);
        StopsInFirstHalf(t, keys, k, idx, (n + 1) / 2);
        assert false;
      }
    }
  }

  /** A search that has collided `n` times collides until its sum can wrap. */
  lemma LongThenUntilWrap(t: seq<Slot>, keys: seq<Key>, k: Key, idx: nat)
    requires idx < |S_PRIME| && |t| == S_PRIME[idx] && LongSearch(t, keys, k, |t|)
    ensures (idx == 4 || idx == 5) && LongSearch(t, keys, k, (WORD32 - |t|) / 2 + 1)
  {
    if idx != 4 && idx != 5 { StopsInFirstHalf(t, keys, k, idx, |t|); }
    CollidesUntilWrap(t, keys, k);
  }
}
