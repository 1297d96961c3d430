/** Packing a sentence cell by cell: the copies are written to the block one
    after the other, tracons are looked up in the hash tables while the list is
    still half built, and a shared tail ends the copying. */
module Packers {
  import opened Connectors
  import opened Probing
  import opened TraconSets
  import opened PackingSpec
  import opened PackingMeaning
  import opened PackingMidway

  /** Initial size of a tracon list. */
  const TLSZ: nat := 8192

  /** A table whose map is sound has only slots that spell their keys. */
  lemma SlotsFromMap(cfg: Config, mem: seq<Cell>, t: seq<Slot>, keys: seq<Key>, m: map<Key, Ptr>)
    requires |t| == |keys| && Represents(t, keys, m) && TraconsOk(cfg, mem, m)
    ensures SlotsSpell(mem, t, keys, cfg.pruning)
  {
    hide CellFor;
  }

  lemma TraconsInWhole(cfg: Config, mem: seq<Cell>, n: nat, m: map<Key, Ptr>)
    requires n <= |mem| && TraconsOk(cfg, mem[..n], m)
    ensures TraconsOk(cfg, mem, m)
  {
    forall k | k in m
      ensures CellFor(mem, m[k], k, cfg.pruning)
    {
      SpellsFrame(mem[..n], mem, m[k], k.spell);
    }
  }

  ghost function Range(lo: nat, hi: nat): (s: set<nat>)
    requires lo <= hi
    ensures forall a: nat :: a in s <==> lo <= a < hi
    ensures |s| == hi - lo
  {
    if lo == hi then {} else Range(lo, hi - 1) + {hi - 1}
  }

  ghost function Places(m: map<Key, Ptr>, ks: set<Key>): set<nat>
    requires forall k :: k in ks ==> k in m && m[k].At?
  {
    set k | k in ks :: m[k].addr
  }

  /** Tracons are told apart by their cells: a cell spells one key. */
  lemma OneKeyPerCell(cfg: Config, mem: seq<Cell>, m: map<Key, Ptr>, k: Key, l: Key)
    requires TraconsOk(cfg, mem, m) && k in m && l in m && m[k] == m[l]
    ensures k == l
  {
    SpellsUnique(mem, m[k], k.spell, l.spell);
  }

  lemma {:induction false} PlacesCount(cfg: Config, mem: seq<Cell>, m: map<Key, Ptr>, ks: set<Key>)
    requires TraconsOk(cfg, mem, m) && ks <= m.Keys
    requires forall k :: k in ks ==> m[k].At?
    ensures |Places(m, ks)| == |ks|
    decreases |ks|
  {
    if ks != {} {
      var k :| k in ks;
      var rest := ks - {k};
      PlacesCount(cfg, mem, m, rest);
      assert m[k].addr !in Places(m, rest) by {
        if m[k].addr in Places(m, rest) {
          var l :| l in rest && m[l].addr == m[k].addr;
          OneKeyPerCell(cfg, mem, m, k, l);
          assert false;
        }
      }
      assert Places(m, ks) == Places(m, rest) + {m[k].addr};
    }
  }

  /** There are at most as many tracons as packed cells. */
  lemma TraconsFit(cfg: Config, mem: seq<Cell>, m: map<Key, Ptr>)
    requires TraconsOk(cfg, mem, m) && cfg.base <= |mem|
    ensures |m| <= |mem| - cfg.base
  {
    forall k | k in m
      ensures m[k].At? && cfg.base <= m[k].addr < |mem|
    {
      TraconInside(cfg, mem, m, k);
    }
    PlacesCount(cfg, mem, m, m.Keys);
    SubsetSize(Places(m, m.Keys), Range(cfg.base, |mem|));
  }

  lemma TraconInside(cfg: Config, mem: seq<Cell>, m: map<Key, Ptr>, k: Key)
    requires TraconsOk(cfg, mem, m) && k in m
    ensures m[k].At? && cfg.base <= m[k].addr < |mem|
  {
  }

  /** Only the first connector of a list is its head. */
  lemma HeadOnlyFirst(mem: seq<Cell>, p: Ptr, cs: seq<nat>, i: nat)
    requires Chain(mem, p, cs) && Below(cs, |mem|) && i < |cs|
    ensures (At(cs[i]) == p) == (i == 0)
  {
    if cs[i] == cs[0] { ChainDistinct(mem, p, cs, i, 0); }
  }

  /** The lookup half-way finds what may be shared according to the old table. */
  lemma LookedUp(cfg: Config, m0: seq<Cell>, mem: seq<Cell>, tracons: map<Key, Ptr>, cs: seq<nat>, i: nat, id: nat)
    requires Below(cs, cfg.base) && cfg.base <= |m0| && i < |cs| && cfg.encode && TraconsOk(cfg, m0, tracons)
    requires Mid(cfg, m0, cs, i, i + 1, id, OrigAt(cs, i)) <= mem
    ensures var k, t := KeyAt(cfg, m0, cs, i), Inserted(cfg, m0, tracons, cs, i);
            && (k in t <==> k in tracons) && (k in t ==> t[k] == tracons[k])
            && (Sharable(cfg, m0, tracons, cs, i) <==>
                  k in t && (cfg.pruning || SameBounds(mem, At(cs[i]), t[k])))
  {
    hide Mid, KeyAt;
    var k := KeyAt(cfg, m0, cs, i);
    OldKeysOnly(cfg, m0, tracons, cs, i, i);
    if k in tracons {
      TraconInside(cfg, m0, tracons, k);
      MidBounds(cfg, m0, mem, cs, i, i + 1, id, OrigAt(cs, i), At(cs[i]), tracons[k]);
    }
  }

  /** A side after the `i`th connector has been looked up. */
  ghost function Looked(cfg: Config, m0: seq<Cell>, side0: Side, cs: seq<nat>, w: nat, i: nat): Side
    requires Below(cs, |m0|) && i < |cs| && cfg.base <= |m0|
    requires cfg.pruning ==> UcFits(side0.uc, Spell(m0, cs), w)
  {
    var s, s' := SideAfter(cfg, m0, side0, cs, w, i), SideAfter(cfg, m0, side0, cs, w, i + 1);
    if Sharable(cfg, m0, side0.tracons, cs, i) then s else s.(tracons := s'.tracons, list := s'.list)
  }

  lemma LookedIs(cfg: Config, m0: seq<Cell>, side0: Side, cs: seq<nat>, w: nat, i: nat)
    requires Below(cs, |m0|) && i < |cs| && cfg.base <= |m0|
    requires cfg.pruning ==> UcFits(side0.uc, Spell(m0, cs), w)
    requires cfg.encode ==> (KeyAt(cfg, m0, cs, i) in Inserted(cfg, m0, side0.tracons, cs, i) <==>
                             KeyAt(cfg, m0, cs, i) in side0.tracons)
    ensures var k, s := KeyAt(cfg, m0, cs, i), SideAfter(cfg, m0, side0, cs, w, i);
            var t, add := s.tracons, cfg.encode && k !in s.tracons;
            Looked(cfg, m0, side0, cs, w, i)
              == s.(tracons := if add then t[k := At(|m0| + i)] else t,
                    list := s.list + if cfg.pruning && add then [|m0| + i - cfg.base] else [])
  {
    hide KeyAt, StampAll, UcFits, Run, SameBounds;
    var l, s := |m0| - cfg.base, SideAfter(cfg, m0, side0, cs, w, i);
    RunGrows(side0.list, l, i);
    assert s.list + [] == s.list;
  }

  lemma RunGrows(list: seq<nat>, l: nat, i: nat)
    ensures list + Run(l, i + 1) == list + Run(l, i) + [l + i]
  {
  }

  lemma TraconTableAgrees(cfg: Config, tset: TraconSet, mem: seq<Cell>)
    requires tset.Valid() && tset.shallowMode == cfg.pruning && TraconsOk(cfg, mem, tset.contents)
    ensures tset.Agrees(mem)
  {
    SlotsFromMap(cfg, mem, tset.table[..], tset.keys, tset.contents);
  }

  /** The existing tracon for the list at `o`, or NULL after entering `p` as the
      tracon. */
  method LookUpOrEnter(tset: TraconSet, mem: array<Cell>, o: nat, p: Ptr, ghost k: Key) returns (ok: bool, found: Ptr)
    requires tset.Valid() && tset.Agrees(mem[..]) && p.At?
    requires CellFor(mem[..], At(o), k, tset.shallowMode)
    modifies tset, tset.table
    ensures tset.shallowMode == old(tset.shallowMode)
    ensures ok ==> tset.Valid() && (tset.table == old(tset.table) || fresh(tset.table))
    ensures ok ==> var t := old(tset.contents);
              if k in t then tset.contents == t && found == t[k] && found.At?
              else tset.contents == t[k := p] && found == Null
    ensures !ok ==> tset.Failed()
    ensures old(tset.Small()) ==> ok && tset.primeIdx <= 3
  {
    hide Represents, TableInv, Occupied, SlotsSpell, CellFor;
    var slot;
    ok, slot := tset.Add(mem, o, k);
    found := Null;
    if !ok { return; }
    if tset.table[slot].clist.Null? {
      tset.Fill(slot, p, k);
    } else {
      found := tset.table[slot].clist;
    }
  }

  class Packer {
    const cfg: Config
    /** All connectors: the originals first, then the packed block. */
    const mem: array<Cell>
    /** The tracon tables of the two directions; none when not encoding. */
    const csid: seq<TraconSet>
    /** The number of upper-case parts of the dictionary, and of words. */
    const numUc: nat
    const length: nat
    /** The connectors of the sentence as they were given. */
    ghost const orig: seq<Cell>

    var cblock: nat
    var nextId: seq<nat>
    var list: seq<seq<nat>>
    var listSize: seq<nat>
    var uc: seq<UcTable>
    var lastToken: int
    var dblock: seq<Disjunct>
    ghost var home: seq<Home>
    ghost var jets: seq<Jet>

    ghost predicate Shape()
      reads this
    {
      && cfg.base <= cblock <= mem.Length
      && |nextId| == |list| == |listSize| == |uc| == 2
      && (forall d: nat :: d < 2 ==> |list[d]| <= listSize[d] && 0 < listSize[d])
      && (if cfg.encode then |csid| == 2 && csid[0] != csid[1] else csid == [])
    }

    ghost function SideOf(d: nat): Side
      requires Shape() && d < 2
      reads this, csid
    {
      Side(if cfg.encode then csid[d].contents else map[], nextId[d], list[d], uc[d])
    }

    ghost function Abs(): State
      requires Shape()
      reads this, mem, csid
    {
      State(mem[..cblock], [SideOf(0), SideOf(1)], lastToken, dblock, home, jets)
    }

    ghost function Tables(): set<object>
      reads csid
    {
      set t: TraconSet | t in csid :: t.table
    }

    ghost predicate TableOk(d: nat)
      requires d < |csid|
      reads csid, Tables()
    {
      csid[d].Valid() && csid[d].shallowMode == cfg.pruning
    }

    ghost predicate TablesOk()
      requires Shape()
      reads this, csid, Tables()
    {
      cfg.encode ==> TableOk(0) && TableOk(1) && csid[0].table != csid[1].table
    }

    ghost predicate Valid()
      reads this, mem, csid, Tables()
    {
      && Shape()
      && Sound(cfg, Abs())
      && TablesOk()
    }

    // ---------- Setting up ----------

    constructor (pruning: bool, encode: bool, connectors: seq<Cell>, ccnt: nat, numUc: nat, length: nat)
      ensures cfg == Config(pruning, encode, |connectors|) && orig == connectors
      ensures this.numUc == numUc && this.length == length && mem.Length == |connectors| + ccnt
      ensures Valid() && Abs() == Start(cfg, connectors, numUc, length) && listSize == [8192, 8192]
      ensures fresh(mem) && fresh(csid) && fresh(Tables())
      ensures ccnt <= Limit(S_PRIME[3]) ==> Roomy()
    {
      hide TableInv, Represents, Occupied, TraconSet.Valid, Sound;
      cfg := Config(pruning, encode, |connectors|);
      orig, this.numUc, this.length := connectors, numUc, length;
      var blank := Cell(Con(Desc(0, 0), false), 0, 0, Null, false, 0, 0);
      mem := new Cell[|connectors| + ccnt](i requires 0 <= i => if i < |connectors| then connectors[i] else blank);
      cblock := |connectors|;
      var firstId := if pruning then 1 else NULL_TRACON_BLOCK;
      nextId, list, listSize := [firstId, firstId], [[], []], [TLSZ, TLSZ];
      uc := [NewUc(numUc, length), NewUc(numUc, length)];
      lastToken, dblock, home, jets := -1, [], [], [];
      if encode {
        var left := new TraconSet(pruning);
        var right := new TraconSet(pruning);
        csid := [left, right];
      } else {
        csid := [];
      }
      new;
      assert mem[..cblock] == connectors;
      assert Abs() == Start(cfg, connectors, numUc, length);
      StartSound(cfg, connectors, numUc, length);
    }

    // ---------- The pieces of pack_connectors ----------

    /** Make room for one more entry of the tracon list. */
    method TlszCheck(index: nat, dir: nat)
      requires |listSize| == 2 && dir < 2 && 0 < listSize[dir] && index <= listSize[dir]
      modifies this`listSize
      ensures |listSize| == 2 && listSize == old(listSize)[dir := listSize[dir]]
      ensures index < listSize[dir]
      ensures listSize[dir] == if index < old(listSize[dir]) then old(listSize[dir]) else 2 * old(listSize[dir])
    {
      if index >= listSize[dir] {
        listSize := listSize[dir := listSize[dir] * 2];
      }
    }

    /** Look the list at `o` up; enter it, with its future address, when it is
        new; give the cell to share, if there is one. */
    method FindTracon(o: nat, lcblock: nat, dir: nat, ghost k: Key) returns (ok: bool, newc: Ptr)
      requires Shape() && cfg.encode && dir < 2 && TablesOk() && cfg.base <= lcblock
      requires TraconsOk(cfg, mem[..], csid[dir].contents)
      requires o < mem.Length && CellFor(mem[..], At(o), k, cfg.pruning)
      modifies this`list, this`listSize, csid[dir], csid[dir].table
      ensures ok ==> Shape() && TablesOk() && csid[1 - dir].contents == old(csid[1 - dir].contents)
      ensures ok ==> csid[dir].table == old(csid[dir].table) || fresh(csid[dir].table)
      ensures ok ==> var t := old(csid[dir].contents);
                csid[dir].contents == (if k in t then t else t[k := At(lcblock)])
                && newc == (if k in t && (cfg.pruning || SameBounds(mem[..], At(o), t[k])) then t[k] else Null)
                && list == old(list)[dir := old(list[dir]) + if cfg.pruning && k !in t then [lcblock - cfg.base] else []]
      ensures !ok ==> csid[dir].Failed()
      ensures old(csid[dir].Small()) ==> ok && csid[dir].primeIdx <= 3
    {
      hide TableInv, Represents, Occupied, SlotsSpell, CellFor, TraconsOk, Trapped, TraconSet.Valid;
      TraconTableAgrees(cfg, csid[dir], mem[..]);
      ok, newc := LookUpOrEnter(csid[dir], mem, o, At(lcblock), k);
      if !ok { return; }
      assert list[dir] + [] == list[dir];
      if newc.Null? {
        if cfg.pruning {
          TlszCheck(|list[dir]|, dir);
          list := list[dir := list[dir] + [lcblock - cfg.base]];
        }
      } else {
        TraconInside(cfg, mem[..], old(csid[dir].contents), k);
        if !cfg.pruning {
          if mem[o].nearestWord != mem[newc.addr].nearestWord || mem[o].farthestWord != mem[newc.addr].farthestWord {
            newc := Null;
          }
        }
      }
    }

    /** Copy the connector at `o` to the block. */
    method CopyConnector(o: nat, lcblock: nat, dir: nat, w: nat)
      requires Shape() && dir < 2 && o < lcblock < mem.Length
      requires cfg.pruning ==> mem[o].con.desc.ucNum < |uc[dir].seen| && w < |uc[dir].count|
      modifies this`nextId, this`uc, mem
      ensures Shape()
      ensures mem[..lcblock] == old(mem[..lcblock])
      ensures mem[lcblock] == CopyCell(cfg, old(mem[o]), old(mem[o]).shallow, old(mem[o]).next, old(nextId[dir]))
      ensures nextId == old(nextId)[dir := old(nextId[dir]) + if cfg.pruning then 0 else 1]
      ensures uc == if cfg.pruning then old(uc)[dir := Stamp(old(uc[dir]), old(mem[o]).con.desc.ucNum, w)] else old(uc)
    {
      mem[lcblock] := mem[o];
      if cfg.pruning {
        mem[lcblock] := mem[lcblock].(refcount := 1);
        var u := mem[lcblock].con.desc.ucNum;
        if uc[dir].seen[u] != w {
          var t := uc[dir];
          uc := uc[dir := UcTable(t.seen[u := w % 256], t.count[w := t.count[w] + 1])];
        }
      } else {
        mem[lcblock] := mem[lcblock].(traconId := nextId[dir]);
        nextId := nextId[dir := nextId[dir] + 1];
      }
    }

    /** Count one more reference to each cell of the list at `p`. */
    method AddReference(p: Ptr, ghost s: seq<Con>)
      requires Spells(mem[..], p, s)
      modifies mem
      ensures mem[..] == Touched(old(mem[..]), [], 0, Follow(old(mem[..]), p, |s|))
    {
      ghost var m := mem[..];
      ghost var path := Follow(m, p, |s|);
      FollowLength(m, p, s);
      var n := p;
      ghost var i := 0;
      assert path[..0] == [] && s[0..] == s;
      assert m == Touched(m, [], 0, path[..0]);
      while n.At?
        invariant i <= |s| && Spells(m, n, s[i..])
        invariant i < |s| ==> n == At(path[i])
        invariant mem[..] == Touched(m, [], 0, path[..i])
        decreases |s| - i
      {
        BumpNext(m, p, s, i);
        mem[n.addr] := mem[n.addr].(refcount := mem[n.addr].refcount + 1);
        n := mem[n.addr].next;
        i := i + 1;
      }
      assert i == |s| && path[..i] == path;
    }

    // ---------- One jet ----------

    /** The block is small enough for the fourth table size to hold a tracon per
        cell, and no table is larger. */
    ghost predicate Roomy()
      reads csid
    {
      && mem.Length <= cfg.base + Limit(S_PRIME[3])
      && forall t :: t in csid ==> t.primeIdx <= 3
    }

    /** `i` connectors of the jet have been packed and nothing could be shared. */
    ghost predicate AtStep(m0: seq<Cell>, side0: Side, dir: nat, cs: seq<nat>, w: nat, i: nat, lcblock: nat)
      requires Below(cs, |m0|) && i <= |cs| && dir < 2 && cfg.base <= |m0|
      requires cfg.pruning ==> UcFits(side0.uc, Spell(m0, cs), w)
      reads this, mem, csid, Tables()
    {
      && Shape()
      && lcblock == |m0| + i <= mem.Length
      && mem[..lcblock] == Mid(cfg, m0, cs, i, i, side0.nextId, OrigAt(cs, i))
      && SideOf(dir) == SideAfter(cfg, m0, side0, cs, w, i)
      && (forall j: nat :: j < i ==> !Sharable(cfg, m0, side0.tracons, cs, j))
      && TablesOk()
    }

    /** Look the next tracon up in the middle of a jet. */
    method FindMidway(o: nat, ghost origc: Ptr, dir: nat, lcblock: nat, ghost m0: seq<Cell>, ghost side0: Side,
                      ghost cs: seq<nat>, ghost i: nat) returns (ok: bool, newc: Ptr)
      requires Below(cs, cfg.base) && cfg.base <= |m0| && i < |cs| && o == cs[i] && dir < 2 && cfg.encode
      requires Chain(m0, origc, cs) && TraconsOk(cfg, m0, side0.tracons)
      requires Shape() && TablesOk() && lcblock == |m0| + i < mem.Length
      requires mem[..lcblock] == Mid(cfg, m0, cs, i, i + 1, side0.nextId, OrigAt(cs, i))
      requires csid[dir].contents == Inserted(cfg, m0, side0.tracons, cs, i)
      modifies this`list, this`listSize, csid[dir], csid[dir].table
      ensures ok ==> Shape() && TablesOk() && csid[1 - dir].contents == old(csid[1 - dir].contents)
      ensures ok ==> csid[dir].table == old(csid[dir].table) || fresh(csid[dir].table)
      ensures ok ==> var k, t := KeyAt(cfg, m0, cs, i), old(csid[dir].contents);
                && (k in t <==> k in side0.tracons)
                && csid[dir].contents == (if k in t then t else t[k := At(lcblock)])
                && list == old(list)[dir := old(list[dir]) + if cfg.pruning && k !in t then [lcblock - cfg.base] else []]
      ensures ok ==> newc == if Sharable(cfg, m0, side0.tracons, cs, i) then side0.tracons[KeyAt(cfg, m0, cs, i)] else Null
      ensures ok ==> (newc.At? <==> Sharable(cfg, m0, side0.tracons, cs, i))
      ensures !ok ==> csid[dir].Failed()
      ensures old(Roomy()) ==> ok && Roomy()
    {
      hide Mid, Represents, TableInv, Occupied, CellFor, KeyAt, Trapped, TraconSet.Valid;
      ghost var k, t := KeyAt(cfg, m0, cs, i), csid[dir].contents;
      ghost var mid := Mid(cfg, m0, cs, i, i + 1, side0.nextId, OrigAt(cs, i));
      MidCell(cfg, m0, origc, cs, i, side0.nextId);
      CellForInWhole(mid, mem[..], At(o), k, cfg.pruning);
      MidTraconsOk(cfg, m0, side0.tracons, origc, cs, i, i + 1, side0.nextId, i);
      TraconsFit(cfg, mid, t);
      TraconsInWhole(cfg, mem[..], lcblock, t);
      LookedUp(cfg, m0, mem[..], side0.tracons, cs, i, side0.nextId);
      ok, newc := FindTracon(o, lcblock, dir, k);
      if ok && k in t { TraconInside(cfg, m0, side0.tracons, k); }
    }

    /** Mark the next original connector and look its tracon up. */
    method MarkAndFind(o: nat, origc: Ptr, dir: nat, ghost w: nat, lcblock: nat,
                       ghost m0: seq<Cell>, ghost side0: Side, ghost cs: seq<nat>, ghost i: nat)
      returns (ok: bool, newc: Ptr)
      requires Below(cs, cfg.base) && cfg.base <= |m0| && i < |cs| && o == cs[i] && dir < 2
      requires cfg.pruning ==> UcFits(side0.uc, Spell(m0, cs), w)
      requires Chain(m0, origc, cs)
      requires TraconsOk(cfg, m0, side0.tracons)
      requires AtStep(m0, side0, dir, cs, w, i, lcblock) && lcblock < mem.Length
      modifies this`list, this`listSize, mem
      modifies if cfg.encode then {csid[dir], csid[dir].table} else {}
      ensures ok ==> Shape() && TablesOk()
      ensures ok ==> SideOf(dir) == Looked(cfg, m0, side0, cs, w, i)
      ensures ok ==> mem[..lcblock] == Mid(cfg, m0, cs, i, i + 1, side0.nextId, OrigAt(cs, i))
      ensures ok ==> newc == if Sharable(cfg, m0, side0.tracons, cs, i) then side0.tracons[KeyAt(cfg, m0, cs, i)] else Null
      ensures ok ==> (newc.At? <==> Sharable(cfg, m0, side0.tracons, cs, i))
      ensures ok ==> SideOf(1 - dir) == old(SideOf(1 - dir))
      ensures ok && cfg.encode ==> csid[dir].table == old(csid[dir].table) || fresh(csid[dir].table)
      ensures !ok ==> cfg.encode && csid[dir].Failed()
      ensures old(Roomy()) ==> ok && Roomy()
    {
      hide Mid, Represents, TableInv, Occupied, StampAll, UcFits, Run, CellFor, KeyAt, Looked, Trapped, TraconSet.Valid;
      MidMark(cfg, m0, origc, cs, i, side0.nextId, OrigAt(cs, i));
      HeadOnlyFirst(m0, origc, cs, i);
      mem[o] := mem[o].(shallow := At(o) == origc);
      assert mem[..lcblock] == Mid(cfg, m0, cs, i, i + 1, side0.nextId, OrigAt(cs, i));
      newc, ok := Null, true;
      if cfg.encode {
        assert csid[dir].contents == Inserted(cfg, m0, side0.tracons, cs, i);
        ok, newc := FindMidway(o, origc, dir, lcblock, m0, side0, cs, i);
        if !ok { return; }
      }
      LookedIs(cfg, m0, side0, cs, w, i);
    }

    /** Point the last copy, if there is one, at `q`. */
    method LinkTo(prevc: Ptr, q: Ptr, ghost n: nat, ghost i: nat)
      requires prevc == if i == 0 then Null else At(n + i - 1)
      requires i > 0 ==> n + i - 1 < mem.Length
      modifies mem
      ensures mem[..] == LinkLast(old(mem[..]), n, i, q)
    {
      if prevc.At? {
        mem[prevc.addr] := mem[prevc.addr].(next := q);
      }
    }

    /** Copy the connector at `o` to the block and link to the copy. */
    method CopyAndLink(o: nat, prevc: Ptr, dir: nat, w: nat, lcblock: nat, ghost n: nat, ghost i: nat)
      requires Shape() && TablesOk() && dir < 2 && o < lcblock < mem.Length
      requires cfg.pruning ==> mem[o].con.desc.ucNum < |uc[dir].seen| && w < |uc[dir].count|
      requires prevc == if i == 0 then Null else At(n + i - 1)
      requires i > 0 ==> n + i - 1 < lcblock
      modifies this`nextId, this`uc, mem
      ensures Shape() && TablesOk()
      ensures mem[..lcblock + 1] == LinkLast(old(mem[..lcblock]), n, i, At(lcblock))
                + [CopyCell(cfg, old(mem[o]), old(mem[o]).shallow, old(mem[o]).next, old(nextId[dir]))]
      ensures nextId == old(nextId)[dir := old(nextId[dir]) + if cfg.pruning then 0 else 1]
      ensures uc == if cfg.pruning then old(uc)[dir := Stamp(old(uc[dir]), old(mem[o]).con.desc.ucNum, w)] else old(uc)
    {
      hide CopyCell, Stamp;
      ghost var mid := mem[..lcblock];
      CopyConnector(o, lcblock, dir, w);
      ghost var c := mem[lcblock];
      assert mem[..lcblock + 1] == mid + [c];
      LinkTo(prevc, At(lcblock), n, i);
      assert mem[..lcblock + 1] == LinkLast(mid, n, i, At(lcblock)) + [c];
    }

    /** Copy the connector that was looked up in vain, and link to it. */
    method CopyStep(o: nat, prevc: Ptr, dir: nat, w: nat, lcblock: nat,
                    ghost m0: seq<Cell>, ghost side0: Side, ghost origc: Ptr, ghost cs: seq<nat>, ghost i: nat)
      requires Below(cs, cfg.base) && cfg.base <= |m0| && i < |cs| && o == cs[i] && dir < 2
      requires cfg.pruning ==> UcFits(side0.uc, Spell(m0, cs), w)
      requires Chain(m0, origc, cs)
      requires Shape() && TablesOk()
      requires lcblock == |m0| + i < mem.Length
      requires SideOf(dir) == Looked(cfg, m0, side0, cs, w, i)
      requires mem[..lcblock] == Mid(cfg, m0, cs, i, i + 1, side0.nextId, OrigAt(cs, i))
      requires prevc == if i == 0 then Null else At(|m0| + i - 1)
      requires forall j: nat :: j <= i ==> !Sharable(cfg, m0, side0.tracons, cs, j)
      modifies this`nextId, this`uc, mem
      ensures AtStep(m0, side0, dir, cs, w, i + 1, lcblock + 1)
      ensures SideOf(1 - dir) == old(SideOf(1 - dir))
    {
      hide Mid, SideAfter, Looked, Sharable, UcFits, Stamp, CopyCell, TouchedCell;
      MidOld(cfg, m0, cs, i, i + 1, side0.nextId, OrigAt(cs, i), o);
      LookedToNext(cfg, m0, side0, cs, w, i);
      CopiedConnector(cfg, m0, origc, cs, i, side0.nextId);
      LinkedCopy(cfg, m0, cs, i, side0.nextId, nextId[dir]);
      CopyAndLink(o, prevc, dir, w, lcblock, |m0|, i);
    }

    /** The jet is packed, up to moving the block's end to `lcblock`. */
    ghost predicate Done(m0: seq<Cell>, side0: Side, dir: nat, cs: seq<nat>, w: nat, lcblock: nat)
      requires Below(cs, |m0|) && dir < 2 && cfg.base <= |m0|
      requires cfg.pruning ==> UcFits(side0.uc, Spell(m0, cs), w)
      reads this, mem, csid, Tables()
    {
      && Shape() && TablesOk()
      && cfg.base <= lcblock <= mem.Length
      && mem[..lcblock] == JetMem(cfg, m0, side0, cs)
      && SideOf(dir) == SideAfter(cfg, m0, side0, cs, w, Copied(cfg, m0, side0.tracons, cs, 0))
    }

    /** Count the references to the shared tracon and link to it. */
    method ShareStep(newc: Ptr, prevc: Ptr, dir: nat, ghost w: nat, lcblock: nat,
                     ghost m0: seq<Cell>, ghost side0: Side, ghost cs: seq<nat>, ghost i: nat)
      requires Below(cs, cfg.base) && cfg.base <= |m0| && i < |cs| && dir < 2
      requires cfg.pruning ==> UcFits(side0.uc, Spell(m0, cs), w)
      requires TraconsOk(cfg, m0, side0.tracons)
      requires Shape() && TablesOk() && SideOf(dir) == Looked(cfg, m0, side0, cs, w, i)
      requires lcblock == |m0| + i <= mem.Length
      requires mem[..lcblock] == Mid(cfg, m0, cs, i, i + 1, side0.nextId, OrigAt(cs, i))
      requires prevc == if i == 0 then Null else At(|m0| + i - 1)
      requires Sharable(cfg, m0, side0.tracons, cs, i) && newc == side0.tracons[KeyAt(cfg, m0, cs, i)]
      requires forall j: nat :: j < i ==> !Sharable(cfg, m0, side0.tracons, cs, j)
      modifies mem
      ensures Done(m0, side0, dir, cs, w, lcblock)
      ensures SideOf(1 - dir) == old(SideOf(1 - dir))
      ensures JetRoot(cfg, m0, side0, cs) == if i == 0 then newc else At(|m0|)
    {
      hide Mid, JetMem, KeyAt, Tail, SideAfter, Looked, Sharable, UcFits, TraconsOk;
      CopiedIs(cfg, m0, side0.tracons, cs, i);
      TailIs(cfg, m0, side0.tracons, cs, i);
      LookedShared(cfg, m0, side0, cs, w, i);
      CountAndLink(newc, prevc, lcblock, m0, side0, cs, i);
    }

    method CountAndLink(newc: Ptr, prevc: Ptr, lcblock: nat,
                        ghost m0: seq<Cell>, ghost side0: Side, ghost cs: seq<nat>, ghost i: nat)
      requires Below(cs, cfg.base) && cfg.base <= |m0| && i < |cs|
      requires TraconsOk(cfg, m0, side0.tracons)
      requires lcblock == |m0| + i <= mem.Length
      requires mem[..lcblock] == Mid(cfg, m0, cs, i, i + 1, side0.nextId, OrigAt(cs, i))
      requires prevc == if i == 0 then Null else At(|m0| + i - 1)
      requires Copied(cfg, m0, side0.tracons, cs, 0) == i && newc == Tail(cfg, m0, side0.tracons, cs)
      modifies mem
      ensures mem[..lcblock] == JetMem(cfg, m0, side0, cs)
    {
      hide Mid, JetMem, Touched, KeyAt, Counted, Tail;
      ghost var mid, s := mem[..lcblock], KeyAt(cfg, m0, cs, i).spell;
      ghost var path := Counted(cfg, m0, side0.tracons, cs);
      SharedTail(cfg, m0, mem[..], side0, cs, i);
      if cfg.pruning {
        AddReference(newc, s);
        TouchedPrefix(old(mem[..]), lcblock, path);
      } else {
        TouchedNothing(mid);
      }
      assert mem[..lcblock] == Touched(mid, [], 0, path);
      LinkTo(prevc, newc, |m0|, i);
      assert mem[..lcblock] == LinkLast(Touched(mid, [], 0, path), |m0|, i, newc);
      LinkAfterCount(mid, |m0|, i, newc, path);
      MidRelink(cfg, m0, cs, i, i + 1, side0.nextId, OrigAt(cs, i), newc);
      MidShare(cfg, m0, side0, cs, i, path);
    }

    /** The whole list was copied. */
    lemma AllCopied(m0: seq<Cell>, side0: Side, dir: nat, cs: seq<nat>, w: nat, lcblock: nat)
      requires Below(cs, |m0|) && dir < 2 && cfg.base <= |m0|
      requires cfg.pruning ==> UcFits(side0.uc, Spell(m0, cs), w)
      requires AtStep(m0, side0, dir, cs, w, |cs|, lcblock)
      ensures Done(m0, side0, dir, cs, w, lcblock)
      ensures JetRoot(cfg, m0, side0, cs) == if cs == [] then Null else At(|m0|)
    {
      hide Mid, JetMem, KeyAt, Tail, SideAfter, Sharable, UcFits;
      CopiedIs(cfg, m0, side0.tracons, cs, |cs|);
      TailIs(cfg, m0, side0.tracons, cs, |cs|);
      MidEnd(cfg, m0, side0, cs);
    }

    /** Move the block's end. */
    method Finish(lcblock: nat, dir: nat, ghost w: nat, ghost st0: State, ghost cs: seq<nat>, ghost token: int)
      requires Shape() && dir < 2 && JetFits(cfg, st0, dir, cs, w)
      requires Done(st0.mem, st0.sides[dir], dir, cs, w, lcblock)
      requires SideOf(1 - dir) == st0.sides[1 - dir]
      requires lastToken == st0.lastToken && dblock == st0.dblock && home == st0.home && jets == st0.jets
      modifies this`cblock, this`home, this`jets
      ensures Shape() && TablesOk() && Abs() == PackJet(cfg, st0, dir, cs, w, token)
    {
      hide JetMem, SideAfter, JetRoot, UcFits;
      cblock := lcblock;
      home := home + seq(Copied(cfg, st0.mem, st0.sides[dir].tracons, cs, 0), _ => Home(dir, token));
      jets := jets + [Jet(JetRoot(cfg, st0.mem, st0.sides[dir], cs), Spell(st0.mem, cs), dir, w, token)];
    }

    /** One more connector: share the rest, or copy it.  The cell shared or
        written, and the next original. */
    method PackNext(o: nat, origc: Ptr, prevc: Ptr, dir: nat, w: nat, lcblock: nat,
                    ghost m0: seq<Cell>, ghost side0: Side, ghost cs: seq<nat>, ghost i: nat)
      returns (ok: bool, shared: bool, newc: Ptr, next: Ptr)
      requires Below(cs, cfg.base) && cfg.base <= |m0| && i < |cs| && o == cs[i] && dir < 2
      requires cfg.pruning ==> UcFits(side0.uc, Spell(m0, cs), w)
      requires Chain(m0, origc, cs) && TraconsOk(cfg, m0, side0.tracons)
      requires AtStep(m0, side0, dir, cs, w, i, lcblock) && |m0| + |cs| <= mem.Length
      requires prevc == if i == 0 then Null else At(|m0| + i - 1)
      modifies this`nextId, this`list, this`listSize, this`uc, mem
      modifies if cfg.encode then {csid[dir], csid[dir].table} else {}
      ensures ok && shared ==> Done(m0, side0, dir, cs, w, lcblock)
      ensures ok && shared ==> JetRoot(cfg, m0, side0, cs) == if i == 0 then newc else At(|m0|)
      ensures ok && !shared ==> AtStep(m0, side0, dir, cs, w, i + 1, lcblock + 1)
      ensures ok && !shared ==> newc == At(lcblock) && next == OrigAt(cs, i + 1)
      ensures ok ==> SideOf(1 - dir) == old(SideOf(1 - dir))
      ensures ok && cfg.encode ==> csid[dir].table == old(csid[dir].table) || fresh(csid[dir].table)
      ensures !ok ==> cfg.encode && csid[dir].Failed()
      ensures old(Roomy()) ==> ok && Roomy()
    {
      hide Mid, JetMem, Sharable, KeyAt, SideAfter, UcFits, TraconsOk, Tail, JetRoot, Roomy, TraconSet.Valid;
      ok, newc := MarkAndFind(o, origc, dir, w, lcblock, m0, side0, cs, i);
      shared, next := newc.At?, Null;
      if !ok { return; }
      if shared {
        ShareStep(newc, prevc, dir, w, lcblock, m0, side0, cs, i);
      } else {
        CopyStep(o, prevc, dir, w, lcblock, m0, side0, origc, cs, i);
        newc := At(lcblock);
        MidNext(cfg, m0, origc, cs, i, side0.nextId);
        next := mem[o].next;
      }
    }

    /** Copy the list at `origc` until its remaining sequence is a known tracon. */
    method CopyUntilShared(origc: Ptr, dir: nat, w: nat, ghost m0: seq<Cell>, ghost side0: Side, ghost cs: seq<nat>)
      returns (ok: bool, head: Ptr, lcblock: nat)
      requires Shape() && TablesOk() && dir < 2 && m0 == mem[..cblock] && side0 == SideOf(dir)
      requires Below(cs, cfg.base) && Chain(m0, origc, cs) && cblock + |cs| <= mem.Length
      requires cfg.pruning ==> UcFits(side0.uc, Spell(m0, cs), w)
      requires TraconsOk(cfg, m0, side0.tracons)
      modifies this`nextId, this`list, this`listSize, this`uc, mem
      modifies if cfg.encode then {csid[dir], csid[dir].table} else {}
      ensures ok ==> Done(m0, side0, dir, cs, w, lcblock) && head == JetRoot(cfg, m0, side0, cs)
      ensures ok ==> SideOf(1 - dir) == old(SideOf(1 - dir))
      ensures ok && cfg.encode ==> csid[dir].table == old(csid[dir].table) || fresh(csid[dir].table)
      ensures !ok ==> cfg.encode && csid[dir].Failed()
      ensures old(Roomy()) ==> ok && Roomy()
    {
      hide Mid, JetMem, Sharable, KeyAt, SideAfter, UcFits, TraconsOk, Tail, JetRoot, Roomy, TraconSet.Valid;
      lcblock := cblock;
      var o, prevc := origc, Null;
      head, ok := Null, true;
      ghost var i := 0;
      MidStart(cfg, m0, side0, origc, cs, w);
      while o.At?
        invariant ok && i <= |cs| && o == OrigAt(cs, i)
        invariant AtStep(m0, side0, dir, cs, w, i, lcblock)
        invariant SideOf(1 - dir) == old(SideOf(1 - dir))
        invariant cfg.encode ==> csid[dir].table == old(csid[dir].table) || fresh(csid[dir].table)
        invariant old(Roomy()) ==> Roomy()
        invariant prevc == if i == 0 then Null else At(|m0| + i - 1)
        invariant head == if i == 0 then Null else At(|m0|)
        decreases |cs| - i
      {
        var shared, newc, next;
        ok, shared, newc, next := PackNext(o.addr, origc, prevc, dir, w, lcblock, m0, side0, cs, i);
        if !ok { return; }
        if head.Null? { head := newc; }
        if shared { return; }
        prevc, o, lcblock, i := newc, next, lcblock + 1, i + 1;
      }
      AllCopied(m0, side0, dir, cs, w, lcblock);
    }

    /** Pack one jet. */
    method PackConnectors(origc: Ptr, dir: nat, w: nat, ghost cs: seq<nat>, ghost token: int) returns (ok: bool, head: Ptr)
      requires Valid() && dir < 2 && Ready(cfg, Abs(), dir, cs, w)
      requires Chain(mem[..cblock], origc, cs) && cblock + |cs| <= mem.Length
      modifies this, mem
      modifies if cfg.encode then {csid[dir], csid[dir].table} else {}
      ensures ok ==> Valid() && Abs() == PackJet(cfg, old(Abs()), dir, cs, w, token)
      ensures ok ==> head == JetRoot(cfg, old(mem[..cblock]), old(SideOf(dir)), cs)
      ensures ok && cfg.encode ==> csid[dir].table == old(csid[dir].table) || fresh(csid[dir].table)
      ensures !ok ==> cfg.encode && csid[dir].Failed()
      ensures old(Roomy()) ==> ok && Roomy()
    {
      hide JetMem, UcFits, TraconsOk, Closed, JetOk, JetRoot, PackJet, Roomy;
      ghost var st0 := Abs();
      assert TraconsOk(cfg, st0.mem, st0.sides[dir].tracons);
      var lcblock;
      ok, head, lcblock := CopyUntilShared(origc, dir, w, st0.mem, st0.sides[dir], cs);
      if !ok { return; }
      Finish(lcblock, dir, w, st0, cs, token);
      JetSound(cfg, st0, dir, cs, w, token);
    }

    // ---------- Disjuncts and the sentence ----------

    ghost predicate Room(n: nat)
      reads this
    {
      cblock + n <= mem.Length
    }

    /** Pack one jet of a disjunct. */
    method PackJetAt(p: Ptr, dir: nat, w: nat, ghost token: int) returns (ok: bool, head: Ptr)
      requires Valid() && dir < 2 && Extends(cfg, orig, numUc, length, Abs()) && ListOk(cfg, orig, numUc, length, p, w)
      requires Room(|ListAt(orig, p)|)
      modifies this, mem
      modifies if cfg.encode then {csid[dir], csid[dir].table} else {}
      ensures ok ==> Valid() && Abs() == PackSide(cfg, orig, numUc, length, old(Abs()), dir, p, w, token)
      ensures ok ==> head == Abs().jets[|old(jets)|].root && Extends(cfg, orig, numUc, length, Abs())
      ensures ok && cfg.encode ==> csid[dir].table == old(csid[dir].table) || fresh(csid[dir].table)
      ensures ok ==> cblock <= old(cblock) + |ListAt(orig, p)|
      ensures !ok ==> cfg.encode && csid[dir].Failed()
      ensures old(Roomy()) ==> ok && Roomy()
    {
      hide Sound, TableOk, Roomy;
      ghost var cs := ListAt(orig, p);
      SpellFrame(orig, Abs().mem, cs);
      ChainFrame(orig, Abs().mem, p, cs);
      assert Ready(cfg, Abs(), dir, cs, w);
      ok, head := PackConnectors(p, dir, w, cs, token);
    }

    /** A new token empties both tables; their size stays. */
    method EnterToken(token: int)
      requires Valid() && cfg.encode
      modifies this`lastToken, csid, Tables()
      ensures Valid() && Abs() == Enter(cfg, old(Abs()), token)
      ensures old(Roomy()) ==> Roomy()
      ensures Tables() == old(Tables())
    {
      hide TableInv, Represents, Occupied;
      EnterSound(cfg, Abs(), token);
      if token != lastToken {
        lastToken := token;
        csid[0].Reset();
        csid[1].Reset();
      }
    }

    /** The tables are those of the start of the call, or newer ones. */
    twostate predicate TablesKept()
      reads csid
    {
      forall o :: o in Tables() ==> o in old(Tables()) || fresh(o)
    }

    ghost predicate AnyFailed()
      reads csid, Tables()
    {
      |csid| == 2 && (csid[0].Failed() || csid[1].Failed())
    }

    /** A table is full at the largest size, or has the fifth or the sixth. */
    ghost predicate AtOpenSize()
      reads csid, Tables()
    {
      exists t :: t in csid && (t.UsedUp() || t.primeIdx == 4 || t.primeIdx == 5)
    }

    lemma FailedSizes()
      requires AnyFailed()
      ensures AtOpenSize()
    {
      var t := if csid[0].Failed() then csid[0] else csid[1];
      t.FailedSize();
      assert t in csid;
    }

    /** Pack both jets of a disjunct. */
    method PackJets(d: Disjunct, w: nat, ghost token: int) returns (ok: bool, left: Ptr, right: Ptr)
      requires Valid() && Extends(cfg, orig, numUc, length, Abs()) && ItemOk(cfg, orig, numUc, length, Item(w, d))
      requires Room(|ListAt(orig, d.left)| + |ListAt(orig, d.right)|)
      modifies this, mem, csid, Tables()
      ensures ok ==>
        && Valid()
        && var st1 := PackSide(cfg, orig, numUc, length, old(Abs()), 0, d.left, w, token);
           var st2 := PackSide(cfg, orig, numUc, length, st1, 1, d.right, w, token);
           var n := |st2.jets|;
           Abs() == st2 && left == st2.jets[n - 2].root && right == st2.jets[n - 1].root
      ensures ok ==> TablesKept() && cblock <= old(cblock) + |ListAt(orig, d.left)| + |ListAt(orig, d.right)|
      ensures !ok ==> cfg.encode && AnyFailed()
      ensures old(Roomy()) ==> ok && Roomy()
    {
      hide Sound, TableOk, Extends, ListOk, Roomy, TraconSet.Failed, TraconSet.Valid;
      right := Null;
      ok, left := PackJetAt(d.left, 0, w, token);
      if !ok { return; }
      assert TablesKept();
      ghost var st1 := Abs();
      ok, right := PackJetAt(d.right, 1, w, token);
      if !ok { return; }
      JetsStay(cfg, orig, numUc, length, st1, 1, d.right, w, token);
    }

    method AppendDisjunct(d: Disjunct)
      requires Valid()
      modifies this`dblock
      ensures Valid() && Abs() == old(Abs()).(dblock := old(dblock) + [d])
    {
      hide Sound;
      ghost var st := Abs();
      dblock := dblock + [d];
      AppendSound(cfg, st, Abs());
    }

    /** Pack a disjunct of word `w`. */
    method PackOne(d: Disjunct, w: nat) returns (ok: bool)
      requires Valid() && Extends(cfg, orig, numUc, length, Abs()) && ItemOk(cfg, orig, numUc, length, Item(w, d))
      requires Room(|ListAt(orig, d.left)| + |ListAt(orig, d.right)|)
      modifies this, mem, csid, Tables()
      ensures ok ==> Valid() && Abs() == PackDisjunct(cfg, orig, numUc, length, old(Abs()), Item(w, d))
      ensures ok ==> TablesKept() && cblock <= old(cblock) + |ListAt(orig, d.left)| + |ListAt(orig, d.right)|
      ensures !ok ==> cfg.encode && AnyFailed()
      ensures old(Roomy()) ==> ok && Roomy()
    {
      hide Sound, TableOk, PackSide, Extends, ItemOk, Roomy, AnyFailed, TraconSet.Valid;
      var token: int := if cfg.pruning then w else d.gword;
      EnterExtends(cfg, orig, numUc, length, Abs(), token);
      if cfg.encode { EnterToken(token); }
      var left, right;
      ok, left, right := PackJets(d, w, token);
      if !ok { return; }
      AppendDisjunct(d.(left := left, right := right));
    }
  }

  lemma StartSound(cfg: Config, orig: seq<Cell>, numUc: nat, length: nat)
    requires |orig| == cfg.base
    ensures Sound(cfg, Start(cfg, orig, numUc, length))
  {
  }

  lemma AppendSound(cfg: Config, st: State, st': State)
    requires Sound(cfg, st) && st' == st.(dblock := st'.dblock)
    ensures Sound(cfg, st')
  {
  }

  lemma JetsStay(cfg: Config, orig: seq<Cell>, numUc: nat, length: nat, st: State, dir: nat, p: Ptr, w: nat, token: int)
    requires Extends(cfg, orig, numUc, length, st) && dir < 2 && ListOk(cfg, orig, numUc, length, p, w)
    ensures PackSide(cfg, orig, numUc, length, st, dir, p, w, token).jets[..|st.jets|] == st.jets
  {
  }

  lemma EnterSound(cfg: Config, st: State, token: int)
    requires Sound(cfg, st)
    ensures Sound(cfg, Enter(cfg, st, token))
  {
  }

  lemma EnterExtends(cfg: Config, orig: seq<Cell>, numUc: nat, length: nat, st: State, token: int)
    requires Extends(cfg, orig, numUc, length, st)
    ensures |st.sides| == 2 && Extends(cfg, orig, numUc, length, Enter(cfg, st, token))
  {
  }

  lemma {:induction false} ChainFrame(mem: seq<Cell>, mem': seq<Cell>, p: Ptr, cs: seq<nat>)
    requires SameLinks(mem, mem') && Chain(mem, p, cs)
    ensures Chain(mem', p, cs)
    decreases |cs|
  {
    if cs != [] { ChainFrame(mem, mem', mem[cs[0]].next, cs[1..]); }
  }

  lemma MidNext(cfg: Config, m0: seq<Cell>, origc: Ptr, cs: seq<nat>, i: nat, id: nat)
    requires Chain(m0, origc, cs) && Below(cs, |m0|) && i < |cs|
    ensures Mid(cfg, m0, cs, i + 1, i + 1, id, OrigAt(cs, i + 1))[cs[i]].next == OrigAt(cs, i + 1)
  {
    hide Mid;
    ChainAt(m0, origc, cs, i);
    MidOld(cfg, m0, cs, i + 1, i + 1, id, OrigAt(cs, i + 1), cs[i]);
  }

  lemma TailIs(cfg: Config, m0: seq<Cell>, tracons: map<Key, Ptr>, cs: seq<nat>, i: nat)
    requires Below(cs, |m0|) && i <= |cs| && Copied(cfg, m0, tracons, cs, 0) == i
    ensures Tail(cfg, m0, tracons, cs) == if i < |cs| then tracons[KeyAt(cfg, m0, cs, i)] else Null
  {
  }

  lemma LookedShared(cfg: Config, m0: seq<Cell>, side0: Side, cs: seq<nat>, w: nat, i: nat)
    requires Below(cs, |m0|) && i < |cs| && cfg.base <= |m0| && Sharable(cfg, m0, side0.tracons, cs, i)
    requires cfg.pruning ==> UcFits(side0.uc, Spell(m0, cs), w)
    ensures Looked(cfg, m0, side0, cs, w, i) == SideAfter(cfg, m0, side0, cs, w, i)
  {
    hide Sharable, SideAfter;
  }

  lemma MidStart(cfg: Config, m0: seq<Cell>, side0: Side, origc: Ptr, cs: seq<nat>, w: nat)
    requires Below(cs, |m0|) && cfg.base <= |m0| && Chain(m0, origc, cs)
    requires cfg.pruning ==> UcFits(side0.uc, Spell(m0, cs), w)
    ensures Mid(cfg, m0, cs, 0, 0, side0.nextId, OrigAt(cs, 0)) == m0
    ensures SideAfter(cfg, m0, side0, cs, w, 0) == side0
    ensures OrigAt(cs, 0) == origc
  {
    TouchedNothing(m0);
    assert Spell(m0, cs)[..0] == [];
    assert Mid(cfg, m0, cs, 0, 0, side0.nextId, OrigAt(cs, 0)) == Touched(m0, cs, 0, []);
    forall a: nat | a < |m0|
      ensures Touched(m0, cs, 0, [])[a] == m0[a]
    {
    }
  }

  lemma TouchedNothing(m: seq<Cell>)
    ensures Touched(m, [], 0, []) == m
  {
  }

  lemma TouchedPrefix(m: seq<Cell>, n: nat, path: seq<nat>)
    requires n <= |m|
    ensures Touched(m, [], 0, path)[..n] == Touched(m[..n], [], 0, path)
  {
  }

  /** What copying the next connector writes. */
  lemma CopiedConnector(cfg: Config, m0: seq<Cell>, origc: Ptr, cs: seq<nat>, i: nat, id: nat)
    requires Chain(m0, origc, cs) && Below(cs, |m0|) && i < |cs|
    ensures var o := TouchedCell(m0[cs[i]], cs[i], cs, i + 1, []);
            o.con == m0[cs[i]].con
            && forall id: nat :: CopyCell(cfg, o, o.shallow, o.next, id)
                 == CopyCell(cfg, m0[cs[i]], i == 0, OrigAt(cs, i + 1), id)
  {
    ChainAt(m0, origc, cs, i);
    assert cs[i] in cs[..i + 1] by { assert cs[..i + 1][i] == cs[i]; }
    HeadOnlyFirst(m0, origc, cs, i);
    ChainAt(m0, origc, cs, 0);
  }

  lemma LinkedCopy(cfg: Config, m0: seq<Cell>, cs: seq<nat>, i: nat, id: nat, newId: nat)
    requires Below(cs, |m0|) && i < |cs| && (!cfg.pruning ==> newId == id + i)
    ensures var c := CopyCell(cfg, m0[cs[i]], i == 0, OrigAt(cs, i + 1), newId);
            var mid := Mid(cfg, m0, cs, i, i + 1, id, OrigAt(cs, i));
            LinkLast(mid, |m0|, i, At(|m0| + i)) + [c] == Mid(cfg, m0, cs, i + 1, i + 1, id, OrigAt(cs, i + 1))
  {
    hide Mid;
    MidRelink(cfg, m0, cs, i, i + 1, id, OrigAt(cs, i), At(|m0| + i));
    MidCopy(cfg, m0, cs, i, i + 1, id, OrigAt(cs, i + 1));
  }

  /** What copying the next connector does to the side. */
  lemma LookedToNext(cfg: Config, m0: seq<Cell>, side0: Side, cs: seq<nat>, w: nat, i: nat)
    requires Below(cs, |m0|) && i < |cs| && cfg.base <= |m0| && !Sharable(cfg, m0, side0.tracons, cs, i)
    requires cfg.pruning ==> UcFits(side0.uc, Spell(m0, cs), w)
    ensures var s := Looked(cfg, m0, side0, cs, w, i);
            var u := m0[cs[i]].con.desc.ucNum;
            && (cfg.pruning ==> u < |s.uc.seen| && w < |s.uc.count|)
            && SideAfter(cfg, m0, side0, cs, w, i + 1)
                 == s.(nextId := s.nextId + if cfg.pruning then 0 else 1,
                       uc := if cfg.pruning then Stamp(s.uc, u, w) else s.uc)
            && (!cfg.pruning ==> s.nextId == side0.nextId + i)
  {
    hide Sharable, KeyAt, Stamp, Run;
    var s := Spell(m0, cs);
    assert s[..i + 1][..i] == s[..i];
  }

  /** The shared tracon, seen half-way. */
  lemma SharedTail(cfg: Config, m0: seq<Cell>, mem: seq<Cell>, side0: Side, cs: seq<nat>, i: nat)
    requires Below(cs, cfg.base) && cfg.base <= |m0| && i < |cs| && TraconsOk(cfg, m0, side0.tracons)
    requires Mid(cfg, m0, cs, i, i + 1, side0.nextId, OrigAt(cs, i)) <= mem
    requires Copied(cfg, m0, side0.tracons, cs, 0) == i
    ensures var tail, s := Tail(cfg, m0, side0.tracons, cs), KeyAt(cfg, m0, cs, i).spell;
            var path := Counted(cfg, m0, side0.tracons, cs);
            && Spells(mem, tail, s)
            && Below(path, |m0|)
            && (if cfg.pruning then path == Follow(mem, tail, |s|) else path == [])
  {
    hide Mid;
    var tail, s := Tail(cfg, m0, side0.tracons, cs), KeyAt(cfg, m0, cs, i).spell;
    MidLinks(cfg, m0, cs, i, i + 1, side0.nextId, OrigAt(cs, i));
    SpellsFrame(m0, mem, tail, s);
    FollowFrame(m0, mem, tail, s);
    forall j: nat | j < |Follow(m0, tail, |s|)|
      ensures Follow(m0, tail, |s|)[j] < |m0|
    {
      FollowLength(m0, tail, s);
      FollowAt(m0, tail, s, j);
    }
  }

  /** One more cell of the path has been counted. */
  lemma BumpNext(m: seq<Cell>, p: Ptr, s: seq<Con>, i: nat)
    requires Spells(m, p, s) && i < |s|
    ensures var path := Follow(m, p, |s|);
            && |path| == |s| && path[i] < |m|
            && var t := Touched(m, [], 0, path[..i]);
               t[path[i] := t[path[i]].(refcount := t[path[i]].refcount + 1)] == Touched(m, [], 0, path[..i + 1])
               && t[path[i]].next == m[path[i]].next
               && Spells(m, m[path[i]].next, s[i + 1..])
               && (i + 1 < |s| ==> m[path[i]].next == At(path[i + 1]))
  {
    var path := Follow(m, p, |s|);
    FollowAt(m, p, s, i);
    var a := path[i];
    forall j: nat | j < i
      ensures path[j] != a
    {
      if path[j] == a { FollowDistinct(m, p, s, i, j); }
    }
    assert path[..i + 1] == path[..i] + [a];
    forall b: nat | b < |m|
      ensures TouchedCell(m[b], b, [], 0, path[..i + 1]) ==
              if b == a then TouchedCell(m[b], b, [], 0, path[..i]).(refcount := m[b].refcount + 1)
              else TouchedCell(m[b], b, [], 0, path[..i])
    {
    }
    assert s[i..][1..] == s[i + 1..];
    FollowNext(m, p, s, i);
  }

  lemma {:induction false} FollowNext(m: seq<Cell>, p: Ptr, s: seq<Con>, i: nat)
    requires Spells(m, p, s) && i < |s|
    ensures var path := Follow(m, p, |s|);
            |path| == |s| && path[i] < |m| && (i + 1 < |s| ==> m[path[i]].next == At(path[i + 1]))
    decreases i
  {
    FollowLength(m, p, s);
    if i > 0 { FollowNext(m, m[p.addr].next, s[1..], i - 1); }
  }
}
