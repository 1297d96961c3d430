/** The memory while a jet is being packed: the first connectors are copied and
    linked, the last copy still points at the next original connector, and the
    tracon table already points at all copies. */
module PackingMidway {
  import opened Connectors
  import opened TraconSets
  import opened PackingSpec
  import opened PackingMeaning

  /** `i` connectors copied, `marks` originals marked; the last copy points to
      `tail`. */
  ghost function Mid(cfg: Config, mem: seq<Cell>, cs: seq<nat>, i: nat, marks: nat, id: nat, tail: Ptr): (mem': seq<Cell>)
    requires Below(cs, |mem|) && i <= |cs| && marks <= |cs|
    ensures |mem'| == |mem| + i
  {
    Touched(mem, cs, marks, []) + Copies(cfg, mem, cs, i, id, tail)
  }

  /** The `i`th original connector of the list, or NULL at its end. */
  ghost function OrigAt(cs: seq<nat>, i: nat): Ptr {
    if i < |cs| then At(cs[i]) else Null
  }

  lemma {:induction false} ChainAt(mem: seq<Cell>, p: Ptr, cs: seq<nat>, i: nat)
    requires Chain(mem, p, cs) && i <= |cs|
    ensures Chain(mem, OrigAt(cs, i), cs[i..])
    ensures i < |cs| ==> cs[i] < |mem| && mem[cs[i]].next == OrigAt(cs, i + 1)
    decreases i
  {
    if i == 0 {
      assert cs[0..] == cs;
    } else {
      ChainAt(mem, mem[cs[0]].next, cs[1..], i - 1);
      assert cs[1..][i - 1..] == cs[i..];
      assert OrigAt(cs, i) == OrigAt(cs[1..], i - 1) && OrigAt(cs, i + 1) == OrigAt(cs[1..], i);
    }
  }

  /** A chain visits no cell twice. */
  lemma ChainDistinct(mem: seq<Cell>, p: Ptr, cs: seq<nat>, i: nat, j: nat)
    requires Chain(mem, p, cs) && Below(cs, |mem|) && i < |cs| && j < |cs| && cs[i] == cs[j]
    ensures i == j
  {
    ChainAt(mem, p, cs, i);
    ChainAt(mem, p, cs, j);
    ChainBelow(mem, At(cs[i]), cs[i..]);
    ChainBelow(mem, At(cs[j]), cs[j..]);
    ChainSpells(mem, At(cs[i]), cs[i..]);
    ChainSpells(mem, At(cs[j]), cs[j..]);
    SpellsUnique(mem, At(cs[i]), Spell(mem, cs[i..]), Spell(mem, cs[j..]));
  }

  lemma TouchedAt(mem: seq<Cell>, cs: seq<nat>, i: nat, path: seq<nat>, a: nat)
    requires i <= |cs| && a < |mem|
    ensures Touched(mem, cs, i, path)[a] == TouchedCell(mem[a], a, cs, i, path)
  {
  }

  lemma CopiesAt(cfg: Config, mem: seq<Cell>, cs: seq<nat>, i: nat, id: nat, tail: Ptr, k: nat)
    requires Below(cs, |mem|) && k < i <= |cs|
    ensures Copies(cfg, mem, cs, i, id, tail)[k]
         == CopyCell(cfg, mem[cs[k]], k == 0, if k + 1 < i then At(|mem| + k + 1) else tail, id + k)
  {
  }

  lemma MidLinks(cfg: Config, mem: seq<Cell>, cs: seq<nat>, i: nat, marks: nat, id: nat, tail: Ptr)
    requires Below(cs, |mem|) && i <= |cs| && marks <= |cs|
    ensures SameLinks(mem, Mid(cfg, mem, cs, i, marks, id, tail))
  {
    hide Copies;
    var mem' := Mid(cfg, mem, cs, i, marks, id, tail);
    forall a: nat | a < |mem|
      ensures mem'[a].con == mem[a].con && mem'[a].next == mem[a].next
    {
      TouchedAt(mem, cs, marks, [], a);
    }
  }

  lemma MidNew(cfg: Config, mem: seq<Cell>, cs: seq<nat>, i: nat, marks: nat, id: nat, tail: Ptr, k: nat)
    requires Below(cs, |mem|) && k < i <= |cs| && marks <= |cs|
    ensures Mid(cfg, mem, cs, i, marks, id, tail)[|mem| + k]
         == CopyCell(cfg, mem[cs[k]], k == 0, if k + 1 < i then At(|mem| + k + 1) else tail, id + k)
  {
    hide Touched, Copies;
    CopiesAt(cfg, mem, cs, i, id, tail, k);
  }

  lemma MidOld(cfg: Config, mem: seq<Cell>, cs: seq<nat>, i: nat, marks: nat, id: nat, tail: Ptr, a: nat)
    requires Below(cs, |mem|) && i <= |cs| && marks <= |cs| && a < |mem|
    ensures Mid(cfg, mem, cs, i, marks, id, tail)[a] == TouchedCell(mem[a], a, cs, marks, [])
  {
    hide Touched, Copies, TouchedCell;
    TouchedAt(mem, cs, marks, [], a);
  }

  /** Half-built as it is, the copy of the `k`th connector spells the jet from
      there on. */
  lemma {:induction false} MidSpells(cfg: Config, mem: seq<Cell>, p: Ptr, cs: seq<nat>, i: nat, marks: nat, id: nat, k: nat)
    requires Chain(mem, p, cs) && Below(cs, |mem|) && k <= i <= |cs| && marks <= |cs|
    ensures var mem' := Mid(cfg, mem, cs, i, marks, id, OrigAt(cs, i));
            Spells(mem', if k < i then At(|mem| + k) else OrigAt(cs, i), Spell(mem, cs)[k..])
    decreases i - k
  {
    hide Mid;
    var mem' := Mid(cfg, mem, cs, i, marks, id, OrigAt(cs, i));
    if k == i {
      ChainAt(mem, p, cs, i);
      ChainBelow(mem, OrigAt(cs, i), cs[i..]);
      ChainSpells(mem, OrigAt(cs, i), cs[i..]);
      assert Spell(mem, cs[i..]) == Spell(mem, cs)[i..];
      MidLinks(cfg, mem, cs, i, marks, id, OrigAt(cs, i));
      SpellsFrame(mem, mem', OrigAt(cs, i), Spell(mem, cs)[i..]);
    } else {
      MidSpells(cfg, mem, p, cs, i, marks, id, k + 1);
      MidNew(cfg, mem, cs, i, marks, id, OrigAt(cs, i), k);
      assert Spell(mem, cs)[k..][1..] == Spell(mem, cs)[k + 1..];
    }
  }

  /** At every moment each slot of the table spells its key. */
  lemma {:induction false} MidTraconsOk(cfg: Config, mem: seq<Cell>, tracons: map<Key, Ptr>, p: Ptr, cs: seq<nat>,
                                        i: nat, marks: nat, id: nat, j: nat)
    requires Chain(mem, p, cs) && Below(cs, cfg.base) && cfg.base <= |mem| && j <= i <= |cs| && marks <= |cs|
    requires TraconsOk(cfg, mem, tracons)
    ensures TraconsOk(cfg, Mid(cfg, mem, cs, i, marks, id, OrigAt(cs, i)), Inserted(cfg, mem, tracons, cs, j))
  {
    hide Mid, CellFor, KeyAt;
    if j == 0 || !cfg.encode {
      MidOldTracons(cfg, mem, tracons, cs, i, marks, id);
    } else {
      MidTraconsOk(cfg, mem, tracons, p, cs, i, marks, id, j - 1);
      MidNewTracon(cfg, mem, p, cs, i, marks, id, j - 1);
    }
  }

  lemma MidOldTracons(cfg: Config, mem: seq<Cell>, tracons: map<Key, Ptr>, cs: seq<nat>, i: nat, marks: nat, id: nat)
    requires Below(cs, cfg.base) && cfg.base <= |mem| && i <= |cs| && marks <= |cs|
    requires TraconsOk(cfg, mem, tracons)
    ensures TraconsOk(cfg, Mid(cfg, mem, cs, i, marks, id, OrigAt(cs, i)), tracons)
  {
    hide Mid;
    var mem' := Mid(cfg, mem, cs, i, marks, id, OrigAt(cs, i));
    MidLinks(cfg, mem, cs, i, marks, id, OrigAt(cs, i));
    forall k | k in tracons
      ensures CellFor(mem', tracons[k], k, cfg.pruning)
    {
      SpellsFrame(mem, mem', tracons[k], k.spell);
      MidOld(cfg, mem, cs, i, marks, id, OrigAt(cs, i), tracons[k].addr);
    }
  }

  lemma MidNewTracon(cfg: Config, mem: seq<Cell>, p: Ptr, cs: seq<nat>, i: nat, marks: nat, id: nat, j: nat)
    requires Chain(mem, p, cs) && Below(cs, |mem|) && j < i <= |cs| && marks <= |cs|
    ensures CellFor(Mid(cfg, mem, cs, i, marks, id, OrigAt(cs, i)), At(|mem| + j), KeyAt(cfg, mem, cs, j), cfg.pruning)
  {
    hide Mid;
    MidSpells(cfg, mem, p, cs, i, marks, id, j);
    MidNew(cfg, mem, cs, i, marks, id, OrigAt(cs, i), j);
  }

  /** A key added by this jet is longer than what remains of it, so the search
      for the remaining sequence finds old tracons only. */
  lemma {:induction false} OldKeysOnly(cfg: Config, mem: seq<Cell>, tracons: map<Key, Ptr>, cs: seq<nat>, i: nat, j: nat)
    requires Below(cs, |mem|) && j <= i < |cs|
    ensures var k := KeyAt(cfg, mem, cs, i);
            var t := Inserted(cfg, mem, tracons, cs, j);
            (k in t <==> k in tracons) && (k in t ==> t[k] == tracons[k])
  {
    if j > 0 && cfg.encode {
      OldKeysOnly(cfg, mem, tracons, cs, i, j - 1);
      assert |KeyAt(cfg, mem, cs, j - 1).spell| == |cs| - j + 1;
      assert |KeyAt(cfg, mem, cs, i).spell| == |cs| - i;
    }
  }

  // ---------- The steps ----------

  /** Marking the next original connector. */
  lemma MidMark(cfg: Config, mem: seq<Cell>, p: Ptr, cs: seq<nat>, i: nat, id: nat, tail: Ptr)
    requires Chain(mem, p, cs) && Below(cs, |mem|) && i < |cs|
    ensures var m := Mid(cfg, mem, cs, i, i, id, tail);
            m[cs[i] := m[cs[i]].(shallow := i == 0)] == Mid(cfg, mem, cs, i, i + 1, id, tail)
  {
    hide Copies, Touched;
    var t, t' := Touched(mem, cs, i, []), Touched(mem, cs, i + 1, []);
    var c := t[cs[i]].(shallow := i == 0);
    if cs[i] == cs[0] { ChainDistinct(mem, p, cs, i, 0); }
    forall a: nat | a < |mem|
      ensures t[cs[i] := c][a] == t'[a]
    {
      TouchedAt(mem, cs, i, [], a);
      TouchedAt(mem, cs, i + 1, [], a);
      assert cs[..i + 1] == cs[..i] + [cs[i]];
    }
    assert t[cs[i] := c] == t';
  }

  /** Linking the last copy, if there is one, to `q`. */
  ghost function LinkLast(mem: seq<Cell>, n: nat, i: nat, q: Ptr): (mem': seq<Cell>)
    requires i == 0 || n + i - 1 < |mem|
    ensures |mem'| == |mem|
  {
    if i == 0 then mem else mem[n + i - 1 := mem[n + i - 1].(next := q)]
  }

  lemma MidRelink(cfg: Config, mem: seq<Cell>, cs: seq<nat>, i: nat, marks: nat, id: nat, tail: Ptr, q: Ptr)
    requires Below(cs, |mem|) && i <= |cs| && marks <= |cs|
    ensures LinkLast(Mid(cfg, mem, cs, i, marks, id, tail), |mem|, i, q) == Mid(cfg, mem, cs, i, marks, id, q)
  {
    hide Copies, Touched;
    var s, s' := Copies(cfg, mem, cs, i, id, tail), Copies(cfg, mem, cs, i, id, q);
    forall k: nat | k < i
      ensures s'[k] == if k == i - 1 then s[k].(next := q) else s[k]
    {
      CopiesAt(cfg, mem, cs, i, id, tail, k);
      CopiesAt(cfg, mem, cs, i, id, q, k);
    }
    assert i > 0 ==> s' == s[i - 1 := s[i - 1].(next := q)];
  }

  /** Copying the next connector and linking to it. */
  lemma MidCopy(cfg: Config, mem: seq<Cell>, cs: seq<nat>, i: nat, marks: nat, id: nat, tail: Ptr)
    requires Below(cs, |mem|) && i < |cs| && marks <= |cs|
    ensures Mid(cfg, mem, cs, i, marks, id, At(|mem| + i)) + [CopyCell(cfg, mem[cs[i]], i == 0, tail, id + i)]
         == Mid(cfg, mem, cs, i + 1, marks, id, tail)
  {
    hide Copies, Touched;
    var c := CopyCell(cfg, mem[cs[i]], i == 0, tail, id + i);
    var s, s' := Copies(cfg, mem, cs, i, id, At(|mem| + i)), Copies(cfg, mem, cs, i + 1, id, tail);
    forall k: nat | k < i + 1
      ensures s'[k] == if k == i then c else s[k]
    {
      if k < i { CopiesAt(cfg, mem, cs, i, id, At(|mem| + i), k); }
      CopiesAt(cfg, mem, cs, i + 1, id, tail, k);
    }
    assert s' == s + [c];
  }

  /** When nothing was shared, the memory is the packed jet's. */
  lemma MidEnd(cfg: Config, mem: seq<Cell>, side: Side, cs: seq<nat>)
    requires Below(cs, |mem|) && Copied(cfg, mem, side.tracons, cs, 0) == |cs|
    ensures Mid(cfg, mem, cs, |cs|, |cs|, side.nextId, Null) == JetMem(cfg, mem, side, cs)
  {
    hide Copies, Touched, KeyAt, Sharable;
  }

  /** When the rest is shared, the shared cells are counted once more. */
  lemma MidShare(cfg: Config, mem: seq<Cell>, side: Side, cs: seq<nat>, i: nat, path: seq<nat>)
    requires Below(cs, |mem|) && Copied(cfg, mem, side.tracons, cs, 0) == i < |cs|
    requires path == Counted(cfg, mem, side.tracons, cs) && Below(path, |mem|)
    ensures Touched(Mid(cfg, mem, cs, i, i + 1, side.nextId, Tail(cfg, mem, side.tracons, cs)), [], 0, path)
         == JetMem(cfg, mem, side, cs)
  {
    hide Copies, Touched, KeyAt, Sharable, Counted, MarkCount, Mid, JetMem, Tail;
    var q := Tail(cfg, mem, side.tracons, cs);
    var m := Mid(cfg, mem, cs, i, i + 1, side.nextId, q);
    var t := Touched(m, [], 0, path);
    assert MarkCount(cfg, mem, side.tracons, cs) == i + 1 by { MarkCountIs(cfg, mem, side.tracons, cs); }
    forall a: nat | a < |m|
      ensures t[a] == JetMem(cfg, mem, side, cs)[a]
    {
      TouchedAt(m, [], 0, path, a);
      if a < |mem| {
        MidOld(cfg, mem, cs, i, i + 1, side.nextId, q, a);
        JetMemOld(cfg, mem, side, cs, a);
      } else {
        MidNew(cfg, mem, cs, i, i + 1, side.nextId, q, a - |mem|);
        JetMemNew(cfg, mem, side, cs, a - |mem|);
      }
    }
  }

  lemma MarkCountIs(cfg: Config, mem: seq<Cell>, tracons: map<Key, Ptr>, cs: seq<nat>)
    requires Below(cs, |mem|)
    ensures var m := Copied(cfg, mem, tracons, cs, 0);
            MarkCount(cfg, mem, tracons, cs) == if m < |cs| then m + 1 else m
  {
  }

  /** The first connector that can be shared ends the copying. */
  lemma {:induction false} CopiedIs(cfg: Config, mem: seq<Cell>, tracons: map<Key, Ptr>, cs: seq<nat>, i: nat)
    requires Below(cs, |mem|) && i <= |cs|
    requires forall j: nat :: j < i ==> !Sharable(cfg, mem, tracons, cs, j)
    requires i == |cs| || Sharable(cfg, mem, tracons, cs, i)
    ensures Copied(cfg, mem, tracons, cs, 0) == i
  {
    hide Sharable;
  }

  /** Counting references and linking touch different fields. */
  lemma LinkAfterCount(m: seq<Cell>, n: nat, i: nat, q: Ptr, path: seq<nat>)
    requires i == 0 || n + i - 1 < |m|
    ensures LinkLast(Touched(m, [], 0, path), n, i, q) == Touched(LinkLast(m, n, i, q), [], 0, path)
  {
    hide Touched;
    var t, t' := LinkLast(Touched(m, [], 0, path), n, i, q), Touched(LinkLast(m, n, i, q), [], 0, path);
    forall a: nat | a < |m|
      ensures t[a] == t'[a]
    {
      TouchedAt(m, [], 0, path, a);
      TouchedAt(LinkLast(m, n, i, q), [], 0, path, a);
    }
  }

  /** The bounds of old cells are the same half-way. */
  lemma MidBounds(cfg: Config, mem: seq<Cell>, mem': seq<Cell>, cs: seq<nat>, i: nat, marks: nat, id: nat, tail: Ptr,
                  p: Ptr, q: Ptr)
    requires Below(cs, |mem|) && i <= |cs| && marks <= |cs|
    requires Mid(cfg, mem, cs, i, marks, id, tail) <= mem'
    requires p.At? && p.addr < |mem| && q.At? && q.addr < |mem|
    ensures SameBounds(mem', p, q) == SameBounds(mem, p, q)
  {
    hide Mid;
    MidOld(cfg, mem, cs, i, marks, id, tail, p.addr);
    MidOld(cfg, mem, cs, i, marks, id, tail, q.addr);
  }

  /** The next original connector is a cell for the next key. */
  lemma MidCell(cfg: Config, mem: seq<Cell>, p: Ptr, cs: seq<nat>, i: nat, id: nat)
    requires Chain(mem, p, cs) && Below(cs, |mem|) && i < |cs|
    ensures CellFor(Mid(cfg, mem, cs, i, i + 1, id, OrigAt(cs, i)), At(cs[i]), KeyAt(cfg, mem, cs, i), cfg.pruning)
  {
    hide Mid;
    MidSpells(cfg, mem, p, cs, i, i + 1, id, i);
    MidOld(cfg, mem, cs, i, i + 1, id, OrigAt(cs, i), cs[i]);
    assert cs[i] in cs[..i + 1] by { assert cs[..i + 1][i] == cs[i]; }
    if cs[i] == cs[0] { ChainDistinct(mem, p, cs, i, 0); }
  }

  lemma CellForInWhole(mem: seq<Cell>, mem': seq<Cell>, p: Ptr, k: Key, shallowMode: bool)
    requires mem <= mem' && CellFor(mem, p, k, shallowMode)
    ensures CellFor(mem', p, k, shallowMode)
  {
    SpellsFrame(mem, mem', p, k.spell);
  }
}
