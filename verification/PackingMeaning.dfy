/** Packing keeps what every list spells: the jets of the packed sentence are
    the jets of the original one, however much memory they share. */
module PackingMeaning {
  import opened Connectors
  import opened TraconSets
  import opened PackingSpec

  // ---------- Paths ----------

  /** The packed block never points back to the originals. */
  ghost predicate Closed(mem: seq<Cell>, base: nat) {
    forall a: nat :: base <= a < |mem| && mem[a].next.At? ==> base <= mem[a].next.addr
  }

  lemma {:induction false} FollowAt(mem: seq<Cell>, p: Ptr, s: seq<Con>, i: nat)
    requires Spells(mem, p, s) && i < |s|
    ensures |Follow(mem, p, |s|)| == |s|
    ensures var a := Follow(mem, p, |s|)[i];
            a < |mem| && mem[a].con == s[i] && Spells(mem, At(a), s[i..])
    decreases |s|
  {
    FollowLength(mem, p, s);
    if i == 0 {
      assert s[0..] == s;
    } else {
      FollowAt(mem, mem[p.addr].next, s[1..], i - 1);
      assert s[1..][i - 1..] == s[i..];
    }
  }

  lemma {:induction false} FollowLength(mem: seq<Cell>, p: Ptr, s: seq<Con>)
    requires Spells(mem, p, s)
    ensures |Follow(mem, p, |s|)| == |s|
    decreases |s|
  {
    if s != [] { FollowLength(mem, mem[p.addr].next, s[1..]); }
  }

  lemma {:induction false} FollowFrame(mem: seq<Cell>, mem': seq<Cell>, p: Ptr, s: seq<Con>)
    requires SameLinks(mem, mem') && Spells(mem, p, s)
    ensures Follow(mem', p, |s|) == Follow(mem, p, |s|)
    decreases |s|
  {
    if s != [] { FollowFrame(mem, mem', mem[p.addr].next, s[1..]); }
  }

  lemma {:induction false} FollowAbove(mem: seq<Cell>, base: nat, p: Ptr, s: seq<Con>, i: nat)
    requires Closed(mem, base) && Spells(mem, p, s) && (p.At? ==> base <= p.addr) && i < |s|
    ensures |Follow(mem, p, |s|)| == |s| && base <= Follow(mem, p, |s|)[i] < |mem|
    decreases |s|
  {
    FollowLength(mem, p, s);
    if i > 0 { FollowAbove(mem, base, mem[p.addr].next, s[1..], i - 1); }
  }

  /** A list visits no cell twice. */
  lemma FollowDistinct(mem: seq<Cell>, p: Ptr, s: seq<Con>, i: nat, j: nat)
    requires Spells(mem, p, s) && i < |s| && j < |s|
    requires |Follow(mem, p, |s|)| == |s| && Follow(mem, p, |s|)[i] == Follow(mem, p, |s|)[j]
    ensures i == j
  {
    FollowAt(mem, p, s, i);
    FollowAt(mem, p, s, j);
    SpellsUnique(mem, At(Follow(mem, p, |s|)[i]), s[i..], s[j..]);
  }

  lemma {:induction false} ChainSpells(mem: seq<Cell>, p: Ptr, cs: seq<nat>)
    requires Chain(mem, p, cs) && Below(cs, |mem|)
    ensures Spells(mem, p, Spell(mem, cs))
    decreases |cs|
  {
    if cs != [] {
      ChainBelow(mem, mem[cs[0]].next, cs[1..]);
      ChainSpells(mem, mem[cs[0]].next, cs[1..]);
      assert Spell(mem, cs)[1..] == Spell(mem, cs[1..]);
    }
  }

  // ---------- The tracon table and the jets ----------

  /** Every tracon in the table is a packed chain that spells its key. */
  ghost predicate TraconsOk(cfg: Config, mem: seq<Cell>, tracons: map<Key, Ptr>) {
    forall k :: k in tracons ==> CellFor(mem, tracons[k], k, cfg.pruning) && cfg.base <= tracons[k].addr
  }

  ghost predicate JetOk(cfg: Config, mem: seq<Cell>, j: Jet) {
    Spells(mem, j.root, j.spell) && (j.root.At? ==> cfg.base <= j.root.addr)
  }

  ghost predicate Sound(cfg: Config, st: State) {
    && |st.sides| == 2
    && cfg.base <= |st.mem|
    && |st.home| == |st.mem| - cfg.base
    && Closed(st.mem, cfg.base)
    && (forall d: nat :: d < 2 ==> TraconsOk(cfg, st.mem, st.sides[d].tracons))
    && (forall i: nat :: i < |st.jets| ==> JetOk(cfg, st.mem, st.jets[i]))
  }

  /** A jet that may be packed next: its cells are originals. */
  ghost predicate Ready(cfg: Config, st: State, dir: nat, cs: seq<nat>, w: nat) {
    JetFits(cfg, st, dir, cs, w) && Below(cs, cfg.base) && Sound(cfg, st)
  }

  /** The number of connectors copied for the next jet. */
  ghost function CopiedIn(cfg: Config, st: State, dir: nat, cs: seq<nat>): (m: nat)
    requires Below(cs, |st.mem|) && dir < |st.sides|
    ensures m <= |cs|
  {
    Copied(cfg, st.mem, st.sides[dir].tracons, cs, 0)
  }

  /** The shared cells of the next jet. */
  ghost function SharedPath(cfg: Config, st: State, dir: nat, cs: seq<nat>): seq<nat>
    requires Below(cs, |st.mem|) && dir < |st.sides|
  {
    Follow(st.mem, Tail(cfg, st.mem, st.sides[dir].tracons, cs), |cs| - CopiedIn(cfg, st, dir, cs))
  }

  lemma TailSpells(cfg: Config, st: State, dir: nat, cs: seq<nat>, w: nat)
    requires Ready(cfg, st, dir, cs, w)
    ensures var m := CopiedIn(cfg, st, dir, cs);
            var tail := Tail(cfg, st.mem, st.sides[dir].tracons, cs);
            Spells(st.mem, tail, Spell(st.mem, cs)[m..]) && (tail.At? ==> cfg.base <= tail.addr)
  {
  }

  lemma SharedPathAbove(cfg: Config, st: State, dir: nat, cs: seq<nat>, w: nat)
    requires Ready(cfg, st, dir, cs, w)
    ensures |SharedPath(cfg, st, dir, cs)| == |cs| - CopiedIn(cfg, st, dir, cs)
    ensures forall a :: a in SharedPath(cfg, st, dir, cs) ==> cfg.base <= a < |st.mem|
  {
    var m := CopiedIn(cfg, st, dir, cs);
    var tail := Tail(cfg, st.mem, st.sides[dir].tracons, cs);
    TailSpells(cfg, st, dir, cs, w);
    FollowLength(st.mem, tail, Spell(st.mem, cs)[m..]);
    forall i: nat | i < |cs| - m
      ensures cfg.base <= SharedPath(cfg, st, dir, cs)[i] < |st.mem|
    {
      FollowAbove(st.mem, cfg.base, tail, Spell(st.mem, cs)[m..], i);
    }
  }

  /** What packing a jet does to the cells that are already packed. */
  lemma OldCells(cfg: Config, st: State, dir: nat, cs: seq<nat>, w: nat, token: int, a: nat)
    requires JetFits(cfg, st, dir, cs, w) && Below(cs, cfg.base) && cfg.base <= a < |st.mem|
    ensures var bump := a in Counted(cfg, st.mem, st.sides[dir].tracons, cs);
            PackJet(cfg, st, dir, cs, w, token).mem[a]
              == st.mem[a].(refcount := st.mem[a].refcount + if bump then 1 else 0)
  {
    hide JetMem, SideAfter, JetRoot, MarkCount, Counted, Sharable, KeyAt, Tail;
    JetMemOld(cfg, st.mem, st.sides[dir], cs, a);
  }

  /** Where the jet continues at its `k`th connector. */
  ghost function PtrAt(cfg: Config, st: State, dir: nat, cs: seq<nat>, k: nat): Ptr
    requires Below(cs, |st.mem|) && dir < |st.sides|
  {
    if k < CopiedIn(cfg, st, dir, cs) then At(|st.mem| + k) else Tail(cfg, st.mem, st.sides[dir].tracons, cs)
  }

  /** The cells that are new. */
  lemma NewCells(cfg: Config, st: State, dir: nat, cs: seq<nat>, w: nat, token: int, k: nat)
    requires JetFits(cfg, st, dir, cs, w) && k < CopiedIn(cfg, st, dir, cs)
    ensures var m := CopiedIn(cfg, st, dir, cs);
            var mem' := PackJet(cfg, st, dir, cs, w, token).mem;
            |mem'| == |st.mem| + m
            && mem'[|st.mem| + k] == CopyCell(cfg, st.mem[cs[k]], k == 0,
                 PtrAt(cfg, st, dir, cs, k + 1), st.sides[dir].nextId + k)
  {
    hide JetMem, SideAfter, JetRoot;
    JetMemNew(cfg, st.mem, st.sides[dir], cs, k);
  }

  lemma {:induction false} SuffixSpells(cfg: Config, st: State, dir: nat, cs: seq<nat>, w: nat, token: int, k: nat)
    requires Ready(cfg, st, dir, cs, w) && k <= CopiedIn(cfg, st, dir, cs)
    ensures var mem' := PackJet(cfg, st, dir, cs, w, token).mem;
            Spells(mem', PtrAt(cfg, st, dir, cs, k), Spell(st.mem, cs)[k..])
    decreases CopiedIn(cfg, st, dir, cs) - k
  {
    hide JetMem, SideAfter, JetRoot;
    var mem' := PackJet(cfg, st, dir, cs, w, token).mem;
    var m := CopiedIn(cfg, st, dir, cs);
    var s := Spell(st.mem, cs);
    if k == m {
      TailSpells(cfg, st, dir, cs, w);
      JetKeepsLinks(cfg, st, dir, cs, w, token);
      SpellsFrame(st.mem, mem', PtrAt(cfg, st, dir, cs, m), s[m..]);
    } else {
      SuffixSpells(cfg, st, dir, cs, w, token, k + 1);
      NewCells(cfg, st, dir, cs, w, token, k);
      assert s[k..][1..] == s[k + 1..];
    }
  }

  /** The new jet spells what the original jet spelled. */
  lemma JetSpells(cfg: Config, st: State, dir: nat, cs: seq<nat>, w: nat, token: int)
    requires Ready(cfg, st, dir, cs, w)
    ensures var root := JetRoot(cfg, st.mem, st.sides[dir], cs);
            Spells(PackJet(cfg, st, dir, cs, w, token).mem, root, Spell(st.mem, cs))
            && (root.At? ==> cfg.base <= root.addr)
  {
    SuffixSpells(cfg, st, dir, cs, w, token, 0);
    TailSpells(cfg, st, dir, cs, w);
    assert Spell(st.mem, cs)[0..] == Spell(st.mem, cs);
  }

  /** Cells linked one after the other are followed one after the other. */
  ghost predicate Linked(mem: seq<Cell>, lo: nat, hi: nat, tail: Ptr)
    requires lo <= hi <= |mem|
  {
    forall a: nat :: lo <= a < hi ==> mem[a].next == if a + 1 < hi then At(a + 1) else tail
  }

  lemma {:induction false} RunPath(mem: seq<Cell>, lo: nat, m: nat, tail: Ptr, len: nat)
    requires m <= len && lo + m <= |mem| && Linked(mem, lo, lo + m, tail)
    ensures Follow(mem, if m > 0 then At(lo) else tail, len) == Run(lo, m) + Follow(mem, tail, len - m)
    decreases m
  {
    if m > 0 {
      RunPath(mem, lo + 1, m - 1, tail, len - 1);
      assert Run(lo, m) == [lo] + Run(lo + 1, m - 1);
    }
  }

  lemma SplicedPath(mem: seq<Cell>, mem': seq<Cell>, m: nat, tail: Ptr, t: seq<Con>, len: nat)
    requires SameLinks(mem, mem') && Spells(mem, tail, t) && len == m + |t|
    requires |mem| + m <= |mem'| && Linked(mem', |mem|, |mem| + m, tail)
    ensures Follow(mem', if m > 0 then At(|mem|) else tail, len) == Run(|mem|, m) + Follow(mem, tail, len - m)
  {
    RunPath(mem', |mem|, m, tail, len);
    FollowFrame(mem, mem', tail, t);
  }

  lemma NewCellsLinked(cfg: Config, st: State, dir: nat, cs: seq<nat>, w: nat, token: int)
    requires JetFits(cfg, st, dir, cs, w)
    ensures var mem' := PackJet(cfg, st, dir, cs, w, token).mem;
            |mem'| == |st.mem| + CopiedIn(cfg, st, dir, cs)
            && Linked(mem', |st.mem|, |mem'|, Tail(cfg, st.mem, st.sides[dir].tracons, cs))
  {
    hide JetMem, SideAfter, JetRoot, Sharable, KeyAt, Tail;
    var mem' := PackJet(cfg, st, dir, cs, w, token).mem;
    var m, tail := CopiedIn(cfg, st, dir, cs), Tail(cfg, st.mem, st.sides[dir].tracons, cs);
    forall a: nat | |st.mem| <= a < |st.mem| + m
      ensures mem'[a].next == if a + 1 < |st.mem| + m then At(a + 1) else tail
    {
      NewCells(cfg, st, dir, cs, w, token, a - |st.mem|);
    }
  }

  /** The new jet consists of the new cells followed by the shared ones. */
  lemma JetPath(cfg: Config, st: State, dir: nat, cs: seq<nat>, w: nat, token: int)
    requires Ready(cfg, st, dir, cs, w)
    ensures Follow(PackJet(cfg, st, dir, cs, w, token).mem, JetRoot(cfg, st.mem, st.sides[dir], cs), |cs|)
         == Run(|st.mem|, CopiedIn(cfg, st, dir, cs)) + SharedPath(cfg, st, dir, cs)
  {
    hide JetMem, SideAfter, Sharable, KeyAt, Tail, Run, Linked, SameLinks, Sound;
    var mem' := PackJet(cfg, st, dir, cs, w, token).mem;
    var m, tail := CopiedIn(cfg, st, dir, cs), Tail(cfg, st.mem, st.sides[dir].tracons, cs);
    TailSpells(cfg, st, dir, cs, w);
    JetKeepsLinks(cfg, st, dir, cs, w, token);
    NewCellsLinked(cfg, st, dir, cs, w, token);
    SplicedPath(st.mem, mem', m, tail, Spell(st.mem, cs)[m..], |cs|);
  }

  // ---------- Soundness is kept ----------

  /** The key of a copied connector leads to its copy. */
  lemma NewKeyOk(cfg: Config, st: State, dir: nat, cs: seq<nat>, w: nat, token: int, i: nat)
    requires Ready(cfg, st, dir, cs, w) && i < CopiedIn(cfg, st, dir, cs)
    ensures CellFor(PackJet(cfg, st, dir, cs, w, token).mem, At(|st.mem| + i), KeyAt(cfg, st.mem, cs, i), cfg.pruning)
  {
    hide JetMem, SideAfter, JetRoot, Sharable, Sound, Tail;
    SuffixSpells(cfg, st, dir, cs, w, token, i);
    NewCells(cfg, st, dir, cs, w, token, i);
  }

  /** The keys that the next jet adds lead to their own copies. */
  lemma {:induction false} InsertedOk(cfg: Config, st: State, dir: nat, cs: seq<nat>, w: nat, token: int, i: nat)
    requires Ready(cfg, st, dir, cs, w) && i <= CopiedIn(cfg, st, dir, cs)
    ensures TraconsOk(cfg, PackJet(cfg, st, dir, cs, w, token).mem,
                      Inserted(cfg, st.mem, st.sides[dir].tracons, cs, i))
  {
    hide JetMem, SideAfter, JetRoot, KeyAt, Sharable, CellFor;
    if i == 0 || !cfg.encode {
      TraconsFrame(cfg, st, dir, cs, w, token, st.sides[dir].tracons);
    } else {
      InsertedOk(cfg, st, dir, cs, w, token, i - 1);
      NewKeyOk(cfg, st, dir, cs, w, token, i - 1);
    }
  }

  lemma TraconsFrame(cfg: Config, st: State, dir: nat, cs: seq<nat>, w: nat, token: int, tracons: map<Key, Ptr>)
    requires Ready(cfg, st, dir, cs, w) && TraconsOk(cfg, st.mem, tracons)
    ensures TraconsOk(cfg, PackJet(cfg, st, dir, cs, w, token).mem, tracons)
  {
    hide JetMem, SideAfter, JetRoot;
    var mem' := PackJet(cfg, st, dir, cs, w, token).mem;
    JetKeepsLinks(cfg, st, dir, cs, w, token);
    forall k | k in tracons
      ensures CellFor(mem', tracons[k], k, cfg.pruning)
    {
      SpellsFrame(st.mem, mem', tracons[k], k.spell);
      OldCells(cfg, st, dir, cs, w, token, tracons[k].addr);
    }
  }

  lemma JetClosed(cfg: Config, st: State, dir: nat, cs: seq<nat>, w: nat, token: int)
    requires Ready(cfg, st, dir, cs, w)
    ensures Closed(PackJet(cfg, st, dir, cs, w, token).mem, cfg.base)
  {
    hide JetMem, SideAfter, JetRoot;
    var mem' := PackJet(cfg, st, dir, cs, w, token).mem;
    TailSpells(cfg, st, dir, cs, w);
    forall a: nat | cfg.base <= a < |mem'| && mem'[a].next.At?
      ensures cfg.base <= mem'[a].next.addr
    {
      if a < |st.mem| {
        OldCells(cfg, st, dir, cs, w, token, a);
      } else {
        NewCells(cfg, st, dir, cs, w, token, a - |st.mem|);
      }
    }
  }

  /** Packing a jet keeps all tables and jets sound. */
  lemma JetSound(cfg: Config, st: State, dir: nat, cs: seq<nat>, w: nat, token: int)
    requires Ready(cfg, st, dir, cs, w)
    ensures Sound(cfg, PackJet(cfg, st, dir, cs, w, token))
  {
    hide JetMem, JetRoot;
    var st' := PackJet(cfg, st, dir, cs, w, token);
    JetClosed(cfg, st, dir, cs, w, token);
    JetKeepsLinks(cfg, st, dir, cs, w, token);
    InsertedOk(cfg, st, dir, cs, w, token, CopiedIn(cfg, st, dir, cs));
    TraconsFrame(cfg, st, dir, cs, w, token, st.sides[1 - dir].tracons);
    forall i: nat | i < |st'.jets|
      ensures JetOk(cfg, st'.mem, st'.jets[i])
    {
      if i < |st.jets| {
        assert JetOk(cfg, st.mem, st.jets[i]);
        SpellsFrame(st.mem, st'.mem, st.jets[i].root, st.jets[i].spell);
      } else {
        JetSpells(cfg, st, dir, cs, w, token);
      }
    }
  }
}
