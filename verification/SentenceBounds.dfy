/** Word bounds of whole sentences.  Packing for parsing compares the bounds of
    a tracon at its first connector only.  It keeps all of them when connectors
    that could be shared beyond that agree from the start, and those of a
    sentence that was packed for pruning do: they are the same cells. */
module SentenceBounds {
  import opened Connectors
  import opened TraconSets
  import opened PackingSpec
  import opened PackingMeaning
  import opened PackingAccounts
  import opened PackingMarks
  import opened PackingTheorems
  import opened PackingSharing
  import opened PackingBounds

  // ---------- Tracons come from jets ----------

  /** The tracon `p` with key `k` is what remains of the `n`th jet at its `i`th
      connector. */
  ghost predicate RestOf(st: State, d: nat, k: Key, p: Ptr, n: nat, i: nat) {
    && n < |st.jets|
    && st.jets[n].dir == d
    && st.jets[n].token == st.lastToken
    && i < |st.jets[n].spell| == |JetCells(st.mem, st.jets[n])|
    && k.spell == st.jets[n].spell[i..]
    && Follow(st.mem, p, |k.spell|) == JetCells(st.mem, st.jets[n])[i..]
  }

  ghost predicate FromJet(st: State, d: nat, k: Key, p: Ptr) {
    exists n: nat, i: nat :: RestOf(st, d, k, p, n, i)
  }

  ghost predicate Provenance(st: State)
    requires |st.sides| == 2
  {
    forall d: nat, k :: d < 2 && k in st.sides[d].tracons ==> FromJet(st, d, k, st.sides[d].tracons[k])
  }

  lemma OldFromJet(cfg: Config, st: State, dir: nat, cs: seq<nat>, w: nat, token: int, d: nat, k: Key)
    requires Ready(cfg, st, dir, cs, w) && d < 2 && k in st.sides[d].tracons
    requires FromJet(st, d, k, st.sides[d].tracons[k])
    ensures FromJet(PackJet(cfg, st, dir, cs, w, token), d, k, st.sides[d].tracons[k])
  {
    hide JetMem, JetRoot, SideAfter, JetCells, Added;
    var st', p := PackJet(cfg, st, dir, cs, w, token), st.sides[d].tracons[k];
    var n: nat, i: nat :| RestOf(st, d, k, p, n, i);
    TablesAfter(cfg, st, dir, cs, w, token);
    JetKeepsLinks(cfg, st, dir, cs, w, token);
    assert CellFor(st.mem, p, k, cfg.pruning) && JetOk(cfg, st.mem, st.jets[n]);
    FollowFrame(st.mem, st'.mem, p, k.spell);
    JetCellsFrame(cfg, st.mem, st'.mem, st.jets[n]);
    assert RestOf(st', d, k, p, n, i);
  }

  lemma NewFromJet(cfg: Config, st: State, dir: nat, cs: seq<nat>, w: nat, token: int, i: nat)
    requires Ready(cfg, st, dir, cs, w) && token == st.lastToken && i < CopiedIn(cfg, st, dir, cs)
    ensures FromJet(PackJet(cfg, st, dir, cs, w, token), dir, KeyAt(cfg, st.mem, cs, i), At(|st.mem| + i))
  {
    hide JetMem, JetRoot, SideAfter, SharedPath, Sound, JetCells, PathAfter;
    var st' := PackJet(cfg, st, dir, cs, w, token);
    TablesAfter(cfg, st, dir, cs, w, token);
    AddedCells(cfg, st, dir, cs, w, token);
    assert JetCells(st'.mem, Added(cfg, st, dir, cs, w, token)) == PathAfter(cfg, st, dir, cs) by { PathAfterIs(cfg, st, dir, cs); }
    NewTraconPath(cfg, st, dir, cs, w, token, i);
    assert RestOf(st', dir, KeyAt(cfg, st.mem, cs, i), At(|st.mem| + i), |st.jets|, i);
  }

  lemma PathAfterIs(cfg: Config, st: State, dir: nat, cs: seq<nat>)
    requires Below(cs, |st.mem|) && dir < |st.sides|
    ensures PathAfter(cfg, st, dir, cs) == Run(|st.mem|, CopiedIn(cfg, st, dir, cs)) + SharedPath(cfg, st, dir, cs)
  {
  }

  lemma JetProvenance(cfg: Config, st: State, dir: nat, cs: seq<nat>, w: nat, token: int)
    requires Ready(cfg, st, dir, cs, w) && Provenance(st) && (cfg.encode ==> token == st.lastToken)
    ensures var st' := PackJet(cfg, st, dir, cs, w, token); |st'.sides| == 2 && Provenance(st')
  {
    hide JetMem, JetRoot, SideAfter, SharedPath, FromJet, KeyAt, Added, Sound, PackJet;
    var st' := PackJet(cfg, st, dir, cs, w, token);
    TablesAfter(cfg, st, dir, cs, w, token);
    forall d: nat, k | d < 2 && k in st'.sides[d].tracons
      ensures FromJet(st', d, k, st'.sides[d].tracons[k])
    {
      if k in st.sides[d].tracons {
        OldFromJet(cfg, st, dir, cs, w, token, d, k);
        if d == dir { InsertedKeeps(cfg, st.mem, st.sides[d].tracons, cs, CopiedIn(cfg, st, dir, cs), k); }
      } else {
        var i := NewKey(cfg, st, dir, cs, w, k);
        NewFromJet(cfg, st, dir, cs, w, token, i);
      }
    }
  }

  /** A new key leads to its own copy. */
  lemma NewKey(cfg: Config, st: State, dir: nat, cs: seq<nat>, w: nat, k: Key) returns (i: nat)
    requires Ready(cfg, st, dir, cs, w) && k in TraconsAfter(cfg, st, dir, cs) && k !in st.sides[dir].tracons
    ensures cfg.encode && i < CopiedIn(cfg, st, dir, cs) && k == KeyAt(cfg, st.mem, cs, i)
    ensures TraconsAfter(cfg, st, dir, cs)[k] == At(|st.mem| + i)
  {
    hide KeyAt, Sound;
    var t, m := st.sides[dir].tracons, CopiedIn(cfg, st, dir, cs);
    i := InsertedSource(cfg, st.mem, t, cs, m, k);
    InsertedHas(cfg, st.mem, t, cs, i, m);
  }

  // ---------- Sources ----------

  /** Where a packed jet comes from: its direction, its token, its cells. */
  datatype Source = Source(dir: nat, token: int, cs: seq<nat>)

  ghost predicate SourceOf(mem: seq<Cell>, s: Source, j: Jet) {
    && Below(s.cs, |mem|)
    && j.dir == s.dir
    && j.token == s.token
    && j.spell == Spell(mem, s.cs)
  }

  ghost predicate Sourced(mem: seq<Cell>, srcs: seq<Source>, jets: seq<Jet>) {
    |srcs| == |jets| && forall n: nat :: n < |jets| ==> SourceOf(mem, srcs[n], jets[n])
  }

  /** Of two lists with the same direction and token: connectors that are not
      first and have the same connectors behind them have the same bounds. */
  ghost predicate UniformPair(mem: seq<Cell>, s: Source, s': Source) {
    Below(s.cs, |mem|) && Below(s'.cs, |mem|) && s.dir == s'.dir && s.token == s'.token ==>
      forall i: nat, i': nat :: 0 < i < |s.cs| && 0 < i' < |s'.cs| && Rest(mem, s, i) == Rest(mem, s', i') ==>
        SameBounds(mem, At(s.cs[i]), At(s'.cs[i']))
  }

  ghost function Rest(mem: seq<Cell>, s: Source, i: nat): seq<Con>
    requires Below(s.cs, |mem|) && i <= |s.cs|
  {
    Spell(mem, s.cs)[i..]
  }

  ghost predicate Uniform(mem: seq<Cell>, srcs: seq<Source>) {
    forall a: nat, b: nat :: a < |srcs| && b < |srcs| ==> UniformPair(mem, srcs[a], srcs[b])
  }

  /** The cells of `path` have the bounds of those of `cs`. */
  ghost predicate PathBounds(mem: seq<Cell>, cs: seq<nat>, path: seq<nat>) {
    |path| == |cs| && forall i: nat :: i < |cs| ==> SameBounds(mem, At(cs[i]), At(path[i]))
  }

  ghost predicate AllKept(st: State, srcs: seq<Source>) {
    && |srcs| == |st.jets|
    && forall n: nat :: n < |srcs| ==> PathBounds(st.mem, srcs[n].cs, JetCells(st.mem, st.jets[n]))
  }

  lemma PathBoundsFrame(mem: seq<Cell>, mem': seq<Cell>, cs: seq<nat>, path: seq<nat>)
    requires BoundsStay(mem, mem') && PathBounds(mem, cs, path)
    ensures PathBounds(mem', cs, path)
  {
    forall i: nat | i < |cs|
      ensures SameBounds(mem', At(cs[i]), At(path[i]))
    {
      assert SameBounds(mem, At(cs[i]), At(path[i]));
    }
  }

  // ---------- One jet ----------

  /** The originals are as they were given, and all bounds are kept so far. */
  ghost predicate BoundsReady(cfg: Config, orig: seq<Cell>, st: State, srcs: seq<Source>) {
    && !cfg.pruning
    && |st.sides| == 2
    && SameLinks(orig, st.mem)
    && BoundsStay(orig, st.mem)
    && |orig| == cfg.base
    && Provenance(st)
    && Sourced(orig, srcs, st.jets)
    && AllKept(st, srcs)
  }

  /** A connector beyond the sharing point meets a cell with its bounds. */
  lemma SharedBound(cfg: Config, orig: seq<Cell>, st: State, srcs: seq<Source>, dir: nat, cs: seq<nat>, w: nat, token: int, i: nat)
    requires Ready(cfg, st, dir, cs, w) && BoundsReady(cfg, orig, st, srcs) && token == st.lastToken
    requires CopiedIn(cfg, st, dir, cs) < i < |cs|
    requires forall n: nat :: n < |srcs| ==> UniformPair(orig, srcs[n], Source(dir, token, cs))
    ensures SameBounds(st.mem, At(cs[i]), CellAt(cfg, st, dir, cs, i))
  {
    hide Sound, JetCells, SharedPath, FromJet, SameBounds, SameLinks, BoundsStay;
    var m := CopiedIn(cfg, st, dir, cs);
    var k := KeyAt(cfg, st.mem, cs, m);
    SharedIsTracon(cfg, st, dir, cs);
    var p := st.sides[dir].tracons[k];
    assert FromJet(st, dir, k, p);
    var n, i0 := JetOf(st, dir, k, p);
    var e := i - m;
    var path := JetCells(st.mem, st.jets[n]);
    assert SharedPath(cfg, st, dir, cs) == path[i0..];
    assert CellAt(cfg, st, dir, cs, i) == At(path[i0 + e]);
    assert PathBounds(st.mem, srcs[n].cs, path) && SourceOf(orig, srcs[n], st.jets[n]);
    SpellFrame(orig, st.mem, cs);
    RestsMeet(orig, st, srcs[n], Source(dir, token, cs), st.jets[n].spell, i0, m, e);
    assert UniformPair(orig, srcs[n], Source(dir, token, cs));
    var a, b := srcs[n].cs[i0 + e], path[i0 + e];
    assert SameBounds(orig, At(a), At(cs[i]));
    assert SameBounds(st.mem, At(a), At(b));
    BoundsChain(orig, st.mem, a, cs[i], b);
  }

  lemma JetOf(st: State, d: nat, k: Key, p: Ptr) returns (n: nat, i: nat)
    requires FromJet(st, d, k, p)
    ensures RestOf(st, d, k, p, n, i)
  {
    n, i :| RestOf(st, d, k, p, n, i);
  }

  lemma BoundsChain(orig: seq<Cell>, mem: seq<Cell>, a: nat, c: nat, b: nat)
    requires BoundsStay(orig, mem) && SameBounds(orig, At(a), At(c)) && SameBounds(mem, At(a), At(b))
    ensures SameBounds(mem, At(c), At(b))
  {
  }

  /** What remains `e` connectors further on remains equal. */
  lemma RestsMeet(orig: seq<Cell>, st: State, s: Source, s': Source, spell: seq<Con>, i0: nat, m: nat, e: nat)
    requires Below(s.cs, |orig|) && Below(s'.cs, |orig|) && spell == Spell(orig, s.cs)
    requires i0 <= |s.cs| && m <= |s'.cs| && e <= |s.cs| - i0
    requires spell[i0..] == Spell(orig, s'.cs)[m..]
    ensures m + e <= |s'.cs| && Rest(orig, s, i0 + e) == Rest(orig, s', m + e)
  {
    assert |s.cs| - i0 == |s'.cs| - m;
    assert spell[i0..][e..] == spell[i0 + e..];
    assert Spell(orig, s'.cs)[m..][e..] == Spell(orig, s'.cs)[m + e..];
  }

  /** What the step needs of the jets packed so far and the next one. */
  ghost predicate UniformWith(orig: seq<Cell>, srcs: seq<Source>, s: Source) {
    forall n: nat :: n < |srcs| ==> UniformPair(orig, srcs[n], s)
  }

  lemma RestAgreesWhenUniform(cfg: Config, orig: seq<Cell>, st: State, srcs: seq<Source>, dir: nat, cs: seq<nat>, w: nat, token: int)
    requires Ready(cfg, st, dir, cs, w) && BoundsReady(cfg, orig, st, srcs) && TokenReady(cfg, st, token)
    requires cfg.encode ==> UniformWith(orig, srcs, Source(dir, token, cs))
    ensures RestAgrees(cfg, st, dir, cs)
  {
    hide Sound, BoundsReady, CellAt, SameBounds, UniformPair;
    forall i: nat | CopiedIn(cfg, st, dir, cs) < i < |cs|
      ensures SameBounds(st.mem, At(cs[i]), CellAt(cfg, st, dir, cs, i))
    {
      assert Sharable(cfg, st.mem, st.sides[dir].tracons, cs, CopiedIn(cfg, st, dir, cs));
      SharedBound(cfg, orig, st, srcs, dir, cs, w, token, i);
    }
  }

  lemma NewPathBounds(cfg: Config, orig: seq<Cell>, st: State, srcs: seq<Source>, dir: nat, cs: seq<nat>, w: nat, token: int)
    requires Ready(cfg, st, dir, cs, w) && BoundsReady(cfg, orig, st, srcs) && TokenReady(cfg, st, token)
    requires cfg.encode ==> UniformWith(orig, srcs, Source(dir, token, cs))
    ensures var st' := PackJet(cfg, st, dir, cs, w, token);
            PathBounds(st'.mem, cs, JetCells(st'.mem, Added(cfg, st, dir, cs, w, token)))
  {
    hide JetMem, JetRoot, SideAfter, Sound, JetCells, SameBounds, Added, RestAgrees, UniformWith, PackJet;
    RestAgreesWhenUniform(cfg, orig, st, srcs, dir, cs, w, token);
    JetBoundsExactly(cfg, st, dir, cs, w, token);
  }

  lemma OldPathBounds(cfg: Config, orig: seq<Cell>, st: State, srcs: seq<Source>, dir: nat, cs: seq<nat>, w: nat, token: int, n: nat)
    requires Ready(cfg, st, dir, cs, w) && BoundsReady(cfg, orig, st, srcs) && n < |st.jets|
    ensures PathBounds(PackJet(cfg, st, dir, cs, w, token).mem, srcs[n].cs,
                       JetCells(PackJet(cfg, st, dir, cs, w, token).mem, st.jets[n]))
  {
    hide JetMem, JetRoot, SideAfter, JetCells, Provenance, Sourced, BoundsStay, PathBounds, PackJet, JetOk;
    JetKeepsLinks(cfg, st, dir, cs, w, token);
    JetKeepsBounds(cfg, st, dir, cs, w, token);
    var mem' := PackJet(cfg, st, dir, cs, w, token).mem;
    assert JetOk(cfg, st.mem, st.jets[n]);
    JetCellsFrame(cfg, st.mem, mem', st.jets[n]);
    PathBoundsFrame(st.mem, mem', srcs[n].cs, JetCells(st.mem, st.jets[n]));
  }

  lemma LinksStay(orig: seq<Cell>, mem: seq<Cell>, mem': seq<Cell>)
    requires SameLinks(orig, mem) && BoundsStay(orig, mem) && SameLinks(mem, mem') && BoundsStay(mem, mem')
    ensures SameLinks(orig, mem') && BoundsStay(orig, mem')
  {
  }

  lemma AddedSource(cfg: Config, orig: seq<Cell>, st: State, dir: nat, cs: seq<nat>, w: nat, token: int)
    requires JetFits(cfg, st, dir, cs, w) && SameLinks(orig, st.mem) && Below(cs, |orig|)
    ensures SourceOf(orig, Source(dir, token, cs), Added(cfg, st, dir, cs, w, token))
  {
    hide JetRoot;
    SpellFrame(orig, st.mem, cs);
  }

  /** Packing a jet that is uniform with the earlier ones keeps all bounds. */
  lemma JetAllKept(cfg: Config, orig: seq<Cell>, st: State, srcs: seq<Source>, dir: nat, cs: seq<nat>, w: nat, token: int)
    requires Ready(cfg, st, dir, cs, w) && BoundsReady(cfg, orig, st, srcs) && TokenReady(cfg, st, token)
    requires cfg.encode ==> UniformWith(orig, srcs, Source(dir, token, cs))
    ensures BoundsReady(cfg, orig, PackJet(cfg, st, dir, cs, w, token), srcs + [Source(dir, token, cs)])
  {
    hide JetMem, JetRoot, SideAfter, JetCells, PathBounds, PackJet, UniformWith, Added, Sound, Provenance, SourceOf, SameLinks, BoundsStay;
    var st', srcs' := PackJet(cfg, st, dir, cs, w, token), srcs + [Source(dir, token, cs)];
    TablesAfter(cfg, st, dir, cs, w, token);
    JetProvenance(cfg, st, dir, cs, w, token);
    JetKeepsLinks(cfg, st, dir, cs, w, token);
    JetKeepsBounds(cfg, st, dir, cs, w, token);
    LinksStay(orig, st.mem, st'.mem);
    AddedSource(cfg, orig, st, dir, cs, w, token);
    forall n: nat | n < |srcs'|
      ensures PathBounds(st'.mem, srcs'[n].cs, JetCells(st'.mem, st'.jets[n]))
    {
      if n < |srcs| {
        OldPathBounds(cfg, orig, st, srcs, dir, cs, w, token, n);
      } else {
        NewPathBounds(cfg, orig, st, srcs, dir, cs, w, token);
      }
    }
  }

  // ---------- Sentences ----------

  /** The lists of a sentence in the order of packing. */
  ghost function Sources(cfg: Config, orig: seq<Cell>, numUc: nat, length: nat, items: seq<Item>): (srcs: seq<Source>)
    requires SentenceOk(cfg, orig, numUc, length, items)
    ensures |srcs| == 2 * |items|
  {
    if items == [] then []
    else
      var n := |items| - 1;
      assert ItemOk(cfg, orig, numUc, length, items[n]);
      Sources(cfg, orig, numUc, length, items[..n])
        + [Source(0, TokenOf(cfg, items[n]), ListAt(orig, items[n].d.left))]
        + [Source(1, TokenOf(cfg, items[n]), ListAt(orig, items[n].d.right))]
  }

  lemma {:induction false} SourcesAt(cfg: Config, orig: seq<Cell>, numUc: nat, length: nat, items: seq<Item>, i: nat)
    requires SentenceOk(cfg, orig, numUc, length, items) && i < |items|
    ensures IsList(orig, items[i].d.left) && IsList(orig, items[i].d.right)
    ensures var srcs := Sources(cfg, orig, numUc, length, items);
            && srcs[2 * i] == Source(0, TokenOf(cfg, items[i]), ListAt(orig, items[i].d.left))
            && srcs[2 * i + 1] == Source(1, TokenOf(cfg, items[i]), ListAt(orig, items[i].d.right))
  {
    assert ItemOk(cfg, orig, numUc, length, items[i]);
    if i < |items| - 1 {
      SourcesAt(cfg, orig, numUc, length, items[..|items| - 1], i);
      assert items[..|items| - 1][i] == items[i];
    }
  }

  lemma SideAllKept(cfg: Config, orig: seq<Cell>, numUc: nat, length: nat, st: State, srcs: seq<Source>,
                    dir: nat, p: Ptr, w: nat, token: int)
    requires Extends(cfg, orig, numUc, length, st) && dir < 2 && ListOk(cfg, orig, numUc, length, p, w)
    requires Packed(cfg, st) && TokenReady(cfg, st, token) && BoundsReady(cfg, orig, st, srcs)
    requires cfg.encode ==> UniformWith(orig, srcs, Source(dir, token, ListAt(orig, p)))
    ensures BoundsReady(cfg, orig, PackSide(cfg, orig, numUc, length, st, dir, p, w, token),
                        srcs + [Source(dir, token, ListAt(orig, p))])
  {
    hide JetMem, SideAfter, JetRoot, BoundsReady, Chain, Marks, Numbered, Reached, RefcountsOk, UniformWith;
    var cs := ListAt(orig, p);
    SpellFrame(orig, st.mem, cs);
    JetAllKept(cfg, orig, st, srcs, dir, cs, w, token);
  }

  lemma EnterBounds(cfg: Config, orig: seq<Cell>, st: State, srcs: seq<Source>, token: int)
    requires BoundsReady(cfg, orig, st, srcs)
    ensures BoundsReady(cfg, orig, Enter(cfg, st, token), srcs)
  {
    hide FromJet, SourceOf, PathBounds;
  }

  lemma UniformPrefix(orig: seq<Cell>, srcs: seq<Source>, n: nat)
    requires Uniform(orig, srcs) && n < |srcs|
    ensures UniformWith(orig, srcs[..n], srcs[n]) && Uniform(orig, srcs[..n])
  {
    hide UniformPair;
  }

  lemma DisjunctAllKept(cfg: Config, orig: seq<Cell>, numUc: nat, length: nat, st: State, srcs: seq<Source>, it: Item)
    requires Extends(cfg, orig, numUc, length, st) && ItemOk(cfg, orig, numUc, length, it)
    requires Packed(cfg, st) && BoundsReady(cfg, orig, st, srcs)
    requires var l := Source(0, TokenOf(cfg, it), ListAt(orig, it.d.left));
             var r := Source(1, TokenOf(cfg, it), ListAt(orig, it.d.right));
             cfg.encode ==> UniformWith(orig, srcs, l) && UniformWith(orig, srcs + [l], r)
    ensures var l := Source(0, TokenOf(cfg, it), ListAt(orig, it.d.left));
            var r := Source(1, TokenOf(cfg, it), ListAt(orig, it.d.right));
            BoundsReady(cfg, orig, PackDisjunct(cfg, orig, numUc, length, st, it), srcs + [l] + [r])
  {
    hide Packed, PackSide, Extends, BoundsReady, UniformWith;
    var token := TokenOf(cfg, it);
    EnterExtends(cfg, orig, numUc, length, st, token);
    EnterPacked(cfg, st, token);
    EnterBounds(cfg, orig, st, srcs, token);
    var st0 := Enter(cfg, st, token);
    var l := Source(0, token, ListAt(orig, it.d.left));
    var r := Source(1, token, ListAt(orig, it.d.right));
    var st1 := PackSide(cfg, orig, numUc, length, st0, 0, it.d.left, it.word, token);
    SidePacked(cfg, orig, numUc, length, st0, 0, it.d.left, it.word, token);
    SideAllKept(cfg, orig, numUc, length, st0, srcs, 0, it.d.left, it.word, token);
    var st2 := PackSide(cfg, orig, numUc, length, st1, 1, it.d.right, it.word, token);
    SideAllKept(cfg, orig, numUc, length, st1, srcs + [l], 1, it.d.right, it.word, token);
    AppendBounds(cfg, orig, st2, PackDisjunct(cfg, orig, numUc, length, st, it), srcs + [l] + [r]);
  }

  lemma AppendBounds(cfg: Config, orig: seq<Cell>, st: State, st': State, srcs: seq<Source>)
    requires BoundsReady(cfg, orig, st, srcs) && st' == st.(dblock := st'.dblock)
    ensures BoundsReady(cfg, orig, st', srcs)
  {
    hide SourceOf, PathBounds;
    forall d: nat, k | d < 2 && k in st'.sides[d].tracons
      ensures FromJet(st', d, k, st'.sides[d].tracons[k])
    {
      var p := st.sides[d].tracons[k];
      assert FromJet(st, d, k, p);
      var n, i := JetOf(st, d, k, p);
      assert RestOf(st', d, k, p, n, i);
    }
  }

  lemma {:induction false} PackAllKept(cfg: Config, orig: seq<Cell>, numUc: nat, length: nat, items: seq<Item>)
    requires |orig| == cfg.base && SentenceOk(cfg, orig, numUc, length, items) && !cfg.pruning
    requires cfg.encode ==> Uniform(orig, Sources(cfg, orig, numUc, length, items))
    ensures BoundsReady(cfg, orig, Pack(cfg, orig, numUc, length, items), Sources(cfg, orig, numUc, length, items))
  {
    if items == [] {
      assert Pack(cfg, orig, numUc, length, items) == Start(cfg, orig, numUc, length);
    } else {
      hide Packed, PackDisjunct, Extends, ItemOk, BoundsReady, Uniform, UniformWith;
      var n := |items| - 1;
      var st := Pack(cfg, orig, numUc, length, items[..n]);
      var srcs, all := Sources(cfg, orig, numUc, length, items[..n]), Sources(cfg, orig, numUc, length, items);
      assert ItemOk(cfg, orig, numUc, length, items[n]);
      LastSources(cfg, orig, numUc, length, items);
      if cfg.encode {
        UniformPrefix(orig, all, 2 * n + 1);
        UniformPrefix(orig, all[..2 * n + 1], 2 * n);
      }
      PackAllKept(cfg, orig, numUc, length, items[..n]);
      PackKeeps(cfg, orig, numUc, length, items[..n]);
      DisjunctAllKept(cfg, orig, numUc, length, st, srcs, items[n]);
    }
  }

  lemma LastSources(cfg: Config, orig: seq<Cell>, numUc: nat, length: nat, items: seq<Item>)
    requires SentenceOk(cfg, orig, numUc, length, items) && items != []
    ensures var n := |items| - 1;
            var srcs, all := Sources(cfg, orig, numUc, length, items[..n]), Sources(cfg, orig, numUc, length, items);
            && ItemOk(cfg, orig, numUc, length, items[n])
            && all[..2 * n + 1] == srcs + [Source(0, TokenOf(cfg, items[n]), ListAt(orig, items[n].d.left))]
            && all[..2 * n + 1][..2 * n] == srcs
            && all[..2 * n + 1][2 * n] == Source(0, TokenOf(cfg, items[n]), ListAt(orig, items[n].d.left))
            && all[2 * n + 1] == Source(1, TokenOf(cfg, items[n]), ListAt(orig, items[n].d.right))
  {
    hide ItemOk;
    assert ItemOk(cfg, orig, numUc, length, items[|items| - 1]);
  }

  // ---------- All bounds of a sentence ----------

  ghost predicate CellsAgree(mem: seq<Cell>, cs: seq<nat>, mem': seq<Cell>, cs': seq<nat>) {
    && |cs| == |cs'|
    && Below(cs, |mem|)
    && Below(cs', |mem'|)
    && forall i: nat :: i < |cs| ==>
         mem[cs[i]].nearestWord == mem'[cs'[i]].nearestWord && mem[cs[i]].farthestWord == mem'[cs'[i]].farthestWord
  }

  /** Two lists in two memories have the same bounds, connector by connector. */
  ghost predicate SameListBounds(mem: seq<Cell>, p: Ptr, mem': seq<Cell>, p': Ptr) {
    forall cs, cs' :: Chain(mem, p, cs) && Chain(mem', p', cs') ==> CellsAgree(mem, cs, mem', cs')
  }

  lemma {:induction false} ChainUnique(mem: seq<Cell>, p: Ptr, cs: seq<nat>, cs': seq<nat>)
    requires Chain(mem, p, cs) && Chain(mem, p, cs')
    ensures cs == cs'
    decreases |cs|
  {
    if cs != [] {
      ChainUnique(mem, mem[cs[0]].next, cs[1..], cs'[1..]);
      assert cs == [cs[0]] + cs[1..] && cs' == [cs'[0]] + cs'[1..];
    }
  }

  lemma {:induction false} FollowChain(mem: seq<Cell>, p: Ptr, s: seq<Con>)
    requires Spells(mem, p, s)
    ensures Chain(mem, p, Follow(mem, p, |s|)) && |Follow(mem, p, |s|)| == |s|
    ensures Below(Follow(mem, p, |s|), |mem|) && Spell(mem, Follow(mem, p, |s|)) == s
    decreases |s|
  {
    if s != [] {
      FollowChain(mem, mem[p.addr].next, s[1..]);
      ChainCons(mem, p.addr, Follow(mem, mem[p.addr].next, |s| - 1));
      assert s == [s[0]] + s[1..];
    }
  }

  lemma ChainCons(mem: seq<Cell>, a: nat, rest: seq<nat>)
    requires a < |mem| && Below(rest, |mem|)
    ensures Below([a] + rest, |mem|) && ([a] + rest)[1..] == rest
    ensures Spell(mem, [a] + rest) == [mem[a].con] + Spell(mem, rest)
  {
  }

  lemma JetListBounds(orig: seq<Cell>, p: Ptr, cs: seq<nat>, mem: seq<Cell>, root: Ptr, s: seq<Con>)
    requires Chain(orig, p, cs) && Below(cs, |orig|) && BoundsStay(orig, mem) && Spells(mem, root, s)
    requires PathBounds(mem, cs, Follow(mem, root, |s|))
    ensures SameListBounds(orig, p, mem, root)
  {
    var path := Follow(mem, root, |s|);
    FollowChain(mem, root, s);
    forall a, b | Chain(orig, p, a) && Chain(mem, root, b)
      ensures CellsAgree(orig, a, mem, b)
    {
      ChainUnique(orig, p, a, cs);
      ChainUnique(mem, root, b, path);
      forall i: nat | i < |cs|
        ensures orig[cs[i]].nearestWord == mem[path[i]].nearestWord && orig[cs[i]].farthestWord == mem[path[i]].farthestWord
      {
        assert SameBounds(mem, At(cs[i]), At(path[i]));
      }
    }
  }

  ghost predicate DisjunctBounds(mem: seq<Cell>, d: Disjunct, mem': seq<Cell>, d': Disjunct) {
    SameListBounds(mem, d.left, mem', d'.left) && SameListBounds(mem, d.right, mem', d'.right)
  }

  /** Packing for parsing keeps all word bounds of a sentence that is not
      encoded, or whose shareable connectors agree in their bounds. */
  lemma AllBoundsKept(cfg: Config, orig: seq<Cell>, numUc: nat, length: nat, items: seq<Item>, i: nat)
    requires |orig| == cfg.base && SentenceOk(cfg, orig, numUc, length, items) && !cfg.pruning && i < |items|
    requires cfg.encode ==> Uniform(orig, Sources(cfg, orig, numUc, length, items))
    ensures var st := Pack(cfg, orig, numUc, length, items);
            |st.dblock| == |items| && DisjunctBounds(orig, items[i].d, st.mem, st.dblock[i])
  {
    hide Uniform, SameListBounds, PathBounds, JetOk, JetCells, Provenance, BoundsStay, Packed, ItemOk;
    var st := Pack(cfg, orig, numUc, length, items);
    PackKeeps(cfg, orig, numUc, length, items);
    PackAllKept(cfg, orig, numUc, length, items);
    SourcesAt(cfg, orig, numUc, length, items, i);
    assert DisjunctPacked(cfg, orig, items[i], st.dblock[i], st.jets[2 * i], st.jets[2 * i + 1]);
    JetKeepsListBounds(cfg, orig, numUc, length, items, st, 2 * i, items[i].d.left);
    JetKeepsListBounds(cfg, orig, numUc, length, items, st, 2 * i + 1, items[i].d.right);
  }

  lemma JetKeepsListBounds(cfg: Config, orig: seq<Cell>, numUc: nat, length: nat, items: seq<Item>, st: State, n: nat, p: Ptr)
    requires Result(cfg, orig, numUc, length, items, st) && n < |st.jets|
    requires BoundsReady(cfg, orig, st, Sources(cfg, orig, numUc, length, items))
    requires IsList(orig, p) && ListAt(orig, p) == Sources(cfg, orig, numUc, length, items)[n].cs
    ensures SameListBounds(orig, p, st.mem, st.jets[n].root)
  {
    hide SentenceOk, SameListBounds, PathBounds, Provenance, BoundsStay, Packed;
    ResultJet(cfg, orig, numUc, length, items, st, n);
    var srcs := Sources(cfg, orig, numUc, length, items);
    assert PathBounds(st.mem, srcs[n].cs, JetCells(st.mem, st.jets[n]));
    JetListBounds(orig, p, srcs[n].cs, st.mem, st.jets[n].root, st.jets[n].spell);
  }

  // ---------- Pruning in between ----------

  /** The disjuncts left by pruning: each is a packed one of the same word. */
  ghost predicate LeftOver(items: seq<Item>, st: State, items2: seq<Item>) {
    forall b: nat :: b < |items2| ==> SomePacked(items, st, items2[b])
  }

  ghost predicate SomePacked(items: seq<Item>, st: State, it: Item) {
    exists a: nat :: IsPacked(items, st, it, a)
  }

  ghost predicate IsPacked(items: seq<Item>, st: State, it: Item, a: nat) {
    && a < |items| == |st.dblock|
    && it.word == items[a].word
    && it.d.left == st.dblock[a].left
    && it.d.right == st.dblock[a].right
  }

  /** A gword belongs to one word of the sentence. */
  ghost predicate OneWord(items: seq<Item>) {
    forall a: nat, b: nat :: a < |items| && b < |items| && items[a].d.gword == items[b].d.gword ==>
      items[a].word == items[b].word
  }

  /** The sentence was packed for pruning as `st`; pruning rewrote word bounds,
      but no connector type and no link, and left `items2`; it is to be packed
      for parsing, with sharing if there was sharing before. */
  ghost predicate PruneThenParse(cfg: Config, orig: seq<Cell>, numUc: nat, length: nat, items: seq<Item>, st: State,
                                 cfg2: Config, mem2: seq<Cell>, items2: seq<Item>) {
    && Result(cfg, orig, numUc, length, items, st)
    && cfg.pruning
    && InWordOrder(items)
    && SameLinks(st.mem, mem2)
    && cfg2 == Config(false, cfg.encode, |mem2|)
    && LeftOver(items, st, items2)
    && OneWord(items2)
  }

  /** The list of a disjunct that was left over is a packed jet. */
  lemma LeftOverList(cfg: Config, orig: seq<Cell>, numUc: nat, length: nat, items: seq<Item>, st: State,
                     mem2: seq<Cell>, n: nat)
    requires Result(cfg, orig, numUc, length, items, st) && SameLinks(st.mem, mem2) && n < |st.jets|
    ensures var j := st.jets[n];
            && IsList(mem2, j.root)
            && ListAt(mem2, j.root) == JetCells(st.mem, j)
            && Below(JetCells(st.mem, j), |st.mem|)
            && Spell(mem2, ListAt(mem2, j.root)) == j.spell
  {
    hide Result, Packed;
    ResultJet(cfg, orig, numUc, length, items, st, n);
    var j := st.jets[n];
    SpellsFrame(st.mem, mem2, j.root, j.spell);
    FollowFrame(st.mem, mem2, j.root, j.spell);
    FollowChain(mem2, j.root, j.spell);
    FollowChain(st.mem, j.root, j.spell);
    ChainUnique(mem2, j.root, ListAt(mem2, j.root), JetCells(st.mem, j));
  }

  lemma LeftOverItem(cfg: Config, orig: seq<Cell>, numUc: nat, length: nat, items: seq<Item>, st: State,
                     cfg2: Config, mem2: seq<Cell>, items2: seq<Item>, b: nat) returns (a: nat)
    requires PruneThenParse(cfg, orig, numUc, length, items, st, cfg2, mem2, items2) && b < |items2|
    ensures a < |items| && |st.jets| == 2 * |items|
    ensures st.jets[2 * a].root == items2[b].d.left && st.jets[2 * a + 1].root == items2[b].d.right
    ensures st.jets[2 * a].dir == 0 && st.jets[2 * a + 1].dir == 1
    ensures st.jets[2 * a].token == st.jets[2 * a + 1].token == items2[b].word
    ensures ItemOk(cfg2, mem2, numUc, length, items2[b])
  {
    hide Result, InWordOrder, OneWord, SameLinks, ListAt, JetCells;
    assert SomePacked(items, st, items2[b]);
    a :| IsPacked(items, st, items2[b], a);
    ItsJets(cfg, orig, numUc, length, items, st, a);
    LeftOverList(cfg, orig, numUc, length, items, st, mem2, 2 * a);
    LeftOverList(cfg, orig, numUc, length, items, st, mem2, 2 * a + 1);
  }

  lemma ItsJets(cfg: Config, orig: seq<Cell>, numUc: nat, length: nat, items: seq<Item>, st: State, a: nat)
    requires Result(cfg, orig, numUc, length, items, st) && cfg.pruning && a < |items|
    ensures |st.jets| == 2 * |items| && |st.dblock| == |items|
    ensures st.jets[2 * a].root == st.dblock[a].left && st.jets[2 * a + 1].root == st.dblock[a].right
    ensures st.jets[2 * a].dir == 0 && st.jets[2 * a + 1].dir == 1
    ensures st.jets[2 * a].token == st.jets[2 * a + 1].token == items[a].word
  {
    hide Packed, SentenceOk;
    PackKeeps(cfg, orig, numUc, length, items);
    assert DisjunctPacked(cfg, orig, items[a], st.dblock[a], st.jets[2 * a], st.jets[2 * a + 1]);
  }

  /** The `n`th list to be packed for parsing is the `m`th packed jet. */
  ghost predicate Reused(st: State, mem2: seq<Cell>, s: Source, w: nat, m: nat) {
    && m < |st.jets|
    && st.jets[m].dir == s.dir
    && st.jets[m].token == w
    && s.cs == JetCells(st.mem, st.jets[m])
    && Below(s.cs, |mem2|)
    && Spell(mem2, s.cs) == st.jets[m].spell
  }

  lemma SourceReused(cfg: Config, orig: seq<Cell>, numUc: nat, length: nat, items: seq<Item>, st: State,
                     cfg2: Config, mem2: seq<Cell>, items2: seq<Item>, n: nat) returns (m: nat)
    requires PruneThenParse(cfg, orig, numUc, length, items, st, cfg2, mem2, items2) && n < 2 * |items2|
    requires SentenceOk(cfg2, mem2, numUc, length, items2)
    ensures Reused(st, mem2, Sources(cfg2, mem2, numUc, length, items2)[n], items2[n / 2].word, m)
    ensures Sources(cfg2, mem2, numUc, length, items2)[n].token == items2[n / 2].d.gword
  {
    hide Result, LeftOver, InWordOrder, OneWord, SentenceOk, JetCells;
    var b := n / 2;
    var a := LeftOverItem(cfg, orig, numUc, length, items, st, cfg2, mem2, items2, b);
    SourcesAt(cfg2, mem2, numUc, length, items2, b);
    m := 2 * a + n % 2;
    LeftOverList(cfg, orig, numUc, length, items, st, mem2, m);
  }

  /** Lists of a sentence packed for pruning with sharing are uniform, whatever
      pruning did to the bounds: what could be shared is shared already. */
  lemma PrunedUniform(cfg: Config, orig: seq<Cell>, numUc: nat, length: nat, items: seq<Item>, st: State,
                      cfg2: Config, mem2: seq<Cell>, items2: seq<Item>)
    requires PruneThenParse(cfg, orig, numUc, length, items, st, cfg2, mem2, items2) && cfg.encode
    requires SentenceOk(cfg2, mem2, numUc, length, items2)
    ensures Uniform(mem2, Sources(cfg2, mem2, numUc, length, items2))
  {
    hide Result, SentenceOk, UniformPair, Reused, Sources;
    var srcs := Sources(cfg2, mem2, numUc, length, items2);
    forall a: nat, b: nat | a < |srcs| && b < |srcs|
      ensures UniformPair(mem2, srcs[a], srcs[b])
    {
      var m := SourceReused(cfg, orig, numUc, length, items, st, cfg2, mem2, items2, a);
      var n := SourceReused(cfg, orig, numUc, length, items, st, cfg2, mem2, items2, b);
      if srcs[a].token == srcs[b].token {
        assert items2[a / 2].word == items2[b / 2].word;
        ReusedUniform(cfg, orig, numUc, length, items, st, mem2, srcs[a], srcs[b], items2[a / 2].word, m, n);
      } else {
        OtherToken(mem2, srcs[a], srcs[b]);
      }
    }
  }

  lemma OtherToken(mem: seq<Cell>, s: Source, s': Source)
    requires s.token != s'.token
    ensures UniformPair(mem, s, s')
  {
  }

  lemma ReusedUniform(cfg: Config, orig: seq<Cell>, numUc: nat, length: nat, items: seq<Item>, st: State, mem2: seq<Cell>,
                      s: Source, s': Source, w: nat, m: nat, n: nat)
    requires SharedResult(cfg, orig, numUc, length, items, st) && Reused(st, mem2, s, w, m) && Reused(st, mem2, s', w, n)
    ensures UniformPair(mem2, s, s')
  {
    hide SharedResult, JetCells;
    if s.dir == s'.dir && s.token == s'.token {
      forall i: nat, i': nat | 0 < i < |s.cs| && 0 < i' < |s'.cs| && Rest(mem2, s, i) == Rest(mem2, s', i')
        ensures SameBounds(mem2, At(s.cs[i]), At(s'.cs[i']))
      {
        assert TraconAt(st.jets[m], i) == TraconAt(st.jets[n], i');
        SharedExactly(cfg, orig, numUc, length, items, st, m, i, n, i');
      }
    }
  }

  /** Packing for parsing after pruning keeps the bounds that pruning computed,
      for every connector of every disjunct that is left. */
  lemma ParsingKeepsBounds(cfg: Config, orig: seq<Cell>, numUc: nat, length: nat, items: seq<Item>, st: State,
                           cfg2: Config, mem2: seq<Cell>, items2: seq<Item>, b: nat)
    requires PruneThenParse(cfg, orig, numUc, length, items, st, cfg2, mem2, items2) && b < |items2|
    ensures SentenceOk(cfg2, mem2, numUc, length, items2)
    ensures var st2 := Pack(cfg2, mem2, numUc, length, items2);
            |st2.dblock| == |items2| && DisjunctBounds(mem2, items2[b].d, st2.mem, st2.dblock[b])
  {
    hide ItemOk, DisjunctBounds, Result, LeftOver, OneWord, InWordOrder, SameLinks;
    forall i: nat | i < |items2|
      ensures ItemOk(cfg2, mem2, numUc, length, items2[i])
    {
      var a := LeftOverItem(cfg, orig, numUc, length, items, st, cfg2, mem2, items2, i);
    }
    if cfg.encode { PrunedUniform(cfg, orig, numUc, length, items, st, cfg2, mem2, items2); }
    AllBoundsKept(cfg2, mem2, numUc, length, items2, b);
  }
}
