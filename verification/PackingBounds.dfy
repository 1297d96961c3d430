/** Word bounds.  A connector also says how near and how far its link may go.
    Packing copies these bounds with the connector, but a shared tracon is
    compared by them at its first connector only, and only when parsing.  This
    module says what one jet keeps; `SentenceBounds` says when a whole sentence
    keeps all of them. */
module PackingBounds {
  import opened Connectors
  import opened TraconSets
  import opened PackingSpec
  import opened PackingMeaning
  import opened PackingAccounts
  import opened PackingMarks
  import opened PackingTheorems

  /** Earlier cells keep their bounds. */
  ghost predicate BoundsStay(mem: seq<Cell>, mem': seq<Cell>) {
    && |mem| <= |mem'|
    && forall a: nat :: a < |mem| ==>
         mem'[a].nearestWord == mem[a].nearestWord && mem'[a].farthestWord == mem[a].farthestWord
  }

  lemma JetKeepsBounds(cfg: Config, st: State, dir: nat, cs: seq<nat>, w: nat, token: int)
    requires JetFits(cfg, st, dir, cs, w)
    ensures BoundsStay(st.mem, PackJet(cfg, st, dir, cs, w, token).mem)
  {
    hide JetMem, SideAfter, JetRoot, Sharable, KeyAt, Tail, MarkCount, Counted;
    var mem' := PackJet(cfg, st, dir, cs, w, token).mem;
    forall a: nat | a < |st.mem|
      ensures mem'[a].nearestWord == st.mem[a].nearestWord && mem'[a].farthestWord == st.mem[a].farthestWord
    {
      JetMemOld(cfg, st.mem, st.sides[dir], cs, a);
    }
  }

  /** The cell for the `i`th connector of the next jet. */
  ghost function CellAt(cfg: Config, st: State, dir: nat, cs: seq<nat>, i: nat): Ptr
    requires Below(cs, |st.mem|) && dir < |st.sides|
  {
    var m := CopiedIn(cfg, st, dir, cs);
    if i < m then At(|st.mem| + i)
    else if i - m < |SharedPath(cfg, st, dir, cs)| then At(SharedPath(cfg, st, dir, cs)[i - m])
    else Null
  }

  lemma CellAtIsJetCell(cfg: Config, st: State, dir: nat, cs: seq<nat>, w: nat, token: int, i: nat)
    requires Ready(cfg, st, dir, cs, w) && i < |cs|
    ensures var path := JetCells(PackJet(cfg, st, dir, cs, w, token).mem, Added(cfg, st, dir, cs, w, token));
            |path| == |cs| && CellAt(cfg, st, dir, cs, i) == At(path[i])
  {
    hide JetMem, SideAfter, JetRoot, Sound;
    AddedCells(cfg, st, dir, cs, w, token);
    SharedPathAbove(cfg, st, dir, cs, w);
  }

  /** A connector that is copied keeps its bounds. */
  lemma CopiedBounds(cfg: Config, st: State, dir: nat, cs: seq<nat>, w: nat, token: int, i: nat)
    requires Ready(cfg, st, dir, cs, w) && i < CopiedIn(cfg, st, dir, cs)
    ensures SameBounds(PackJet(cfg, st, dir, cs, w, token).mem, At(cs[i]), CellAt(cfg, st, dir, cs, i))
  {
    hide JetMem, SideAfter, JetRoot, Sound;
    NewCells(cfg, st, dir, cs, w, token, i);
    JetKeepsBounds(cfg, st, dir, cs, w, token);
  }

  /** When parsing, so does the first connector that is shared. */
  lemma SharingPointBounds(cfg: Config, st: State, dir: nat, cs: seq<nat>, w: nat, token: int)
    requires Ready(cfg, st, dir, cs, w) && !cfg.pruning && CopiedIn(cfg, st, dir, cs) < |cs|
    ensures SameBounds(PackJet(cfg, st, dir, cs, w, token).mem, At(cs[CopiedIn(cfg, st, dir, cs)]),
                       CellAt(cfg, st, dir, cs, CopiedIn(cfg, st, dir, cs)))
  {
    hide JetMem, SideAfter, JetRoot, KeyAt;
    var m := CopiedIn(cfg, st, dir, cs);
    assert SharedPath(cfg, st, dir, cs)[0] == Tail(cfg, st.mem, st.sides[dir].tracons, cs).addr;
    JetKeepsBounds(cfg, st, dir, cs, w, token);
  }

  /** All connectors of the new jet have the bounds of the originals. */
  ghost predicate JetBoundsKept(cfg: Config, st: State, dir: nat, cs: seq<nat>, w: nat, token: int)
    requires Ready(cfg, st, dir, cs, w)
  {
    var mem' := PackJet(cfg, st, dir, cs, w, token).mem;
    var path := JetCells(mem', Added(cfg, st, dir, cs, w, token));
    |path| == |cs| && forall i: nat :: i < |cs| ==> SameBounds(mem', At(cs[i]), At(path[i]))
  }

  /** Before packing: beyond its first connector, the tracon to be shared has the
      bounds of the originals. */
  ghost predicate RestAgrees(cfg: Config, st: State, dir: nat, cs: seq<nat>)
    requires Below(cs, |st.mem|) && dir < |st.sides|
  {
    var m := CopiedIn(cfg, st, dir, cs);
    forall i: nat :: m < i < |cs| ==> SameBounds(st.mem, At(cs[i]), CellAt(cfg, st, dir, cs, i))
  }

  /** When parsing, a jet keeps all its word bounds exactly when those beyond the
      sharing point happen to agree: the code does not compare them. */
  lemma JetBoundsExactly(cfg: Config, st: State, dir: nat, cs: seq<nat>, w: nat, token: int)
    requires Ready(cfg, st, dir, cs, w) && !cfg.pruning
    ensures JetBoundsKept(cfg, st, dir, cs, w, token) <==> RestAgrees(cfg, st, dir, cs)
  {
    hide JetMem, SideAfter, JetRoot, Sound, SharedPath, JetCells, PackJet, Added, CellAt, SameBounds;
    AddedLength(cfg, st, dir, cs, w, token);
    var m := CopiedIn(cfg, st, dir, cs);
    var mem' := PackJet(cfg, st, dir, cs, w, token).mem;
    var path := JetCells(mem', Added(cfg, st, dir, cs, w, token));
    forall i: nat | i < |cs|
      ensures SameBounds(mem', At(cs[i]), At(path[i]))
         <==> i <= m || SameBounds(st.mem, At(cs[i]), CellAt(cfg, st, dir, cs, i))
    {
      OneBound(cfg, st, dir, cs, w, token, i);
    }
  }

  lemma AddedLength(cfg: Config, st: State, dir: nat, cs: seq<nat>, w: nat, token: int)
    requires Ready(cfg, st, dir, cs, w)
    ensures |JetCells(PackJet(cfg, st, dir, cs, w, token).mem, Added(cfg, st, dir, cs, w, token))| == |cs|
  {
    hide JetMem, SideAfter, JetRoot, Sound;
    AddedCells(cfg, st, dir, cs, w, token);
    SharedPathAbove(cfg, st, dir, cs, w);
  }

  lemma OneBound(cfg: Config, st: State, dir: nat, cs: seq<nat>, w: nat, token: int, i: nat)
    requires Ready(cfg, st, dir, cs, w) && !cfg.pruning && i < |cs|
    ensures var mem' := PackJet(cfg, st, dir, cs, w, token).mem;
            var path := JetCells(mem', Added(cfg, st, dir, cs, w, token));
            var p := CellAt(cfg, st, dir, cs, i);
            && |path| == |cs| && p == At(path[i])
            && (i <= CopiedIn(cfg, st, dir, cs) ==> SameBounds(mem', At(cs[i]), p))
            && (i > CopiedIn(cfg, st, dir, cs) ==> (SameBounds(mem', At(cs[i]), p) <==> SameBounds(st.mem, At(cs[i]), p)))
  {
    hide JetMem, SideAfter, JetRoot, Sound, SharedPath, JetCells, PackJet, Added;
    CellAtIsJetCell(cfg, st, dir, cs, w, token, i);
    var m := CopiedIn(cfg, st, dir, cs);
    if i < m {
      CopiedBounds(cfg, st, dir, cs, w, token, i);
    } else if i == m {
      SharingPointBounds(cfg, st, dir, cs, w, token);
    } else {
      SharedPathAbove(cfg, st, dir, cs, w);
      assert CellAt(cfg, st, dir, cs, i).addr in SharedPath(cfg, st, dir, cs);
      JetKeepsBounds(cfg, st, dir, cs, w, token);
    }
  }

  // ---------- Why the lists must be uniform ----------

  const EXAMPLE: Config := Config(false, true, 4)

  function ExampleCell(ty: nat, nearest: nat, next: Ptr): Cell {
    Cell(Con(Desc(ty, ty), false), nearest, 9, next, false, 0, 0)
  }

  /** Two lists of the same two connectors; the second ones differ in how near
      they may link. */
  const TWO_LISTS: seq<Cell> :=
    [ExampleCell(0, 1, At(1)), ExampleCell(1, 5, Null), ExampleCell(0, 1, At(3)), ExampleCell(1, 6, Null)]

  lemma FirstListPacked()
    ensures var st := Start(EXAMPLE, TWO_LISTS, 2, 1);
            && Ready(EXAMPLE, st, 0, [0, 1], 0)
            && CopiedIn(EXAMPLE, st, 0, [0, 1]) == 2
            && Inserted(EXAMPLE, TWO_LISTS, map[], [0, 1], 2)
                 == map[KeyAt(EXAMPLE, TWO_LISTS, [0, 1], 0) := At(4), KeyAt(EXAMPLE, TWO_LISTS, [0, 1], 1) := At(5)]
  {
    hide JetMem, JetRoot;
    var st := Start(EXAMPLE, TWO_LISTS, 2, 1);
    var cs := [0, 1];
    assert Copied(EXAMPLE, TWO_LISTS, map[], cs, 2) == 2;
    assert Copied(EXAMPLE, TWO_LISTS, map[], cs, 1) == 2;
    assert |KeyAt(EXAMPLE, TWO_LISTS, cs, 0).spell| != |KeyAt(EXAMPLE, TWO_LISTS, cs, 1).spell|;
    assert Inserted(EXAMPLE, TWO_LISTS, map[], cs, 0) == map[];
    assert Inserted(EXAMPLE, TWO_LISTS, map[], cs, 1) == map[KeyAt(EXAMPLE, TWO_LISTS, cs, 0) := At(4)];
  }

  /** Two lists as packing for pruning never leaves them: the second one is
      replaced by the packed first one, whose last connector has other bounds. */
  lemma BoundsCanBeLost()
    ensures var st := PackJet(EXAMPLE, Start(EXAMPLE, TWO_LISTS, 2, 1), 0, [0, 1], 0, 0);
            Ready(EXAMPLE, st, 0, [2, 3], 0) && !JetBoundsKept(EXAMPLE, st, 0, [2, 3], 0, 0)
  {
    hide JetMem, JetRoot;
    var st0 := Start(EXAMPLE, TWO_LISTS, 2, 1);
    FirstListPacked();
    var st := PackJet(EXAMPLE, st0, 0, [0, 1], 0, 0);
    var cs := [2, 3];
    JetSound(EXAMPLE, st0, 0, [0, 1], 0, 0);
    JetKeepsLinks(EXAMPLE, st0, 0, [0, 1], 0, 0);
    JetKeepsBounds(EXAMPLE, st0, 0, [0, 1], 0, 0);
    NewCells(EXAMPLE, st0, 0, [0, 1], 0, 0, 0);
    NewCells(EXAMPLE, st0, 0, [0, 1], 0, 0, 1);
    assert KeyAt(EXAMPLE, st.mem, cs, 0) == KeyAt(EXAMPLE, TWO_LISTS, [0, 1], 0);
    assert Sharable(EXAMPLE, st.mem, st.sides[0].tracons, cs, 0);
    SecondListShared(st);
    JetBoundsExactly(EXAMPLE, st, 0, cs, 0, 0);
  }

  lemma SecondListShared(st: State)
    requires Ready(EXAMPLE, st, 0, [2, 3], 0) && |st.mem| == 6
    requires Sharable(EXAMPLE, st.mem, st.sides[0].tracons, [2, 3], 0)
    requires st.sides[0].tracons[KeyAt(EXAMPLE, st.mem, [2, 3], 0)] == At(4)
    requires st.mem[4].next == At(5) && st.mem[5].nearestWord == 5 && st.mem[3].nearestWord == 6
    ensures !RestAgrees(EXAMPLE, st, 0, [2, 3])
  {
    var cs := [2, 3];
    assert CopiedIn(EXAMPLE, st, 0, cs) == 0;
    assert Follow(st.mem, At(5), 1) == [5];
    assert Follow(st.mem, At(4), 2) == [4, 5];
    assert CellAt(EXAMPLE, st, 0, cs, 1) == At(5);
    assert !SameBounds(st.mem, At(cs[1]), CellAt(EXAMPLE, st, 0, cs, 1));
  }

  // ---------- First connectors ----------

  /** The first connector has the bounds of the original, if there is one. */
  ghost predicate HeadKept(mem: seq<Cell>, p: Ptr, p': Ptr) {
    p.At? ==> SameBounds(mem, p, p')
  }

  ghost predicate HeadsKept(mem: seq<Cell>, d: Disjunct, d': Disjunct) {
    HeadKept(mem, d.left, d'.left) && HeadKept(mem, d.right, d'.right)
  }

  lemma HeadStays(mem: seq<Cell>, mem': seq<Cell>, p: Ptr, p': Ptr)
    requires BoundsStay(mem, mem') && HeadKept(mem, p, p')
    ensures HeadKept(mem', p, p')
  {
  }

  lemma SideHead(cfg: Config, orig: seq<Cell>, numUc: nat, length: nat, st: State, dir: nat, p: Ptr, w: nat, token: int)
    requires Extends(cfg, orig, numUc, length, st) && dir < 2 && ListOk(cfg, orig, numUc, length, p, w)
    requires Packed(cfg, st) && !cfg.pruning
    ensures var st' := PackSide(cfg, orig, numUc, length, st, dir, p, w, token);
            |st'.jets| == |st.jets| + 1 && BoundsStay(st.mem, st'.mem) && HeadKept(st'.mem, p, st'.jets[|st.jets|].root)
  {
    hide JetMem, SideAfter, JetRoot, Marks, Numbered, RefcountsOk, Reached, SharedPath, SameBounds, Sound, CellAt;
    var cs := ListAt(orig, p);
    SpellFrame(orig, st.mem, cs);
    JetKeepsBounds(cfg, st, dir, cs, w, token);
    if cs != [] {
      FirstCell(cfg, st, dir, cs, w, token);
    }
  }

  lemma FirstCell(cfg: Config, st: State, dir: nat, cs: seq<nat>, w: nat, token: int)
    requires Ready(cfg, st, dir, cs, w) && !cfg.pruning && cs != []
    ensures SameBounds(PackJet(cfg, st, dir, cs, w, token).mem, At(cs[0]), JetRoot(cfg, st.mem, st.sides[dir], cs))
  {
    hide JetMem, SideAfter, PackJet, Added, SameBounds, Sound;
    OneBound(cfg, st, dir, cs, w, token, 0);
    FirstCellIsRoot(cfg, st, dir, cs, w);
  }

  lemma FirstCellIsRoot(cfg: Config, st: State, dir: nat, cs: seq<nat>, w: nat)
    requires Ready(cfg, st, dir, cs, w) && cs != []
    ensures CellAt(cfg, st, dir, cs, 0) == JetRoot(cfg, st.mem, st.sides[dir], cs)
  {
    TailSpells(cfg, st, dir, cs, w);
    SharedPathAbove(cfg, st, dir, cs, w);
  }

  lemma DisjunctHeads(cfg: Config, orig: seq<Cell>, numUc: nat, length: nat, st: State, it: Item)
    requires Extends(cfg, orig, numUc, length, st) && ItemOk(cfg, orig, numUc, length, it)
    requires Packed(cfg, st) && !cfg.pruning
    ensures var st' := PackDisjunct(cfg, orig, numUc, length, st, it);
            && |st'.dblock| == |st.dblock| + 1 && st'.dblock[..|st.dblock|] == st.dblock
            && BoundsStay(st.mem, st'.mem) && HeadsKept(st'.mem, it.d, st'.dblock[|st.dblock|])
  {
    hide Packed, PackSide, Extends, BoundsStay, HeadKept;
    var token := TokenOf(cfg, it);
    EnterPacked(cfg, st, token);
    EnterExtends(cfg, orig, numUc, length, st, token);
    var st0 := Enter(cfg, st, token);
    var st1 := PackSide(cfg, orig, numUc, length, st0, 0, it.d.left, it.word, token);
    SideHead(cfg, orig, numUc, length, st0, 0, it.d.left, it.word, token);
    SidePacked(cfg, orig, numUc, length, st0, 0, it.d.left, it.word, token);
    var st2 := PackSide(cfg, orig, numUc, length, st1, 1, it.d.right, it.word, token);
    SideHead(cfg, orig, numUc, length, st1, 1, it.d.right, it.word, token);
    SidePacked(cfg, orig, numUc, length, st1, 1, it.d.right, it.word, token);
    HeadStays(st1.mem, st2.mem, it.d.left, st1.jets[|st0.jets|].root);
    BoundsStayTwice(st.mem, st1.mem, st2.mem);
  }

  lemma BoundsStayTwice(a: seq<Cell>, b: seq<Cell>, c: seq<Cell>)
    requires BoundsStay(a, b) && BoundsStay(b, c)
    ensures BoundsStay(a, c)
  {
  }

  /** When parsing, the first connector of every packed jet has the word bounds
      of the original. */
  lemma {:induction false} FirstBoundsKept(cfg: Config, orig: seq<Cell>, numUc: nat, length: nat, items: seq<Item>, i: nat)
    requires |orig| == cfg.base && SentenceOk(cfg, orig, numUc, length, items) && !cfg.pruning && i < |items|
    ensures var st := Pack(cfg, orig, numUc, length, items);
            |st.dblock| == |items| && HeadsKept(st.mem, items[i].d, st.dblock[i])
  {
    hide Packed, PackDisjunct, BoundsStay, HeadKept, ItemOk, DisjunctPacked;
    var n := |items| - 1;
    var st, st' := Pack(cfg, orig, numUc, length, items[..n]), Pack(cfg, orig, numUc, length, items);
    PackKeeps(cfg, orig, numUc, length, items[..n]);
    assert ItemOk(cfg, orig, numUc, length, items[n]);
    DisjunctHeads(cfg, orig, numUc, length, st, items[n]);
    if i < n {
      FirstBoundsKept(cfg, orig, numUc, length, items[..n], i);
      assert st'.dblock[i] == st'.dblock[..n][i];
      HeadStays(st.mem, st'.mem, items[i].d.left, st.dblock[i].left);
      HeadStays(st.mem, st'.mem, items[i].d.right, st.dblock[i].right);
    }
  }
}
