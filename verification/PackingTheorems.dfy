/** The properties of a packed sentence. */
module PackingTheorems {
  import opened Bits
  import opened Connectors
  import opened TraconSets
  import opened PackingSpec
  import opened PackingMeaning
  import opened PackingAccounts
  import opened PackingMarks
  import opened PackingUcs

  // ---------- What every step keeps ----------

  /** Every packed cell is on some jet. */
  ghost predicate Reached(cfg: Config, st: State) {
    forall a: nat :: cfg.base <= a < |st.mem| ==> Passing(st.mem, st.jets, a) > 0
  }

  ghost predicate Packed(cfg: Config, st: State) {
    Sound(cfg, st) && RefcountsOk(cfg, st) && Reached(cfg, st) && Marks(cfg, st) && Numbered(cfg, st)
  }

  lemma JetReached(cfg: Config, st: State, dir: nat, cs: seq<nat>, w: nat, token: int)
    requires Ready(cfg, st, dir, cs, w) && Reached(cfg, st)
    ensures Reached(cfg, PackJet(cfg, st, dir, cs, w, token))
  {
    hide JetMem, SideAfter, JetRoot, SharedPath;
    var st' := PackJet(cfg, st, dir, cs, w, token);
    JetKeepsLinks(cfg, st, dir, cs, w, token);
    AddedCells(cfg, st, dir, cs, w, token);
    assert st'.jets[..|st.jets|] == st.jets;
    forall a: nat | cfg.base <= a < |st'.mem|
      ensures Passing(st'.mem, st'.jets, a) > 0
    {
      PassingFrame(cfg, st.mem, st'.mem, st.jets, a);
      RunMember(|st.mem|, CopiedIn(cfg, st, dir, cs), a);
    }
  }

  ghost predicate TokenReady(cfg: Config, st: State, token: int) {
    cfg.encode ==> token == st.lastToken
  }

  lemma JetPacked(cfg: Config, st: State, dir: nat, cs: seq<nat>, w: nat, token: int)
    requires Packed(cfg, st) && JetFits(cfg, st, dir, cs, w) && Below(cs, cfg.base) && TokenReady(cfg, st, token)
    ensures Packed(cfg, PackJet(cfg, st, dir, cs, w, token))
  {
    hide PackJet, Sound, RefcountsOk, Reached, Marks, Numbered;
    JetSound(cfg, st, dir, cs, w, token);
    JetRefcounts(cfg, st, dir, cs, w, token);
    JetReached(cfg, st, dir, cs, w, token);
    JetMarks(cfg, st, dir, cs, w, token);
    JetNumbered(cfg, st, dir, cs, w, token);
  }

  lemma EnterPacked(cfg: Config, st: State, token: int)
    requires Packed(cfg, st)
    ensures Packed(cfg, Enter(cfg, st, token)) && TokenReady(cfg, Enter(cfg, st, token), token)
  {
    hide CellOk, IdsOk;
    var st' := Enter(cfg, st, token);
    forall i: nat | i < |st'.jets|
      ensures JetMarked(cfg, st', st'.jets[i])
    {
      assert JetMarked(cfg, st, st.jets[i]);
      PathSameBlock(cfg, st, st', JetCells(st.mem, st.jets[i]), Home(st.jets[i].dir, st.jets[i].token), true);
    }
    assert !cfg.pruning ==> IdsOk(cfg, st, 0) && IdsOk(cfg, st, 1);
    IdsSameBlock(cfg, st, st', 0);
    IdsSameBlock(cfg, st, st', 1);
  }

  lemma PathSameBlock(cfg: Config, st: State, st': State, path: seq<nat>, home: Home, first: bool)
    requires PathOk(cfg, st, path, home, first) && st'.mem == st.mem && st'.home == st.home
    ensures PathOk(cfg, st', path, home, first)
  {
    forall i: nat | i < |path|
      ensures CellOk(cfg, st', path[i], home, first && i == 0)
    {
      assert CellOk(cfg, st, path[i], home, first && i == 0);
    }
  }

  lemma IdsSameBlock(cfg: Config, st: State, st': State, d: nat)
    requires d < |st.sides| == |st'.sides| && st'.mem == st.mem && st'.home == st.home
    requires st'.sides[d].nextId == st.sides[d].nextId
    ensures IdsOk(cfg, st, d) ==> IdsOk(cfg, st', d)
  {
  }

  lemma SidePacked(cfg: Config, orig: seq<Cell>, numUc: nat, length: nat, st: State, dir: nat, p: Ptr, w: nat, token: int)
    requires Extends(cfg, orig, numUc, length, st) && dir < 2 && ListOk(cfg, orig, numUc, length, p, w)
    requires Packed(cfg, st) && TokenReady(cfg, st, token)
    ensures var st' := PackSide(cfg, orig, numUc, length, st, dir, p, w, token);
            Packed(cfg, st') && TokenReady(cfg, st', token)
            && st'.dblock == st.dblock
            && st'.jets == st.jets + [Jet(st'.jets[|st.jets|].root, Spell(orig, ListAt(orig, p)), dir, w, token)]
  {
    hide JetMem, SideAfter, JetRoot, Packed, Chain;
    var cs := ListAt(orig, p);
    SpellFrame(orig, st.mem, cs);
    JetPacked(cfg, st, dir, cs, w, token);
  }

  /** The two jets of a disjunct, and the disjunct in the block. */
  ghost predicate DisjunctPacked(cfg: Config, orig: seq<Cell>, it: Item, d: Disjunct, left: Jet, right: Jet) {
    && IsList(orig, it.d.left)
    && IsList(orig, it.d.right)
    && d == it.d.(left := left.root, right := right.root)
    && left == Jet(d.left, Spell(orig, ListAt(orig, it.d.left)), 0, it.word, TokenOf(cfg, it))
    && right == Jet(d.right, Spell(orig, ListAt(orig, it.d.right)), 1, it.word, TokenOf(cfg, it))
  }

  lemma DisjunctKeeps(cfg: Config, orig: seq<Cell>, numUc: nat, length: nat, st: State, it: Item)
    requires Extends(cfg, orig, numUc, length, st) && ItemOk(cfg, orig, numUc, length, it) && Packed(cfg, st)
    ensures var st' := PackDisjunct(cfg, orig, numUc, length, st, it);
            var n, m := |st.jets|, |st.dblock|;
            Packed(cfg, st') && |st'.jets| == n + 2 && st'.jets[..n] == st.jets
            && |st'.dblock| == m + 1 && st'.dblock[..m] == st.dblock
            && DisjunctPacked(cfg, orig, it, st'.dblock[m], st'.jets[n], st'.jets[n + 1])
  {
    hide Packed, PackSide, Extends;
    var token := TokenOf(cfg, it);
    assert |st.sides| == 2 by { EnterExtends(cfg, orig, numUc, length, st, token); }
    var st0 := Enter(cfg, st, token);
    EnterPacked(cfg, st, token);
    EnterExtends(cfg, orig, numUc, length, st, token);
    var st1 := PackSide(cfg, orig, numUc, length, st0, 0, it.d.left, it.word, token);
    SidePacked(cfg, orig, numUc, length, st0, 0, it.d.left, it.word, token);
    var st2 := PackSide(cfg, orig, numUc, length, st1, 1, it.d.right, it.word, token);
    SidePacked(cfg, orig, numUc, length, st1, 1, it.d.right, it.word, token);
    var n := |st.jets|;
    assert st2.jets[..n] == st.jets;
    AppendPacked(cfg, st2, PackDisjunct(cfg, orig, numUc, length, st, it));
  }

  lemma EnterExtends(cfg: Config, orig: seq<Cell>, numUc: nat, length: nat, st: State, token: int)
    requires Extends(cfg, orig, numUc, length, st)
    ensures |st.sides| == 2 && Extends(cfg, orig, numUc, length, Enter(cfg, st, token))
  {
  }

  lemma AppendPacked(cfg: Config, st: State, st': State)
    requires Packed(cfg, st) && st' == st.(dblock := st'.dblock)
    ensures Packed(cfg, st')
  {
    hide CellOk, IdsOk;
    forall i: nat | i < |st'.jets|
      ensures JetMarked(cfg, st', st'.jets[i])
    {
      assert JetMarked(cfg, st, st.jets[i]);
      PathSameBlock(cfg, st, st', JetCells(st.mem, st.jets[i]), Home(st.jets[i].dir, st.jets[i].token), true);
    }
    forall d: nat, k | d < 2 && k in st'.sides[d].tracons
      ensures TraconMarked(cfg, st', d, k, st'.sides[d].tracons[k])
    {
      assert TraconMarked(cfg, st, d, k, st.sides[d].tracons[k]);
      PathSameBlock(cfg, st, st', Follow(st.mem, st.sides[d].tracons[k], |k.spell|), Home(d, st.lastToken), k.shallow);
    }
    assert !cfg.pruning ==> IdsOk(cfg, st, 0) && IdsOk(cfg, st, 1);
    IdsSameBlock(cfg, st, st', 0);
    IdsSameBlock(cfg, st, st', 1);
  }

  lemma StartPacked(cfg: Config, orig: seq<Cell>, numUc: nat, length: nat)
    requires |orig| == cfg.base
    ensures Packed(cfg, Start(cfg, orig, numUc, length))
  {
  }

  /** The packed disjuncts answer the originals one by one. */
  ghost predicate Answers(cfg: Config, orig: seq<Cell>, numUc: nat, length: nat, items: seq<Item>, st: State)
    requires SentenceOk(cfg, orig, numUc, length, items)
  {
    && |st.dblock| == |items|
    && |st.jets| == 2 * |items|
    && forall i: nat :: i < |items| ==>
         DisjunctPacked(cfg, orig, items[i], st.dblock[i], st.jets[2 * i], st.jets[2 * i + 1])
  }

  /** All invariants hold of a packed sentence. */
  lemma {:induction false} PackKeeps(cfg: Config, orig: seq<Cell>, numUc: nat, length: nat, items: seq<Item>)
    requires |orig| == cfg.base && SentenceOk(cfg, orig, numUc, length, items)
    ensures var st := Pack(cfg, orig, numUc, length, items);
            Packed(cfg, st) && Answers(cfg, orig, numUc, length, items, st)
  {
    hide Packed, PackDisjunct, DisjunctPacked, ItemOk;
    if items == [] {
      StartPacked(cfg, orig, numUc, length);
    } else {
      var n := |items| - 1;
      var st, st' := Pack(cfg, orig, numUc, length, items[..n]), Pack(cfg, orig, numUc, length, items);
      PackKeeps(cfg, orig, numUc, length, items[..n]);
      DisjunctKeeps(cfg, orig, numUc, length, st, items[n]);
      forall i: nat | i < |items|
        ensures DisjunctPacked(cfg, orig, items[i], st'.dblock[i], st'.jets[2 * i], st'.jets[2 * i + 1])
      {
        if i < n {
          assert items[..n][i] == items[i];
          assert st'.dblock[i] == st'.dblock[..n][i];
          assert st'.jets[2 * i] == st'.jets[..2 * n][2 * i] && st'.jets[2 * i + 1] == st'.jets[..2 * n][2 * i + 1];
        }
      }
    }
  }

  // ---------- Meaning ----------

  /** Two pointers in two memories spell the same lists. */
  ghost predicate SameList(mem: seq<Cell>, p: Ptr, mem': seq<Cell>, p': Ptr) {
    forall s :: Spells(mem, p, s) <==> Spells(mem', p', s)
  }

  lemma SpellingOne(mem: seq<Cell>, p: Ptr, mem': seq<Cell>, p': Ptr, s: seq<Con>)
    requires Spells(mem, p, s) && Spells(mem', p', s)
    ensures SameList(mem, p, mem', p')
  {
    forall t
      ensures Spells(mem, p, t) <==> Spells(mem', p', t)
    {
      if Spells(mem, p, t) { SpellsUnique(mem, p, s, t); }
      if Spells(mem', p', t) { SpellsUnique(mem', p', s, t); }
    }
  }

  /** A packed sentence has the same disjuncts in the same order, with the same
      word string, cost and gword, and the same connectors left and right. */
  lemma MeaningPreserved(cfg: Config, orig: seq<Cell>, numUc: nat, length: nat, items: seq<Item>, i: nat)
    requires |orig| == cfg.base && SentenceOk(cfg, orig, numUc, length, items) && i < |items|
    ensures var st := Pack(cfg, orig, numUc, length, items);
            |st.dblock| == |items|
            && var d, d' := items[i].d, st.dblock[i];
               d' == d.(left := d'.left, right := d'.right)
               && SameList(orig, d.left, st.mem, d'.left)
               && SameList(orig, d.right, st.mem, d'.right)
  {
    hide SameList, RefcountsOk, Reached, Marks, Numbered, Closed, TraconsOk;
    var st := Pack(cfg, orig, numUc, length, items);
    PackKeeps(cfg, orig, numUc, length, items);
    var d, d' := items[i].d, st.dblock[i];
    assert JetOk(cfg, st.mem, st.jets[2 * i]) && JetOk(cfg, st.mem, st.jets[2 * i + 1]);
    ChainSpells(orig, d.left, ListAt(orig, d.left));
    ChainSpells(orig, d.right, ListAt(orig, d.right));
    SpellingOne(orig, d.left, st.mem, d'.left, st.jets[2 * i].spell);
    SpellingOne(orig, d.right, st.mem, d'.right, st.jets[2 * i + 1].spell);
  }

  // ---------- Counting ----------

  /** Packing a disjunct adds one left jet and one right jet. */
  lemma JetsAdded(cfg: Config, orig: seq<Cell>, numUc: nat, length: nat, items: seq<Item>)
    returns (jets: seq<Jet>, left: Jet, right: Jet)
    requires |orig| == cfg.base && SentenceOk(cfg, orig, numUc, length, items) && items != []
    ensures var n := |items| - 1;
            && ItemOk(cfg, orig, numUc, length, items[n])
            && jets == Pack(cfg, orig, numUc, length, items[..n]).jets
            && Pack(cfg, orig, numUc, length, items).jets == jets + [left] + [right]
            && left.spell == Spell(orig, ListAt(orig, items[n].d.left)) && left.dir == 0
            && right.spell == Spell(orig, ListAt(orig, items[n].d.right)) && right.dir == 1
            && left.word == right.word == items[n].word
  {
    hide Packed, PackDisjunct;
    var n := |items| - 1;
    var st, st' := Pack(cfg, orig, numUc, length, items[..n]), Pack(cfg, orig, numUc, length, items);
    PackKeeps(cfg, orig, numUc, length, items[..n]);
    DisjunctKeeps(cfg, orig, numUc, length, st, items[n]);
    jets, left, right := st.jets, st'.jets[|st.jets|], st'.jets[|st.jets| + 1];
  }

  /** The number of connectors of a sentence. */
  ghost function ConnectorCount(cfg: Config, orig: seq<Cell>, numUc: nat, length: nat, items: seq<Item>): nat
    requires SentenceOk(cfg, orig, numUc, length, items)
  {
    if items == [] then 0
    else
      var n := |items| - 1;
      assert ItemOk(cfg, orig, numUc, length, items[n]);
      ConnectorCount(cfg, orig, numUc, length, items[..n])
        + |ListAt(orig, items[n].d.left)| + |ListAt(orig, items[n].d.right)|
  }

  lemma {:induction false} TotalOfJets(cfg: Config, orig: seq<Cell>, numUc: nat, length: nat, items: seq<Item>)
    requires |orig| == cfg.base && SentenceOk(cfg, orig, numUc, length, items)
    ensures ConnectorTotal(Pack(cfg, orig, numUc, length, items).jets) == ConnectorCount(cfg, orig, numUc, length, items)
  {
    hide PackDisjunct;
    if items != [] {
      TotalOfJets(cfg, orig, numUc, length, items[..|items| - 1]);
      var jets, left, right := JetsAdded(cfg, orig, numUc, length, items);
      assert (jets + [left] + [right])[..|jets| + 1] == jets + [left] && (jets + [left])[..|jets|] == jets;
    }
  }

  /** Reference counts: each cell counts the jets that run through it, and
      together they count every connector of the sentence once. */
  lemma RefcountsCountConnectors(cfg: Config, orig: seq<Cell>, numUc: nat, length: nat, items: seq<Item>)
    requires |orig| == cfg.base && SentenceOk(cfg, orig, numUc, length, items) && cfg.pruning
    ensures var st := Pack(cfg, orig, numUc, length, items);
            && (forall a: nat :: cfg.base <= a < |st.mem| ==> st.mem[a].refcount == Passing(st.mem, st.jets, a) > 0)
            && RefcountSum(st.mem, cfg.base) == ConnectorCount(cfg, orig, numUc, length, items)
  {
    hide Marks, Numbered, Sound;
    PackKeeps(cfg, orig, numUc, length, items);
    TotalOfJets(cfg, orig, numUc, length, items);
    RefcountConservation(cfg, Pack(cfg, orig, numUc, length, items));
  }

  lemma SideGrowth(cfg: Config, orig: seq<Cell>, numUc: nat, length: nat, st: State, dir: nat, p: Ptr, w: nat, token: int)
    requires Extends(cfg, orig, numUc, length, st) && dir < 2 && ListOk(cfg, orig, numUc, length, p, w)
    ensures |PackSide(cfg, orig, numUc, length, st, dir, p, w, token).mem| <= |st.mem| + |ListAt(orig, p)|
  {
  }

  /** The packed block never outgrows the connector count it was sized by. */
  lemma {:induction false} BlockFits(cfg: Config, orig: seq<Cell>, numUc: nat, length: nat, items: seq<Item>)
    requires |orig| == cfg.base && SentenceOk(cfg, orig, numUc, length, items)
    ensures |Pack(cfg, orig, numUc, length, items).mem| <= cfg.base + ConnectorCount(cfg, orig, numUc, length, items)
  {
    hide PackSide;
    if items != [] {
      var n := |items| - 1;
      var st, it := Pack(cfg, orig, numUc, length, items[..n]), items[n];
      BlockFits(cfg, orig, numUc, length, items[..n]);
      var st0 := Enter(cfg, st, TokenOf(cfg, it));
      SideGrowth(cfg, orig, numUc, length, st0, 0, it.d.left, it.word, TokenOf(cfg, it));
      var st1 := PackSide(cfg, orig, numUc, length, st0, 0, it.d.left, it.word, TokenOf(cfg, it));
      SideGrowth(cfg, orig, numUc, length, st1, 1, it.d.right, it.word, TokenOf(cfg, it));
    }
  }

  // ---------- Ids, lists, marks ----------

  /** The direction and token of a cell are those of every jet through it. */
  lemma JetHome(cfg: Config, st: State, i: nat, a: nat)
    requires Packed(cfg, st) && i < |st.jets| && a in JetCells(st.mem, st.jets[i])
    ensures cfg.base <= a < |st.mem|
    ensures st.home[a - cfg.base] == Home(st.jets[i].dir, st.jets[i].token)
  {
    hide RefcountsOk, Reached, Numbered, Sound;
    assert JetMarked(cfg, st, st.jets[i]);
    var n: nat :| n < |JetCells(st.mem, st.jets[i])| && JetCells(st.mem, st.jets[i])[n] == a;
    assert CellOk(cfg, st, a, Home(st.jets[i].dir, st.jets[i].token), n == 0);
  }

  lemma {:induction false} SomeJetThrough(mem: seq<Cell>, jets: seq<Jet>, a: nat) returns (i: nat)
    requires Passing(mem, jets, a) > 0
    ensures i < |jets| && a in JetCells(mem, jets[i])
  {
    var n := |jets| - 1;
    if a in JetCells(mem, jets[n]) {
      i := n;
    } else {
      i := SomeJetThrough(mem, jets[..n], a);
    }
  }

  /** `st` is a packed sentence. */
  ghost predicate Result(cfg: Config, orig: seq<Cell>, numUc: nat, length: nat, items: seq<Item>, st: State) {
    |orig| == cfg.base && SentenceOk(cfg, orig, numUc, length, items) && st == Pack(cfg, orig, numUc, length, items)
  }

  lemma JetDirection(cfg: Config, orig: seq<Cell>, numUc: nat, length: nat, items: seq<Item>, st: State, i: nat)
    requires Result(cfg, orig, numUc, length, items, st) && i < |st.jets|
    ensures Packed(cfg, st) && st.jets[i].dir == i % 2
  {
    hide Packed, PackDisjunct;
    PackKeeps(cfg, orig, numUc, length, items);
    assert DisjunctPacked(cfg, orig, items[i / 2], st.dblock[i / 2], st.jets[2 * (i / 2)], st.jets[2 * (i / 2) + 1]);
  }

  /** Every packed cell is a left one or a right one. */
  lemma HomeDirection(cfg: Config, orig: seq<Cell>, numUc: nat, length: nat, items: seq<Item>, st: State, a: nat)
    requires Result(cfg, orig, numUc, length, items, st) && a < |st.mem| - cfg.base
    ensures a < |st.home| && st.home[a].dir < 2
  {
    hide Marks, Numbered, RefcountsOk, PackDisjunct, Result;
    assert Packed(cfg, st) by { ResultPacked(cfg, orig, numUc, length, items, st); }
    var i := SomeJetThrough(st.mem, st.jets, cfg.base + a);
    JetHome(cfg, st, i, cfg.base + a);
    JetDirection(cfg, orig, numUc, length, items, st, i);
  }

  lemma ResultPacked(cfg: Config, orig: seq<Cell>, numUc: nat, length: nat, items: seq<Item>, st: State)
    requires Result(cfg, orig, numUc, length, items, st)
    ensures Packed(cfg, st)
  {
    hide Packed, PackDisjunct;
    PackKeeps(cfg, orig, numUc, length, items);
  }

  /** When parsing, the ids of a direction run without gaps from the end of the
      null tracons' block to `nextId`, one per cell. */
  lemma TraconIdsExact(cfg: Config, orig: seq<Cell>, numUc: nat, length: nat, items: seq<Item>, st: State, d: nat)
    requires Result(cfg, orig, numUc, length, items, st) && !cfg.pruning && d < 2
    ensures |st.sides| == 2 && st.sides[d].nextId == 256 + |CellsOf(st.home, d)|
    ensures forall i: nat :: i < |CellsOf(st.home, d)| ==>
              var a := cfg.base + CellsOf(st.home, d)[i];
              a < |st.mem| && st.mem[a].traconId == 256 + i
  {
    hide Marks, RefcountsOk, Reached, Result;
    ResultPacked(cfg, orig, numUc, length, items, st);
    assert IdsOk(cfg, st, d);
  }

  lemma CellIndex(home: seq<Home>, d: nat, a: nat) returns (n: nat)
    requires a < |home| && home[a].dir == d
    ensures n < |CellsOf(home, d)| && CellsOf(home, d)[n] == a
  {
    CellsOfExact(home, d);
    n :| n < |CellsOf(home, d)| && CellsOf(home, d)[n] == a;
  }

  /** Two connectors of one direction with the same id are the same cell: they
      come from the same gword and continue alike. */
  lemma EqualIdsAgree(cfg: Config, orig: seq<Cell>, numUc: nat, length: nat, items: seq<Item>, st: State,
                      i: nat, j: nat, a: nat, b: nat)
    requires Result(cfg, orig, numUc, length, items, st) && !cfg.pruning
    requires i < |st.jets| && j < |st.jets| && st.jets[i].dir == st.jets[j].dir
    requires a in JetCells(st.mem, st.jets[i]) && b in JetCells(st.mem, st.jets[j])
    requires a < |st.mem| && b < |st.mem| && st.mem[a].traconId == st.mem[b].traconId
    ensures 256 <= st.mem[a].traconId
    ensures a == b && st.jets[i].token == st.jets[j].token
  {
    hide Packed, Result;
    JetDirection(cfg, orig, numUc, length, items, st, i);
    HomeLength(cfg, st);
    JetHome(cfg, st, i, a);
    JetHome(cfg, st, j, b);
    var d := st.jets[i].dir;
    TraconIdsExact(cfg, orig, numUc, length, items, st, d);
    var m := CellIndex(st.home, d, a - cfg.base);
    var n := CellIndex(st.home, d, b - cfg.base);
  }

  /** The ids start at the least power of two above the longest sentence. */
  lemma FirstId(cfg: Config, orig: seq<Cell>, numUc: nat, length: nat, d: nat)
    requires !cfg.pruning && d < 2
    ensures Start(cfg, orig, numUc, length).sides[d].nextId == 256
    ensures MAX_SENTENCE == 254 && PowerOfTwo(256) && forall p: nat :: PowerOfTwo(p) && p > 254 ==> p >= 256
  {
    assert Pow2(7) == 128;
    assert Pow2(8) == 256;
    forall p: nat | PowerOfTwo(p) && p > 254
      ensures p >= 256
    {
      var k: nat :| Pow2(k) == p;
      if k < 8 { Pow2Mono(k, 7); }
    }
  }

  /** When parsing, the id of a packed connector is no word's number, so it is
      never taken for the id of a word's null tracon. */
  lemma IdsAvoidWords(cfg: Config, orig: seq<Cell>, numUc: nat, length: nat, items: seq<Item>, st: State, a: nat, w: nat)
    requires Result(cfg, orig, numUc, length, items, st) && !cfg.pruning
    requires cfg.base <= a < |st.mem| && w <= length <= 254
    ensures st.mem[a].traconId != w
  {
    hide Result, Packed;
    ResultPacked(cfg, orig, numUc, length, items, st);
    HomeLength(cfg, st);
    HomeDirection(cfg, orig, numUc, length, items, st, a - cfg.base);
    var d := st.home[a - cfg.base].dir;
    TraconIdsExact(cfg, orig, numUc, length, items, st, d);
    var n := CellIndex(st.home, d, a - cfg.base);
  }

  lemma HomeLength(cfg: Config, st: State)
    requires Packed(cfg, st)
    ensures cfg.base <= |st.mem| && |st.home| == |st.mem| - cfg.base
  {
  }

  /** When packing for pruning with sharing, the two tracon lists are increasing
      and every packed cell is in exactly one of them. */
  lemma TraconListExact(cfg: Config, orig: seq<Cell>, numUc: nat, length: nat, items: seq<Item>, st: State)
    requires Result(cfg, orig, numUc, length, items, st) && cfg.pruning && cfg.encode
    ensures |st.sides| == 2 && cfg.base <= |st.mem|
    ensures forall d: nat, i: nat, j: nat :: d < 2 && i < j < |st.sides[d].list| ==>
              st.sides[d].list[i] < st.sides[d].list[j]
    ensures forall a: nat :: a < |st.mem| - cfg.base ==> (a in st.sides[0].list <==> a !in st.sides[1].list)
    ensures forall d: nat, a: nat :: d < 2 && a in st.sides[d].list ==> a < |st.mem| - cfg.base
  {
    hide Marks, RefcountsOk, Reached, Result;
    ResultPacked(cfg, orig, numUc, length, items, st);
    CellsOfExact(st.home, 0);
    CellsOfExact(st.home, 1);
    forall a: nat | a < |st.mem| - cfg.base
      ensures st.home[a].dir < 2
    {
      HomeDirection(cfg, orig, numUc, length, items, st, a);
    }
  }

  /** When packing for pruning, a cell is marked shallow exactly when it is the
      first of the jets it is on. */
  lemma ShallowIffFirst(cfg: Config, orig: seq<Cell>, numUc: nat, length: nat, items: seq<Item>, st: State,
                        i: nat, n: nat)
    requires Result(cfg, orig, numUc, length, items, st) && cfg.pruning
    requires i < |st.jets| && n < |JetCells(st.mem, st.jets[i])|
    ensures var a := JetCells(st.mem, st.jets[i])[n];
            a < |st.mem| && (st.mem[a].shallow <==> n == 0)
  {
    hide RefcountsOk, Reached, Numbered, Sound, Result;
    ResultPacked(cfg, orig, numUc, length, items, st);
    assert JetMarked(cfg, st, st.jets[i]);
    assert CellOk(cfg, st, JetCells(st.mem, st.jets[i])[n], Home(st.jets[i].dir, st.jets[i].token), n == 0);
  }

  // ---------- Upper-case parts per word ----------

  /** The different upper-case parts of word `w` in direction `d`. */
  ghost function SentenceUcs(cfg: Config, orig: seq<Cell>, numUc: nat, length: nat, items: seq<Item>, d: nat, w: nat): set<nat>
    requires SentenceOk(cfg, orig, numUc, length, items)
  {
    if items == [] then {}
    else
      var n := |items| - 1;
      assert ItemOk(cfg, orig, numUc, length, items[n]);
      SentenceUcs(cfg, orig, numUc, length, items[..n], d, w)
        + if items[n].word != w then {}
          else UcSet(Spell(orig, ListAt(orig, if d == 0 then items[n].d.left else items[n].d.right)))
  }

  /** Disjuncts come word by word, and words are numbered below the stamp that
      no word has. */
  ghost predicate InWordOrder(items: seq<Item>) {
    && (forall i: nat, j: nat :: i < j < |items| ==> items[i].word <= items[j].word)
    && (forall i: nat :: i < |items| ==> items[i].word < 255)
  }

  /** Every part starts with the one byte that no word in order has, and every
      word with no part. */
  lemma FirstStamps(cfg: Config, orig: seq<Cell>, numUc: nat, length: nat, d: nat)
    requires d < 2
    ensures var uc := Start(cfg, orig, numUc, length).sides[d].uc;
            && |uc.seen| == numUc && |uc.count| == length
            && (forall u: nat :: u < numUc ==> uc.seen[u] == 255)
            && (forall w: nat :: w < length ==> uc.count[w] == 0)
  {
  }

  ghost predicate Counting(cfg: Config, st: State, w: nat) {
    && Packed(cfg, st)
    && UcsOk(cfg, st, w)
    && (cfg.pruning ==> st.lastToken <= w)
    && (!cfg.encode ==> st.sides[0].tracons == st.sides[1].tracons == map[])
  }

  lemma EnterCounting(cfg: Config, st: State, w: nat, w': nat)
    requires Counting(cfg, st, w) && w <= w' < NO_WORD && cfg.pruning
    ensures Counting(cfg, Enter(cfg, st, w'), w')
  {
    hide Packed, UcTableOk;
    assert |st.sides| == 2 by { PackedSides(cfg, st); }
    var st' := Enter(cfg, st, w');
    EnterPacked(cfg, st, w');
    if w < w' { NextWordUcs(cfg, st', w, w'); }
  }

  lemma PackedSides(cfg: Config, st: State)
    requires Packed(cfg, st)
    ensures |st.sides| == 2 && Sound(cfg, st)
  {
  }

  lemma SideCounting(cfg: Config, orig: seq<Cell>, numUc: nat, length: nat, st: State, dir: nat, p: Ptr, w: nat)
    requires Extends(cfg, orig, numUc, length, st) && dir < 2 && ListOk(cfg, orig, numUc, length, p, w)
    requires Counting(cfg, st, w) && TokenReady(cfg, st, w) && cfg.pruning && w < NO_WORD
    ensures Counting(cfg, PackSide(cfg, orig, numUc, length, st, dir, p, w, w), w)
  {
    hide Packed, UcsOk, JetMem, JetRoot, Sound, Chain;
    var cs := ListAt(orig, p);
    SpellFrame(orig, st.mem, cs);
    PackedSides(cfg, st);
    JetUcs(cfg, st, dir, cs, w, w);
    SidePacked(cfg, orig, numUc, length, st, dir, p, w, w);
  }

  lemma DisjunctCounting(cfg: Config, orig: seq<Cell>, numUc: nat, length: nat, st: State, it: Item, w: nat)
    requires Extends(cfg, orig, numUc, length, st) && ItemOk(cfg, orig, numUc, length, it) && cfg.pruning
    requires Counting(cfg, st, w) && w <= it.word < NO_WORD
    ensures Counting(cfg, PackDisjunct(cfg, orig, numUc, length, st, it), it.word)
  {
    hide Packed, PackSide, UcsOk, Extends;
    EnterExtends(cfg, orig, numUc, length, st, it.word);
    var st0 := Enter(cfg, st, it.word);
    EnterCounting(cfg, st, w, it.word);
    EnterPacked(cfg, st, it.word);
    SideCounting(cfg, orig, numUc, length, st0, 0, it.d.left, it.word);
    var st1 := PackSide(cfg, orig, numUc, length, st0, 0, it.d.left, it.word, it.word);
    SidePacked(cfg, orig, numUc, length, st0, 0, it.d.left, it.word, it.word);
    SideCounting(cfg, orig, numUc, length, st1, 1, it.d.right, it.word);
    var st2 := PackSide(cfg, orig, numUc, length, st1, 1, it.d.right, it.word, it.word);
    AppendCounting(cfg, st2, PackDisjunct(cfg, orig, numUc, length, st, it), it.word);
  }

  lemma AppendCounting(cfg: Config, st: State, st': State, w: nat)
    requires Counting(cfg, st, w) && st' == st.(dblock := st'.dblock)
    ensures Counting(cfg, st', w)
  {
    hide Packed, UcTableOk;
    PackedSides(cfg, st);
    AppendPacked(cfg, st, st');
  }

  lemma {:induction false} PackCounting(cfg: Config, orig: seq<Cell>, numUc: nat, length: nat, items: seq<Item>)
    requires |orig| == cfg.base && SentenceOk(cfg, orig, numUc, length, items) && cfg.pruning && InWordOrder(items)
    ensures Counting(cfg, Pack(cfg, orig, numUc, length, items), if items == [] then 0 else items[|items| - 1].word)
  {
    hide Packed, PackDisjunct, Extends;
    if items == [] {
      StartPacked(cfg, orig, numUc, length);
    } else {
      var n := |items| - 1;
      var st := Pack(cfg, orig, numUc, length, items[..n]);
      PackCounting(cfg, orig, numUc, length, items[..n]);
      assert ItemOk(cfg, orig, numUc, length, items[n]);
      DisjunctCounting(cfg, orig, numUc, length, st, items[n], if n == 0 then 0 else items[n - 1].word);
    }
  }

  lemma {:induction false} JetsOfWord(cfg: Config, orig: seq<Cell>, numUc: nat, length: nat, items: seq<Item>, d: nat, w: nat)
    requires |orig| == cfg.base && SentenceOk(cfg, orig, numUc, length, items) && d < 2
    ensures WordUcs(Pack(cfg, orig, numUc, length, items).jets, d, w) == SentenceUcs(cfg, orig, numUc, length, items, d, w)
  {
    hide PackDisjunct, UcSet;
    if items != [] {
      JetsOfWord(cfg, orig, numUc, length, items[..|items| - 1], d, w);
      var jets, left, right := JetsAdded(cfg, orig, numUc, length, items);
      WordUcsAdd(jets, left, d, w);
      WordUcsAdd(jets + [left], right, d, w);
    }
  }

  /** After packing for pruning, the number kept for each word and direction is
      the number of different upper-case parts among that word's connectors. */
  lemma UcCountsExact(cfg: Config, orig: seq<Cell>, numUc: nat, length: nat, items: seq<Item>, d: nat, w: nat)
    requires |orig| == cfg.base && SentenceOk(cfg, orig, numUc, length, items) && cfg.pruning && InWordOrder(items)
    requires d < 2 && w < length
    ensures var st := Pack(cfg, orig, numUc, length, items);
            w < |st.sides[d].uc.count|
            && st.sides[d].uc.count[w] == |SentenceUcs(cfg, orig, numUc, length, items, d, w)|
  {
    hide Packed, PackDisjunct, Stamped, NoLaterStamp, SentenceUcs, TraconsSeen;
    PackCounting(cfg, orig, numUc, length, items);
    JetsOfWord(cfg, orig, numUc, length, items, d, w);
  }
}
