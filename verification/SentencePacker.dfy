/** Packing a whole sentence: count the connectors, size the block, pack word by
    word. */
module SentencePackers {
  import opened Connectors
  import opened TraconSets
  import opened PackingSpec
  import opened PackingMeaning
  import opened PackingTheorems
  import opened Packers
  import opened Probing

  function Tag(w: nat, ds: seq<Disjunct>): (items: seq<Item>)
    ensures |items| == |ds|
  {
    seq(|ds|, i requires 0 <= i < |ds| => Item(w, ds[i]))
  }

  /** The disjuncts of the first `n` words, in order. */
  function Items(words: seq<seq<Disjunct>>, n: nat): seq<Item>
    requires n <= |words|
  {
    if n == 0 then [] else Items(words, n - 1) + Tag(n - 1, words[n - 1])
  }

  /** In a sentence short enough for the one-byte stamps, the disjuncts come in
      word order. */
  lemma {:induction false} ItemsInOrder(words: seq<seq<Disjunct>>, n: nat)
    requires n <= |words| && n <= 255
    ensures InWordOrder(Items(words, n))
    ensures forall i: nat :: i < |Items(words, n)| ==> Items(words, n)[i].word < n
  {
    if n > 0 {
      ItemsInOrder(words, n - 1);
      var items, last := Items(words, n - 1), Tag(n - 1, words[n - 1]);
      assert forall i: nat :: i < |last| ==> last[i].word == n - 1;
    }
  }

  /** The packed disjuncts of word `w`, which lie together in the block. */
  ghost function WordSlice(words: seq<seq<Disjunct>>, dblock: seq<Disjunct>, w: nat): seq<Disjunct>
    requires w < |words| && |Items(words, w + 1)| <= |dblock|
  {
    dblock[|Items(words, w)|..|Items(words, w + 1)|]
  }

  lemma {:induction false} ItemsPrefix(words: seq<seq<Disjunct>>, w: nat, n: nat)
    requires w <= n <= |words|
    ensures Items(words, w) <= Items(words, n) && |Items(words, w)| <= |Items(words, n)|
  {
    if w < n { ItemsPrefix(words, w, n - 1); }
  }

  lemma OkPrefix(cfg: Config, orig: seq<Cell>, numUc: nat, length: nat, items: seq<Item>, all: seq<Item>)
    requires SentenceOk(cfg, orig, numUc, length, all) && items <= all
    ensures SentenceOk(cfg, orig, numUc, length, items)
  {
    hide ItemOk;
    forall i: nat | i < |items|
      ensures ItemOk(cfg, orig, numUc, length, items[i])
    {
      assert items[i] == all[i];
    }
  }

  lemma {:induction false} CountPrefix(cfg: Config, orig: seq<Cell>, numUc: nat, length: nat, items: seq<Item>, all: seq<Item>)
    requires SentenceOk(cfg, orig, numUc, length, all) && items <= all
    ensures SentenceOk(cfg, orig, numUc, length, items)
    ensures ConnectorCount(cfg, orig, numUc, length, items) <= ConnectorCount(cfg, orig, numUc, length, all)
  {
    hide ItemOk;
    OkPrefix(cfg, orig, numUc, length, items, all);
    if |items| < |all| {
      CountPrefix(cfg, orig, numUc, length, items, all[..|all| - 1]);
    } else {
      assert items == all;
    }
  }

  // ---------- Counting ----------

  /** Count the connectors of one list. */
  method CountList(connectors: seq<Cell>, p: Ptr) returns (n: nat)
    requires IsList(connectors, p)
    ensures n == |ListAt(connectors, p)|
  {
    ghost var cs := ListAt(connectors, p);
    n := 0;
    var c := p;
    assert cs[0..] == cs;
    while c.At?
      invariant n <= |cs| && Chain(connectors, c, cs[n..])
      decreases |cs| - n
    {
      assert cs[n..][1..] == cs[n + 1..];
      c := connectors[c.addr].next;
      n := n + 1;
    }
  }

  /** Count the connectors of one word's disjuncts. */
  method CountWord(ghost cfg: Config, connectors: seq<Cell>, ds: seq<Disjunct>, ghost w: nat, ghost numUc: nat,
                   ghost length: nat, ghost items: seq<Item>, ghost all: seq<Item>) returns (n: nat)
    requires SentenceOk(cfg, connectors, numUc, length, all) && items + Tag(w, ds) <= all
    ensures SentenceOk(cfg, connectors, numUc, length, items)
    ensures SentenceOk(cfg, connectors, numUc, length, items + Tag(w, ds))
    ensures ConnectorCount(cfg, connectors, numUc, length, items + Tag(w, ds))
         == ConnectorCount(cfg, connectors, numUc, length, items) + n
  {
    hide ItemOk;
    OkPrefix(cfg, connectors, numUc, length, items, all);
    n := 0;
    assert items + Tag(w, ds)[..0] == items;
    for i := 0 to |ds|
      invariant SentenceOk(cfg, connectors, numUc, length, items + Tag(w, ds)[..i])
      invariant ConnectorCount(cfg, connectors, numUc, length, items + Tag(w, ds)[..i])
             == ConnectorCount(cfg, connectors, numUc, length, items) + n
    {
      ghost var done, d := items + Tag(w, ds)[..i], ds[i];
      assert items + Tag(w, ds)[..i + 1] == done + [Item(w, d)];
      OkPrefix(cfg, connectors, numUc, length, done + [Item(w, d)], all);
      CountStep(cfg, connectors, numUc, length, done, Item(w, d));
      var left := CountList(connectors, ds[i].left);
      var right := CountList(connectors, ds[i].right);
      n := n + left + right;
    }
    assert Tag(w, ds)[..|ds|] == Tag(w, ds);
  }

  /** Count the connectors of a sentence. */
  method CountConnectors(ghost cfg: Config, connectors: seq<Cell>, words: seq<seq<Disjunct>>, ghost numUc: nat)
    returns (ccnt: nat)
    requires SentenceOk(cfg, connectors, numUc, |words|, Items(words, |words|))
    ensures ccnt == ConnectorCount(cfg, connectors, numUc, |words|, Items(words, |words|))
  {
    hide ItemOk;
    ccnt := 0;
    for w := 0 to |words|
      invariant SentenceOk(cfg, connectors, numUc, |words|, Items(words, w))
      invariant ccnt == ConnectorCount(cfg, connectors, numUc, |words|, Items(words, w))
    {
      ItemsPrefix(words, w + 1, |words|);
      var n := CountWord(cfg, connectors, words[w], w, numUc, |words|, Items(words, w), Items(words, |words|));
      ccnt := ccnt + n;
    }
  }

  lemma CountStep(cfg: Config, orig: seq<Cell>, numUc: nat, length: nat, items: seq<Item>, it: Item)
    requires SentenceOk(cfg, orig, numUc, length, items + [it])
    ensures SentenceOk(cfg, orig, numUc, length, items) && ItemOk(cfg, orig, numUc, length, it)
    ensures ConnectorCount(cfg, orig, numUc, length, items + [it])
         == ConnectorCount(cfg, orig, numUc, length, items) + |ListAt(orig, it.d.left)| + |ListAt(orig, it.d.right)|
  {
    hide ItemOk;
    OkPrefix(cfg, orig, numUc, length, items, items + [it]);
    assert (items + [it])[..|items|] == items && (items + [it])[|items|] == it;
    assert ItemOk(cfg, orig, numUc, length, (items + [it])[|items|]);
    ListOkBoth(cfg, orig, numUc, length, it);
  }

  lemma ListOkBoth(cfg: Config, orig: seq<Cell>, numUc: nat, length: nat, it: Item)
    requires ItemOk(cfg, orig, numUc, length, it)
    ensures IsList(orig, it.d.left) && IsList(orig, it.d.right)
  {
  }

  // ---------- Packing ----------

  /** The packer has packed `items` and has room for `all`. */
  ghost predicate Progress(p: Packer, items: seq<Item>, all: seq<Item>)
    reads p, p.mem, p.csid, p.Tables()
  {
    && p.Valid()
    && |p.orig| == p.cfg.base
    && items <= all
    && SentenceOk(p.cfg, p.orig, p.numUc, p.length, all)
    && SentenceOk(p.cfg, p.orig, p.numUc, p.length, items)
    && p.Abs() == Pack(p.cfg, p.orig, p.numUc, p.length, items)
    && |p.dblock| == |items|
    && p.cblock <= p.cfg.base + ConnectorCount(p.cfg, p.orig, p.numUc, p.length, items)
    && p.mem.Length == p.cfg.base + ConnectorCount(p.cfg, p.orig, p.numUc, p.length, all)
  }

  lemma PackStep(cfg: Config, orig: seq<Cell>, numUc: nat, length: nat, items: seq<Item>, it: Item)
    requires |orig| == cfg.base && SentenceOk(cfg, orig, numUc, length, items + [it])
    ensures SentenceOk(cfg, orig, numUc, length, items) && ItemOk(cfg, orig, numUc, length, it)
    ensures Pack(cfg, orig, numUc, length, items + [it])
         == PackDisjunct(cfg, orig, numUc, length, Pack(cfg, orig, numUc, length, items), it)
  {
    hide ItemOk, PackDisjunct;
    CountStep(cfg, orig, numUc, length, items, it);
    assert (items + [it])[..|items|] == items && (items + [it])[|items|] == it;
  }

  /** Pack the next disjunct of the sentence. */
  method PackItem(p: Packer, d: Disjunct, w: nat, ghost items: seq<Item>, ghost all: seq<Item>) returns (ok: bool)
    requires Progress(p, items, all) && items + [Item(w, d)] <= all
    modifies p, p.mem, p.csid, p.Tables()
    ensures ok ==> Progress(p, items + [Item(w, d)], all) && p.TablesKept()
    ensures ok ==> old(p.dblock) <= p.dblock
    ensures !ok ==> p.cfg.encode && p.AnyFailed()
    ensures old(p.Roomy()) ==> ok && p.Roomy()
  {
    hide ItemOk, PackDisjunct, SentenceOk, Extends;
    ghost var it := Item(w, d);
    OkPrefix(p.cfg, p.orig, p.numUc, p.length, items + [it], all);
    PackStep(p.cfg, p.orig, p.numUc, p.length, items, it);
    CountStep(p.cfg, p.orig, p.numUc, p.length, items, it);
    CountPrefix(p.cfg, p.orig, p.numUc, p.length, items + [it], all);
    ok := p.PackOne(d, w);
    if !ok { return; }
    AppendsOne(p.cfg, p.orig, p.numUc, p.length, old(p.Abs()), it);
  }

  lemma AppendsOne(cfg: Config, orig: seq<Cell>, numUc: nat, length: nat, st: State, it: Item)
    requires Extends(cfg, orig, numUc, length, st) && ItemOk(cfg, orig, numUc, length, it)
    ensures var b := PackDisjunct(cfg, orig, numUc, length, st, it).dblock;
            |b| == |st.dblock| + 1 && st.dblock <= b
  {
    hide JetMem, SideAfter, JetRoot;
  }

  /** Pack the disjuncts of word `w`. */
  method PackWord(p: Packer, ds: seq<Disjunct>, w: nat, ghost items: seq<Item>, ghost all: seq<Item>) returns (ok: bool)
    requires Progress(p, items, all) && items + Tag(w, ds) <= all
    modifies p, p.mem, p.csid, p.Tables()
    ensures ok ==> Progress(p, items + Tag(w, ds), all) && p.TablesKept()
    ensures ok ==> old(p.dblock) <= p.dblock
    ensures !ok ==> p.cfg.encode && p.AnyFailed()
    ensures old(p.Roomy()) ==> ok && p.Roomy()
  {
    hide Progress, Pack, ConnectorCount, SentenceOk;
    ok := true;
    assert items + Tag(w, ds)[..0] == items;
    for i := 0 to |ds|
      invariant ok && Progress(p, items + Tag(w, ds)[..i], all) && p.TablesKept()
      invariant old(p.dblock) <= p.dblock
      invariant old(p.Roomy()) ==> p.Roomy()
    {
      ghost var done := items + Tag(w, ds)[..i];
      assert items + Tag(w, ds)[..i + 1] == done + [Item(w, ds[i])];
      ok := PackItem(p, ds[i], w, done, all);
      if !ok { return; }
    }
    assert Tag(w, ds)[..|ds|] == Tag(w, ds);
  }

  /** A word's packed list answers its original list. */
  ghost predicate WordAnswers(connectors: seq<Cell>, ds: seq<Disjunct>, mem: seq<Cell>, ds': seq<Disjunct>) {
    |ds'| == |ds| && forall i: nat :: i < |ds| ==> ItemAnswers(connectors, ds[i], mem, ds'[i])
  }

  ghost predicate ItemAnswers(connectors: seq<Cell>, d: Disjunct, mem: seq<Cell>, d': Disjunct) {
    && d' == d.(left := d'.left, right := d'.right)
    && SameList(connectors, d.left, mem, d'.left)
    && SameList(connectors, d.right, mem, d'.right)
  }

  lemma SliceAnswers(cfg: Config, orig: seq<Cell>, numUc: nat, length: nat, all: seq<Item>, st: State,
                     ds: seq<Disjunct>, w: nat, lo: nat)
    requires Result(cfg, orig, numUc, length, all, st) && |st.dblock| == |all|
    requires lo + |ds| <= |all| && all[lo..lo + |ds|] == Tag(w, ds)
    ensures WordAnswers(orig, ds, st.mem, st.dblock[lo..lo + |ds|])
  {
    hide Result, ItemAnswers;
    forall i: nat | i < |ds|
      ensures ItemAnswers(orig, ds[i], st.mem, st.dblock[lo..lo + |ds|][i])
    {
      assert all[lo + i] == all[lo..lo + |ds|][i] == Item(w, ds[i]);
      EntryAnswers(cfg, orig, numUc, length, all, st, lo + i);
    }
  }

  lemma EntryAnswers(cfg: Config, orig: seq<Cell>, numUc: nat, length: nat, all: seq<Item>, st: State, n: nat)
    requires Result(cfg, orig, numUc, length, all, st) && n < |all| == |st.dblock|
    ensures ItemAnswers(orig, all[n].d, st.mem, st.dblock[n])
  {
    hide SentenceOk, SameList;
    MeaningPreserved(cfg, orig, numUc, length, all, n);
  }

  lemma SliceIsWord(words: seq<seq<Disjunct>>, w: nat)
    requires w < |words|
    ensures var all, lo := Items(words, |words|), |Items(words, w)|;
            |Items(words, w + 1)| == lo + |words[w]| <= |all| && all[lo..lo + |words[w]|] == Tag(w, words[w])
  {
    ItemsPrefix(words, w + 1, |words|);
    var all, part, lo := Items(words, |words|), Items(words, w + 1), |Items(words, w)|;
    assert part == all[..|part|];
    assert all[lo..|part|] == part[lo..];
  }

  /** The packed lists so far are the slices of the block. */
  ghost predicate SlicesOk(words: seq<seq<Disjunct>>, dblock: seq<Disjunct>, packed: seq<seq<Disjunct>>) {
    && |packed| <= |words|
    && forall v: nat :: v < |packed| ==> SliceOk(words, dblock, v, packed[v])
  }

  ghost predicate SliceOk(words: seq<seq<Disjunct>>, dblock: seq<Disjunct>, v: nat, ds: seq<Disjunct>)
    requires v < |words|
  {
    |Items(words, v + 1)| <= |dblock| && ds == WordSlice(words, dblock, v)
  }

  /** Pack all words, one after the other. */
  method PackWords(p: Packer, words: seq<seq<Disjunct>>) returns (ok: bool, packed: seq<seq<Disjunct>>)
    requires Progress(p, [], Items(words, |words|))
    modifies p, p.mem, p.csid, p.Tables()
    ensures ok ==> Progress(p, Items(words, |words|), Items(words, |words|))
    ensures ok ==> |packed| == |words| && SlicesOk(words, p.dblock, packed)
    ensures !ok ==> p.cfg.encode && p.AnyFailed()
    ensures old(p.Roomy()) ==> ok && p.Roomy()
  {
    hide Progress, SlicesOk;
    ghost var all := Items(words, |words|);
    ok, packed := true, [];
    NoSlices(words, p.dblock);
    for w := 0 to |words|
      invariant ok && Progress(p, Items(words, w), all) && p.TablesKept()
      invariant |packed| == w && SlicesOk(words, p.dblock, packed)
      invariant old(p.Roomy()) ==> p.Roomy()
    {
      ItemsPrefix(words, w + 1, |words|);
      ghost var before := p.dblock;
      ProgressLength(p, Items(words, w), all);
      ok := PackWord(p, words[w], w, Items(words, w), all);
      if !ok { return; }
      ProgressLength(p, Items(words, w + 1), all);
      NextSlice(words, before, p.dblock, packed);
      packed := packed + [p.dblock[|p.dblock| - |words[w]|..]];
    }
  }

  /** Pack a sentence: every word's list of disjuncts is replaced by one that
      means the same.  Not `ok` only when a table was full at the largest size or
      a search in it did not return, and never with few connectors. */
  method PackSentence(pruning: bool, connectors: seq<Cell>, words: seq<seq<Disjunct>>, numUc: nat, minLenEncoding: nat)
    returns (ok: bool, p: Packer, packed: seq<seq<Disjunct>>)
    requires SentenceOk(Config(pruning, |words| >= minLenEncoding, |connectors|), connectors, numUc, |words|,
                        Items(words, |words|))
    ensures p.cfg == Config(pruning, |words| >= minLenEncoding, |connectors|)
    ensures ok ==> p.Valid()
    ensures ok ==> p.Abs() == Pack(p.cfg, connectors, numUc, |words|, Items(words, |words|))
    ensures ok ==> |packed| == |words|
    ensures ok ==> forall w: nat :: w < |words| ==> WordAnswers(connectors, words[w], p.mem[..p.cblock], packed[w])
    ensures !ok ==> p.cfg.encode && p.AnyFailed() && p.AtOpenSize()
    ensures ConnectorCount(p.cfg, connectors, numUc, |words|, Items(words, |words|)) <= Limit(S_PRIME[3]) ==> ok
  {
    hide SentenceOk, WordAnswers, Progress, SlicesOk;
    ghost var cfg, all := Config(pruning, |words| >= minLenEncoding, |connectors|), Items(words, |words|);
    var ccnt := CountConnectors(cfg, connectors, words, numUc);
    p := new Packer(pruning, |words| >= minLenEncoding, connectors, ccnt, numUc, |words|);
    StartProgress(p, cfg, all);
    ok, packed := PackWords(p, words);
    if ok { Finished(p, words, packed); } else { p.FailedSizes(); }
  }

  lemma OneAnswers(cfg: Config, orig: seq<Cell>, words: seq<seq<Disjunct>>, numUc: nat, st: State,
                   packed: seq<seq<Disjunct>>, w: nat)
    requires Result(cfg, orig, numUc, |words|, Items(words, |words|), st)
    requires |st.dblock| == |Items(words, |words|)| && |packed| == |words| && w < |words|
    requires SlicesOk(words, st.dblock, packed)
    ensures WordAnswers(orig, words[w], st.mem, packed[w])
  {
    hide Result, WordAnswers;
    assert SliceOk(words, st.dblock, w, packed[w]);
    SliceIsWord(words, w);
    SliceAnswers(cfg, orig, numUc, |words|, Items(words, |words|), st, words[w], w, |Items(words, w)|);
  }

  /** A new packer has packed nothing and has room for all. */
  lemma StartProgress(p: Packer, cfg: Config, all: seq<Item>)
    requires p.Valid() && p.cfg == cfg && |p.orig| == cfg.base && SentenceOk(cfg, p.orig, p.numUc, p.length, all)
    requires p.Abs() == Start(cfg, p.orig, p.numUc, p.length)
    requires p.mem.Length == cfg.base + ConnectorCount(cfg, p.orig, p.numUc, p.length, all)
    ensures Progress(p, [], all)
  {
    hide SentenceOk;
    StartOfPack(cfg, p.orig, p.numUc, p.length, all);
  }

  lemma ProgressLength(p: Packer, items: seq<Item>, all: seq<Item>)
    requires Progress(p, items, all)
    ensures |p.dblock| == |items|
  {
  }

  lemma Finished(p: Packer, words: seq<seq<Disjunct>>, packed: seq<seq<Disjunct>>)
    requires Progress(p, Items(words, |words|), Items(words, |words|)) && p.length == |words| == |packed|
    requires SlicesOk(words, p.dblock, packed)
    ensures p.Valid() && |p.orig| == p.cfg.base
    ensures SentenceOk(p.cfg, p.orig, p.numUc, p.length, Items(words, |words|))
    ensures p.Abs() == Pack(p.cfg, p.orig, p.numUc, p.length, Items(words, |words|))
    ensures forall w: nat :: w < |words| ==> WordAnswers(p.orig, words[w], p.mem[..p.cblock], packed[w])
  {
    hide SentenceOk, WordAnswers, SlicesOk;
    forall w: nat | w < |words|
      ensures WordAnswers(p.orig, words[w], p.mem[..p.cblock], packed[w])
    {
      OneAnswers(p.cfg, p.orig, words, p.numUc, p.Abs(), packed, w);
    }
  }

  lemma StartOfPack(cfg: Config, orig: seq<Cell>, numUc: nat, length: nat, all: seq<Item>)
    requires |orig| == cfg.base && SentenceOk(cfg, orig, numUc, length, all)
    ensures SentenceOk(cfg, orig, numUc, length, [])
    ensures Pack(cfg, orig, numUc, length, []) == Start(cfg, orig, numUc, length)
    ensures ConnectorCount(cfg, orig, numUc, length, []) == 0
  {
  }

  lemma NoSlices(words: seq<seq<Disjunct>>, dblock: seq<Disjunct>)
    ensures SlicesOk(words, dblock, [])
  {
  }

  /** Later words do not touch the slices of earlier ones. */
  lemma NextSlice(words: seq<seq<Disjunct>>, before: seq<Disjunct>, after: seq<Disjunct>, packed: seq<seq<Disjunct>>)
    requires SlicesOk(words, before, packed) && |packed| < |words|
    requires |before| == |Items(words, |packed|)| && before <= after && |after| == |Items(words, |packed| + 1)|
    ensures |after| >= |words[|packed|]|
    ensures SlicesOk(words, after, packed + [after[|after| - |words[|packed|]|..]])
  {
    forall v: nat | v < |packed|
      ensures SliceOk(words, after, v, packed[v])
    {
      assert SliceOk(words, before, v, packed[v]);
      ItemsPrefix(words, v, v + 1);
      var lo, hi := |Items(words, v)|, |Items(words, v + 1)|;
      assert before == after[..|before|];
      assert before[lo..hi] == after[lo..hi];
    }
  }
}
