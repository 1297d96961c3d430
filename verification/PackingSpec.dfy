/** What packing a sentence does, stated jet by jet.  A jet is copied up to the
    first connector whose whole remaining sequence is already in the tracon
    table; from there on the existing cells are shared.  This module gives the
    result of each step in one piece; `Packer` computes it cell by cell. */
module PackingSpec {
  import opened Connectors
  import opened TraconSets

  /** A sentence has fewer words than this. */
  const MAX_SENTENCE: nat := 254
  /** Tracon ids below this belong to the words' null tracons. */
  const NULL_TRACON_BLOCK: nat := 256
  /** The stamp no word number has. */
  const NO_WORD: nat := 255

  /** `pruning`: packing for the pruning step, else for parsing.
      `encode`: tracons are shared.  `base`: where the packed block starts. */
  datatype Config = Config(pruning: bool, encode: bool, base: nat)

  datatype Disjunct = Disjunct(
    wordString: string,
    cost: real,
    isCategory: nat,
    gword: nat,
    ordinal: int,
    left: Ptr,
    right: Ptr)

  /** A disjunct and the word it belongs to. */
  datatype Item = Item(word: nat, d: Disjunct)

  /** Per upper-case part: the last word it was seen in.  Per word: how many
      were seen. */
  datatype UcTable = UcTable(seen: seq<nat>, count: seq<nat>)

  /** What is kept for one direction. */
  datatype Side = Side(
    tracons: map<Key, Ptr>,
    nextId: nat,
    list: seq<nat>,
    uc: UcTable)

  /** History: the direction and the token of a packed cell. */
  datatype Home = Home(dir: nat, token: int)

  /** History: a packed jet and what it was copied from. */
  datatype Jet = Jet(root: Ptr, spell: seq<Con>, dir: nat, word: nat, token: int)

  datatype State = State(
    mem: seq<Cell>,
    sides: seq<Side>,
    lastToken: int,
    dblock: seq<Disjunct>,
    home: seq<Home>,
    jets: seq<Jet>)

  // ---------- Lists as cell addresses ----------

  ghost predicate Chain(mem: seq<Cell>, p: Ptr, cs: seq<nat>)
    decreases |cs|
  {
    if cs == [] then p.Null?
    else p == At(cs[0]) && cs[0] < |mem| && Chain(mem, mem[cs[0]].next, cs[1..])
  }

  ghost predicate Below(cs: seq<nat>, bound: nat) {
    forall i: nat :: i < |cs| ==> cs[i] < bound
  }

  ghost function Spell(mem: seq<Cell>, cs: seq<nat>): (s: seq<Con>)
    requires Below(cs, |mem|)
    ensures |s| == |cs|
  {
    seq(|cs|, i requires 0 <= i < |cs| => mem[cs[i]].con)
  }

  /** The first `n` cells from `p` on. */
  ghost function Follow(mem: seq<Cell>, p: Ptr, n: nat): (cs: seq<nat>)
    ensures |cs| <= n
    decreases n
  {
    if n == 0 || p.Null? || p.addr >= |mem| then []
    else [p.addr] + Follow(mem, mem[p.addr].next, n - 1)
  }

  // ---------- One jet ----------

  ghost function KeyAt(cfg: Config, mem: seq<Cell>, cs: seq<nat>, i: nat): Key
    requires Below(cs, |mem|) && i <= |cs|
  {
    Key(Spell(mem, cs)[i..], cfg.pruning && i == 0)
  }

  /** May the jet continue with an existing tracon from its `i`th connector? */
  ghost predicate Sharable(cfg: Config, mem: seq<Cell>, tracons: map<Key, Ptr>, cs: seq<nat>, i: nat)
    requires Below(cs, |mem|) && i < |cs|
  {
    && cfg.encode
    && KeyAt(cfg, mem, cs, i) in tracons
    && (cfg.pruning || SameBounds(mem, At(cs[i]), tracons[KeyAt(cfg, mem, cs, i)]))
  }

  predicate SameBounds(mem: seq<Cell>, p: Ptr, q: Ptr) {
    && p.At? && p.addr < |mem| && q.At? && q.addr < |mem|
    && mem[p.addr].nearestWord == mem[q.addr].nearestWord
    && mem[p.addr].farthestWord == mem[q.addr].farthestWord
  }

  /** The number of connectors copied before sharing sets in. */
  ghost function Copied(cfg: Config, mem: seq<Cell>, tracons: map<Key, Ptr>, cs: seq<nat>, i: nat): (m: nat)
    requires Below(cs, |mem|) && i <= |cs|
    ensures i <= m <= |cs|
    ensures forall j: nat :: i <= j < m ==> !Sharable(cfg, mem, tracons, cs, j)
    ensures m < |cs| ==> Sharable(cfg, mem, tracons, cs, m)
    decreases |cs| - i
  {
    if i == |cs| || Sharable(cfg, mem, tracons, cs, i) then i
    else Copied(cfg, mem, tracons, cs, i + 1)
  }

  /** The cells of `path` counted once more; the shallow marks of the first `i`
      original connectors of the jet set. */
  ghost function Touched(mem: seq<Cell>, cs: seq<nat>, i: nat, path: seq<nat>): (mem': seq<Cell>)
    requires i <= |cs|
    ensures |mem'| == |mem|
  {
    seq(|mem|, a requires 0 <= a < |mem| => TouchedCell(mem[a], a, cs, i, path))
  }

  ghost function TouchedCell(c: Cell, a: nat, cs: seq<nat>, i: nat, path: seq<nat>): Cell
    requires i <= |cs|
  {
    c.(shallow := if a in cs[..i] then a == cs[0] else c.shallow,
       refcount := c.refcount + if a in path then 1 else 0)
  }

  function CopyCell(cfg: Config, o: Cell, first: bool, next: Ptr, id: nat): Cell {
    if cfg.pruning then o.(shallow := first, next := next, refcount := 1)
    else o.(shallow := first, next := next, traconId := id)
  }

  /** The copies of the first `m` connectors, the last linked to `tail`. */
  ghost function Copies(cfg: Config, mem: seq<Cell>, cs: seq<nat>, m: nat, id: nat, tail: Ptr): (s: seq<Cell>)
    requires Below(cs, |mem|) && m <= |cs|
    ensures |s| == m
  {
    seq(m, k requires 0 <= k < m =>
      CopyCell(cfg, mem[cs[k]], k == 0, if k + 1 < m then At(|mem| + k + 1) else tail, id + k))
  }

  ghost function Tail(cfg: Config, mem: seq<Cell>, tracons: map<Key, Ptr>, cs: seq<nat>): Ptr
    requires Below(cs, |mem|)
  {
    var m := Copied(cfg, mem, tracons, cs, 0);
    if m < |cs| then tracons[KeyAt(cfg, mem, cs, m)] else Null
  }

  /** The cells that get one more reference. */
  ghost function Counted(cfg: Config, mem: seq<Cell>, tracons: map<Key, Ptr>, cs: seq<nat>): seq<nat>
    requires Below(cs, |mem|)
  {
    var m := Copied(cfg, mem, tracons, cs, 0);
    if m < |cs| && cfg.pruning then Follow(mem, Tail(cfg, mem, tracons, cs), |cs| - m) else []
  }

  /** The number of original connectors whose shallow mark is set. */
  ghost function MarkCount(cfg: Config, mem: seq<Cell>, tracons: map<Key, Ptr>, cs: seq<nat>): (i: nat)
    requires Below(cs, |mem|)
    ensures i <= |cs|
  {
    var m := Copied(cfg, mem, tracons, cs, 0);
    if m < |cs| then m + 1 else m
  }

  ghost function JetMem(cfg: Config, mem: seq<Cell>, side: Side, cs: seq<nat>): (mem': seq<Cell>)
    requires Below(cs, |mem|)
    ensures |mem'| == |mem| + Copied(cfg, mem, side.tracons, cs, 0)
  {
    Touched(mem, cs, MarkCount(cfg, mem, side.tracons, cs), Counted(cfg, mem, side.tracons, cs))
      + Copies(cfg, mem, cs, Copied(cfg, mem, side.tracons, cs, 0), side.nextId, Tail(cfg, mem, side.tracons, cs))
  }

  ghost function JetRoot(cfg: Config, mem: seq<Cell>, side: Side, cs: seq<nat>): Ptr
    requires Below(cs, |mem|)
  {
    if Copied(cfg, mem, side.tracons, cs, 0) > 0 then At(|mem|) else Tail(cfg, mem, side.tracons, cs)
  }

  /** The table after the first `i` connectors have been looked up and copied. */
  ghost function Inserted(cfg: Config, mem: seq<Cell>, tracons: map<Key, Ptr>, cs: seq<nat>, i: nat): map<Key, Ptr>
    requires Below(cs, |mem|) && i <= |cs|
  {
    if i == 0 || !cfg.encode then tracons
    else
      var t := Inserted(cfg, mem, tracons, cs, i - 1);
      var k := KeyAt(cfg, mem, cs, i - 1);
      if k in t then t else t[k := At(|mem| + i - 1)]
  }

  /** `w` is compared as a number but stored in one byte. */
  function Stamp(uc: UcTable, u: nat, w: nat): UcTable
    requires u < |uc.seen| && w < |uc.count|
  {
    if uc.seen[u] != w then UcTable(uc.seen[u := w % 256], uc.count[w := uc.count[w] + 1]) else uc
  }

  predicate UcFits(uc: UcTable, s: seq<Con>, w: nat) {
    w < |uc.count| && forall i: nat :: i < |s| ==> s[i].desc.ucNum < |uc.seen|
  }

  function StampAll(uc: UcTable, s: seq<Con>, w: nat): (uc': UcTable)
    requires UcFits(uc, s, w)
    ensures |uc'.seen| == |uc.seen| && |uc'.count| == |uc.count|
  {
    if s == [] then uc
    else Stamp(StampAll(uc, s[..|s| - 1], w), s[|s| - 1].desc.ucNum, w)
  }

  /** The index entries `k, k+1, ..., k+n-1`. */
  function Run(k: nat, n: nat): (s: seq<nat>)
    ensures |s| == n && forall i: nat :: i < n ==> s[i] == k + i
  {
    seq(n, i requires 0 <= i < n => k + i)
  }

  /** One side after `i` connectors of the jet have been copied. */
  ghost function SideAfter(cfg: Config, mem: seq<Cell>, side: Side, cs: seq<nat>, w: nat, i: nat): Side
    requires Below(cs, |mem|) && i <= |cs| && cfg.base <= |mem|
    requires cfg.pruning ==> UcFits(side.uc, Spell(mem, cs), w)
  {
    Side(
      Inserted(cfg, mem, side.tracons, cs, i),
      if cfg.pruning then side.nextId else side.nextId + i,
      if cfg.pruning && cfg.encode then side.list + Run(|mem| - cfg.base, i) else side.list,
      if cfg.pruning then StampAll(side.uc, Spell(mem, cs)[..i], w) else side.uc)
  }

  /** What the code needs to be given for one jet. */
  ghost predicate JetFits(cfg: Config, st: State, dir: nat, cs: seq<nat>, w: nat) {
    && dir < |st.sides| == 2
    && cfg.base <= |st.mem|
    && Below(cs, |st.mem|)
    && (cfg.pruning ==> UcFits(st.sides[dir].uc, Spell(st.mem, cs), w))
  }

  ghost function PackJet(cfg: Config, st: State, dir: nat, cs: seq<nat>, w: nat, token: int): State
    requires JetFits(cfg, st, dir, cs, w)
  {
    var side := st.sides[dir];
    var m := Copied(cfg, st.mem, side.tracons, cs, 0);
    st.(mem := JetMem(cfg, st.mem, side, cs),
        sides := st.sides[dir := SideAfter(cfg, st.mem, side, cs, w, m)],
        home := st.home + seq(m, _ => Home(dir, token)),
        jets := st.jets + [Jet(JetRoot(cfg, st.mem, side, cs), Spell(st.mem, cs), dir, w, token)])
  }

  // ---------- Disjuncts and sentences ----------

  ghost predicate IsList(orig: seq<Cell>, p: Ptr) {
    exists cs :: Chain(orig, p, cs)
  }

  ghost function ListAt(orig: seq<Cell>, p: Ptr): (cs: seq<nat>)
    requires IsList(orig, p)
    ensures Chain(orig, p, cs) && Below(cs, |orig|)
  {
    var cs :| Chain(orig, p, cs);
    ChainBelow(orig, p, cs);
    cs
  }

  lemma ChainBelow(mem: seq<Cell>, p: Ptr, cs: seq<nat>)
    requires Chain(mem, p, cs)
    ensures Below(cs, |mem|)
    decreases |cs|
  {
    if cs != [] {
      ChainBelow(mem, mem[cs[0]].next, cs[1..]);
      assert forall i: nat :: 0 < i < |cs| ==> cs[i] == cs[1..][i - 1];
    }
  }

  /** Tracons are shared per word when pruning, else per originating gword. */
  function TokenOf(cfg: Config, it: Item): int {
    if cfg.pruning then it.word else it.d.gword
  }

  function Enter(cfg: Config, st: State, token: int): State
    requires |st.sides| == 2
  {
    if cfg.encode && token != st.lastToken then
      st.(lastToken := token,
          sides := [st.sides[0].(tracons := map[]), st.sides[1].(tracons := map[])])
    else st
  }

  ghost predicate ListOk(cfg: Config, orig: seq<Cell>, numUc: nat, length: nat, p: Ptr, w: nat) {
    IsList(orig, p) && (cfg.pruning ==> UcFits(NewUc(numUc, length), Spell(orig, ListAt(orig, p)), w))
  }

  ghost predicate ItemOk(cfg: Config, orig: seq<Cell>, numUc: nat, length: nat, it: Item) {
    ListOk(cfg, orig, numUc, length, it.d.left, it.word) && ListOk(cfg, orig, numUc, length, it.d.right, it.word)
  }

  function NewUc(numUc: nat, length: nat): UcTable {
    UcTable(seq(numUc, _ => NO_WORD), seq(length, _ => 0))
  }

  function Start(cfg: Config, orig: seq<Cell>, numUc: nat, length: nat): State {
    var side := Side(map[], if cfg.pruning then 1 else NULL_TRACON_BLOCK, [], NewUc(numUc, length));
    State(orig, [side, side], -1, [], [], [])
  }

  /** The originals keep their types and links while the block grows. */
  ghost predicate Extends(cfg: Config, orig: seq<Cell>, numUc: nat, length: nat, st: State) {
    && |orig| == cfg.base
    && SameLinks(orig, st.mem)
    && |st.sides| == 2
    && (forall d: nat :: d < 2 ==> |st.sides[d].uc.seen| == numUc && |st.sides[d].uc.count| == length)
  }

  lemma SpellFrame(mem: seq<Cell>, mem': seq<Cell>, cs: seq<nat>)
    requires SameLinks(mem, mem') && Below(cs, |mem|)
    ensures Below(cs, |mem'|) && Spell(mem', cs) == Spell(mem, cs)
  {
  }

  lemma JetMemNew(cfg: Config, mem: seq<Cell>, side: Side, cs: seq<nat>, k: nat)
    requires Below(cs, |mem|) && k < Copied(cfg, mem, side.tracons, cs, 0)
    ensures var m := Copied(cfg, mem, side.tracons, cs, 0);
            JetMem(cfg, mem, side, cs)[|mem| + k] == CopyCell(cfg, mem[cs[k]], k == 0,
              if k + 1 < m then At(|mem| + k + 1) else Tail(cfg, mem, side.tracons, cs), side.nextId + k)
  {
    hide Touched, MarkCount, Counted, Sharable, KeyAt, Tail;
  }

  lemma JetMemOld(cfg: Config, mem: seq<Cell>, side: Side, cs: seq<nat>, a: nat)
    requires Below(cs, |mem|) && a < |mem|
    ensures JetMem(cfg, mem, side, cs)[a] == TouchedCell(mem[a], a, cs,
              MarkCount(cfg, mem, side.tracons, cs), Counted(cfg, mem, side.tracons, cs))
  {
    hide MarkCount, Counted, Sharable, KeyAt, Tail, Copies, TouchedCell;
  }

  /** Packing a jet keeps all earlier cells' types and links. */
  lemma JetKeepsLinks(cfg: Config, st: State, dir: nat, cs: seq<nat>, w: nat, token: int)
    requires JetFits(cfg, st, dir, cs, w)
    ensures SameLinks(st.mem, PackJet(cfg, st, dir, cs, w, token).mem)
  {
    hide JetMem, SideAfter, JetRoot, Sharable, KeyAt, Tail;
    var m := Copied(cfg, st.mem, st.sides[dir].tracons, cs, 0);
    var mem' := PackJet(cfg, st, dir, cs, w, token).mem;
    forall a: nat | a < |st.mem|
      ensures mem'[a].con == st.mem[a].con && mem'[a].next == st.mem[a].next
    {
      OldCellLinks(cfg, st.mem, st.sides[dir], cs, a);
    }
  }

  lemma OldCellLinks(cfg: Config, mem: seq<Cell>, side: Side, cs: seq<nat>, a: nat)
    requires Below(cs, |mem|) && a < |mem|
    ensures var c := JetMem(cfg, mem, side, cs)[a]; c.con == mem[a].con && c.next == mem[a].next
  {
    hide JetMem, MarkCount, Counted, Sharable, KeyAt, Tail;
    JetMemOld(cfg, mem, side, cs, a);
  }

  /** One jet of a disjunct. */
  ghost function PackSide(cfg: Config, orig: seq<Cell>, numUc: nat, length: nat, st: State, dir: nat, p: Ptr,
                          w: nat, token: int): (st': State)
    requires Extends(cfg, orig, numUc, length, st) && dir < 2 && ListOk(cfg, orig, numUc, length, p, w)
    ensures Extends(cfg, orig, numUc, length, st')
    ensures |st'.jets| == |st.jets| + 1
  {
    hide JetMem, JetRoot;
    var cs := ListAt(orig, p);
    SpellFrame(orig, st.mem, cs);
    JetKeepsLinks(cfg, st, dir, cs, w, token);
    PackJet(cfg, st, dir, cs, w, token)
  }

  ghost function PackDisjunct(cfg: Config, orig: seq<Cell>, numUc: nat, length: nat, st: State, it: Item): (st': State)
    requires Extends(cfg, orig, numUc, length, st) && ItemOk(cfg, orig, numUc, length, it)
    ensures Extends(cfg, orig, numUc, length, st')
  {
    var token := TokenOf(cfg, it);
    var st1 := PackSide(cfg, orig, numUc, length, Enter(cfg, st, token), 0, it.d.left, it.word, token);
    var st2 := PackSide(cfg, orig, numUc, length, st1, 1, it.d.right, it.word, token);
    var n := |st2.jets|;
    st2.(dblock := st2.dblock + [it.d.(left := st2.jets[n - 2].root, right := st2.jets[n - 1].root)])
  }

  ghost predicate SentenceOk(cfg: Config, orig: seq<Cell>, numUc: nat, length: nat, items: seq<Item>) {
    forall i: nat :: i < |items| ==> ItemOk(cfg, orig, numUc, length, items[i])
  }

  /** All disjuncts of a sentence, in word order. */
  ghost function Pack(cfg: Config, orig: seq<Cell>, numUc: nat, length: nat, items: seq<Item>): (st: State)
    requires |orig| == cfg.base && SentenceOk(cfg, orig, numUc, length, items)
    ensures Extends(cfg, orig, numUc, length, st)
  {
    if items == [] then Start(cfg, orig, numUc, length)
    else
      var n := |items| - 1;
      PackDisjunct(cfg, orig, numUc, length, Pack(cfg, orig, numUc, length, items[..n]), items[n])
  }
}
