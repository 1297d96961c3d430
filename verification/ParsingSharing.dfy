/** What packing for parsing shares.  A tracon is compared by its word bounds at
    its first connector, with the first list that has it; so two connectors with
    the same connectors behind them are one cell when both have the bounds of that
    first one, or when they follow one cell, and not otherwise. */
module ParsingSharing {
  import opened Connectors
  import opened TraconSets
  import opened PackingSpec
  import opened PackingMeaning
  import opened PackingAccounts
  import opened PackingMarks
  import opened PackingTheorems
  import opened PackingSharing
  import opened PackingBounds
  import opened SentenceBounds

  // ---------- Runs of one token ----------

  /** The first jet of the run of equal tokens that jet `n` is in. */
  function RunStart(jets: seq<Jet>, n: nat): (lo: nat)
    requires n < |jets|
    ensures lo <= n
  {
    if n == 0 || jets[n - 1].token != jets[n].token then n else RunStart(jets, n - 1)
  }

  /** Where the run begins that a jet with `token` would continue. */
  function RunBegin(jets: seq<Jet>, token: int): (lo: nat)
    ensures lo <= |jets|
  {
    if jets == [] || jets[|jets| - 1].token != token then |jets| else RunStart(jets, |jets| - 1)
  }

  lemma {:induction false} RunStartPrefix(jets: seq<Jet>, j: Jet, n: nat)
    requires n < |jets|
    ensures RunStart(jets + [j], n) == RunStart(jets, n)
  {
    if n > 0 { RunStartPrefix(jets, j, n - 1); }
  }

  lemma RunOfAdded(jets: seq<Jet>, j: Jet)
    ensures RunStart(jets + [j], |jets|) == RunBegin(jets, j.token) == RunBegin(jets + [j], j.token)
  {
    var all, n := jets + [j], |jets|;
    assert all[n] == j && |all| == n + 1;
    assert RunBegin(all, j.token) == RunStart(all, n);
    if n > 0 {
      RunStartPrefix(jets, j, n - 1);
      assert all[n - 1] == jets[n - 1];
    }
  }

  /** The jets of a run all begin it at the same place. */
  lemma {:induction false} RunStartsAlike(jets: seq<Jet>, n: nat, m: nat)
    requires n < |jets| && RunStart(jets, n) <= m <= n
    ensures RunStart(jets, m) == RunStart(jets, n)
    decreases n
  {
    if m < n { RunStartsAlike(jets, n - 1, m); }
  }

  lemma CurrentRun(jets: seq<Jet>, token: int, n: nat)
    requires RunBegin(jets, token) <= n < |jets|
    ensures RunStart(jets, n) == RunBegin(jets, token)
  {
    RunStartsAlike(jets, |jets| - 1, n);
  }

  // ---------- The first list with a tracon ----------

  ghost predicate HasRest(j: Jet, d: nat, s: seq<Con>) {
    j.dir == d && |s| <= |j.spell| && j.spell[|j.spell| - |s|..] == s
  }

  /** Jet `n` is the first from `lo` on with the tracon `s`. */
  ghost predicate IsFirst(jets: seq<Jet>, lo: nat, d: nat, s: seq<Con>, n: nat) {
    && lo <= n < |jets|
    && HasRest(jets[n], d, s)
    && forall m: nat :: lo <= m < n ==> !HasRest(jets[m], d, s)
  }

  lemma FirstUnique(jets: seq<Jet>, lo: nat, d: nat, s: seq<Con>, n: nat, m: nat)
    requires IsFirst(jets, lo, d, s, n) && IsFirst(jets, lo, d, s, m)
    ensures n == m
  {
  }

  lemma {:induction false} FirstExists(jets: seq<Jet>, lo: nat, d: nat, s: seq<Con>, n: nat) returns (m: nat)
    requires lo <= n < |jets| && HasRest(jets[n], d, s)
    ensures m <= n && IsFirst(jets, lo, d, s, m)
    decreases n
  {
    if k: nat :| lo <= k < n && HasRest(jets[k], d, s) {
      m := FirstExists(jets, lo, d, s, k);
    } else {
      m := n;
    }
  }

  /** What remains of the `n`th jet at its `i`th connector. */
  function RestAt(j: Jet, i: nat): (s: seq<Con>)
    requires i <= |j.spell|
    ensures |s| == |j.spell| - i
  {
    j.spell[i..]
  }

  /** Jet `m` is the first of its run with the tracon at the `i`th connector of
      jet `n`. */
  ghost predicate First(jets: seq<Jet>, n: nat, i: nat, m: nat) {
    && n < |jets|
    && i < |jets[n].spell|
    && IsFirst(jets, RunStart(jets, n), jets[n].dir, RestAt(jets[n], i), m)
  }

  /** The connector of jet `m` with as much behind it as the `i`th of jet `n`. */
  function Place(jets: seq<Jet>, n: nat, i: nat, m: nat): int
    requires n < |jets| && m < |jets|
  {
    |jets[m].spell| - (|jets[n].spell| - i)
  }

  ghost predicate SameRest(jets: seq<Jet>, n: nat, i: nat, n': nat, i': nat) {
    && n < |jets| && n' < |jets|
    && i < |jets[n].spell| && i' < |jets[n'].spell|
    && RunStart(jets, n) == RunStart(jets, n')
    && jets[n].dir == jets[n'].dir
    && RestAt(jets[n], i) == RestAt(jets[n'], i')
  }

  lemma FirstOfSameRest(jets: seq<Jet>, n: nat, i: nat, n': nat, i': nat, m: nat)
    requires SameRest(jets, n, i, n', i')
    ensures First(jets, n, i, m) <==> First(jets, n', i', m)
    ensures m < |jets| ==> Place(jets, n, i, m) == Place(jets, n', i', m)
  {
  }

  lemma HasOwnRest(j: Jet, i: nat)
    requires i < |j.spell|
    ensures HasRest(j, j.dir, RestAt(j, i))
  {
  }

  lemma FirstPlace(jets: seq<Jet>, n: nat, i: nat, m: nat)
    requires First(jets, n, i, m)
    ensures 0 <= Place(jets, n, i, m) < |jets[m].spell|
    ensures RestAt(jets[m], Place(jets, n, i, m)) == RestAt(jets[n], i)
    ensures m <= n < |jets| && i < |jets[n].spell|
  {
    if m > n {
      HasOwnRest(jets[n], i);
      assert false;
    }
  }

  // ---------- What packing for parsing keeps ----------

  ghost predicate AlikeCells(mem: seq<Cell>, j: Jet, i: nat, j': Jet, i': nat) {
    && i < |JetCells(mem, j)|
    && i' < |JetCells(mem, j')|
    && SameBounds(mem, At(JetCells(mem, j)[i]), At(JetCells(mem, j')[i']))
  }

  /** Where the bounds are those of the first list, so is the cell. */
  ghost predicate JoinsFirst(mem: seq<Cell>, jets: seq<Jet>, n: nat, i: nat, m: nat) {
    First(jets, n, i, m) ==>
      var k := Place(jets, n, i, m);
      0 <= k && (AlikeCells(mem, jets[n], i, jets[m], k) ==> SameCell(mem, jets[n], i, jets[m], k))
  }

  ghost predicate FirstCell(mem: seq<Cell>, jets: seq<Jet>, n: nat, i: nat, m: nat) {
    First(jets, n, i, m) && var k := Place(jets, n, i, m); 0 <= k && SameCell(mem, jets[n], i, jets[m], k)
  }

  /** The cell is that of the first list with this tracon. */
  ghost predicate OfFirst(mem: seq<Cell>, jets: seq<Jet>, n: nat, i: nat) {
    exists m: nat :: FirstCell(mem, jets, n, i, m)
  }

  /** A cell that is not of the first list is reached from one place only. */
  ghost predicate OneWay(mem: seq<Cell>, jets: seq<Jet>, n: nat, i: nat, n': nat, i': nat) {
    n < |jets| && n' < |jets| && SameCell(mem, jets[n], i, jets[n'], i') ==>
      && SameRest(jets, n, i, n', i')
      && (OfFirst(mem, jets, n, i) || (n == n' && i == i')
          || (i > 0 && i' > 0 && SameCell(mem, jets[n], i - 1, jets[n'], i' - 1)))
  }

  ghost predicate RunsOk(mem: seq<Cell>, jets: seq<Jet>) {
    && (forall n: nat, i: nat, m: nat :: JoinsFirst(mem, jets, n, i, m))
    && (forall n: nat, i: nat, n': nat, i': nat :: OneWay(mem, jets, n, i, n', i'))
  }

  /** The table's tracon with key `k` is that of the first jet of the run. */
  ghost predicate Entry(st: State, d: nat, k: Key, p: Ptr, n: nat) {
    var lo := RunBegin(st.jets, st.lastToken);
    && k.spell != []
    && IsFirst(st.jets, lo, d, k.spell, n)
    && |JetCells(st.mem, st.jets[n])| == |st.jets[n].spell|
    && Follow(st.mem, p, |k.spell|) == JetCells(st.mem, st.jets[n])[|st.jets[n].spell| - |k.spell|..]
  }

  ghost predicate Entered(st: State, d: nat, k: Key, p: Ptr) {
    exists n: nat :: Entry(st, d, k, p, n)
  }

  ghost predicate InTable(st: State, n: nat, i: nat)
    requires |st.sides| == 2
  {
    n < |st.jets| && i < |st.jets[n].spell| ==>
      st.jets[n].dir < 2 && Key(RestAt(st.jets[n], i), false) in st.sides[st.jets[n].dir].tracons
  }

  /** The tables hold the tracons of the current run's jets, each with its first. */
  ghost predicate TablesOfRun(st: State)
    requires |st.sides| == 2
  {
    && (forall d: nat, k :: d < 2 && k in st.sides[d].tracons ==> Entered(st, d, k, st.sides[d].tracons[k]))
    && (forall n: nat, i: nat :: RunBegin(st.jets, st.lastToken) <= n ==> InTable(st, n, i))
  }

  // ---------- The next jet ----------

  ghost predicate RunsReady(cfg: Config, st: State, dir: nat, cs: seq<nat>, w: nat, token: int) {
    && Ready(cfg, st, dir, cs, w)
    && !cfg.pruning
    && cfg.encode
    && token == st.lastToken
    && TablesOfRun(st)
    && RunsOk(st.mem, st.jets)
  }

  lemma FirstPrefix(jets: seq<Jet>, j: Jet, n: nat, i: nat, m: nat)
    requires n < |jets|
    ensures First(jets + [j], n, i, m) <==> First(jets, n, i, m)
    ensures m < |jets| ==> Place(jets + [j], n, i, m) == Place(jets, n, i, m)
  {
    var all := jets + [j];
    RunStartPrefix(jets, j, n);
    assert forall x: nat :: x < |jets| ==> all[x] == jets[x];
    if First(all, n, i, m) { FirstPlace(all, n, i, m); }
  }

  /** The jet and the connector that the shared cells of the next jet are those
      of, and its tracon. */
  lemma SharedWith(cfg: Config, st: State, dir: nat, cs: seq<nat>, w: nat, token: int) returns (n: nat, k: nat)
    requires RunsReady(cfg, st, dir, cs, w, token) && CopiedIn(cfg, st, dir, cs) < |cs|
    ensures var m, s := CopiedIn(cfg, st, dir, cs), Spell(st.mem, cs);
            && IsFirst(st.jets, RunBegin(st.jets, st.lastToken), dir, s[m..], n)
            && k + (|cs| - m) == |st.jets[n].spell| == |JetCells(st.mem, st.jets[n])|
            && st.jets[n].spell[k..] == s[m..]
            && SharedPath(cfg, st, dir, cs) == JetCells(st.mem, st.jets[n])[k..]
  {
    hide Sound, RunsOk, JetCells, SharedPath, InTable;
    var m := CopiedIn(cfg, st, dir, cs);
    var key := KeyAt(cfg, st.mem, cs, m);
    SharedIsTracon(cfg, st, dir, cs);
    assert Entered(st, dir, key, st.sides[dir].tracons[key]);
    n :| Entry(st, dir, key, st.sides[dir].tracons[key], n);
    k := |st.jets[n].spell| - |key.spell|;
  }

  /** The new jet, its index and the jets with it. */
  ghost function After(cfg: Config, st: State, dir: nat, cs: seq<nat>, w: nat, token: int): seq<Jet>
    requires JetFits(cfg, st, dir, cs, w)
  {
    st.jets + [Added(cfg, st, dir, cs, w, token)]
  }

  lemma AfterJets(cfg: Config, st: State, dir: nat, cs: seq<nat>, w: nat, token: int)
    requires JetFits(cfg, st, dir, cs, w)
    ensures var jets := After(cfg, st, dir, cs, w, token);
            && PackJet(cfg, st, dir, cs, w, token).jets == jets
            && |jets| == |st.jets| + 1
            && jets[|st.jets|].spell == Spell(st.mem, cs)
            && jets[|st.jets|].dir == dir && jets[|st.jets|].token == token
            && RunStart(jets, |st.jets|) == RunBegin(st.jets, token) == RunBegin(jets, token)
  {
    hide JetMem, JetRoot, SideAfter;
    RunOfAdded(st.jets, Added(cfg, st, dir, cs, w, token));
  }

  lemma OldCellsSame(cfg: Config, st: State, dir: nat, cs: seq<nat>, w: nat, token: int, n: nat)
    requires Ready(cfg, st, dir, cs, w) && n < |st.jets|
    ensures JetCells(PackJet(cfg, st, dir, cs, w, token).mem, st.jets[n]) == JetCells(st.mem, st.jets[n])
    ensures |JetCells(st.mem, st.jets[n])| == |st.jets[n].spell|
    ensures forall i: nat :: i < |st.jets[n].spell| ==> cfg.base <= JetCells(st.mem, st.jets[n])[i] < |st.mem|
  {
    hide JetMem, JetRoot, SideAfter;
    assert JetOk(cfg, st.mem, st.jets[n]);
    JetKeepsLinks(cfg, st, dir, cs, w, token);
    JetCellsFrame(cfg, st.mem, PackJet(cfg, st, dir, cs, w, token).mem, st.jets[n]);
    forall i: nat | i < |st.jets[n].spell|
      ensures cfg.base <= JetCells(st.mem, st.jets[n])[i] < |st.mem|
    {
      JetCellsInside(cfg, st.mem, st.jets[n], JetCells(st.mem, st.jets[n])[i]);
    }
  }

  /** The cells of the new jet: new ones, then those of jet `n` from `k` on. */
  lemma NewJetCells(cfg: Config, st: State, dir: nat, cs: seq<nat>, w: nat, token: int, i: nat)
    requires Ready(cfg, st, dir, cs, w) && i < |cs|
    ensures var path := JetCells(PackJet(cfg, st, dir, cs, w, token).mem, Added(cfg, st, dir, cs, w, token));
            var m := CopiedIn(cfg, st, dir, cs);
            && |path| == |cs| && |SharedPath(cfg, st, dir, cs)| == |cs| - m
            && path[i] == if i < m then |st.mem| + i else SharedPath(cfg, st, dir, cs)[i - m]
  {
    hide JetMem, JetRoot, SideAfter, Sound, SharedPath;
    AddedCells(cfg, st, dir, cs, w, token);
    SharedPathAbove(cfg, st, dir, cs, w);
  }

  /** What follows the sharing point is what follows in jet `n`. */
  lemma Twin(cfg: Config, st: State, dir: nat, cs: seq<nat>, w: nat, token: int, i: nat, n: nat, k: nat)
    requires RunsReady(cfg, st, dir, cs, w, token) && CopiedIn(cfg, st, dir, cs) <= i < |cs|
    requires var m, s := CopiedIn(cfg, st, dir, cs), Spell(st.mem, cs);
             && RunBegin(st.jets, st.lastToken) <= n < |st.jets| && st.jets[n].dir == dir
             && k + (|cs| - m) == |st.jets[n].spell| == |JetCells(st.mem, st.jets[n])|
             && st.jets[n].spell[k..] == s[m..]
             && SharedPath(cfg, st, dir, cs) == JetCells(st.mem, st.jets[n])[k..]
    ensures var jets, mem' := After(cfg, st, dir, cs, w, token), PackJet(cfg, st, dir, cs, w, token).mem;
            var e := k + (i - CopiedIn(cfg, st, dir, cs));
            && SameRest(jets, |st.jets|, i, n, e)
            && SameCell(mem', jets[|st.jets|], i, jets[n], e)
  {
    hide JetMem, JetRoot, SideAfter, Sound, SharedPath, JetCells, RunsOk, TablesOfRun, PackJet, Added;
    var jets, m := After(cfg, st, dir, cs, w, token), CopiedIn(cfg, st, dir, cs);
    var e, s := k + (i - m), Spell(st.mem, cs);
    AfterJets(cfg, st, dir, cs, w, token);
    OldCellsSame(cfg, st, dir, cs, w, token, n);
    NewJetCells(cfg, st, dir, cs, w, token, i);
    CurrentRun(st.jets, token, n);
    RunStartPrefix(st.jets, jets[|st.jets|], n);
    assert s[i..] == s[m..][i - m..];
    assert st.jets[n].spell[e..] == st.jets[n].spell[k..][i - m..];
  }

  // ---------- Joining the first list ----------

  lemma OldJoins(cfg: Config, st: State, dir: nat, cs: seq<nat>, w: nat, token: int, n: nat, i: nat, m: nat)
    requires RunsReady(cfg, st, dir, cs, w, token) && n < |st.jets|
    ensures JoinsFirst(PackJet(cfg, st, dir, cs, w, token).mem, After(cfg, st, dir, cs, w, token), n, i, m)
  {
    hide JetMem, JetRoot, SideAfter, Sound, JetCells, TablesOfRun, PackJet, Added, First;
    var jets, mem' := After(cfg, st, dir, cs, w, token), PackJet(cfg, st, dir, cs, w, token).mem;
    if First(jets, n, i, m) {
      FirstPrefix(st.jets, jets[|st.jets|], n, i, m);
      FirstPlace(st.jets, n, i, m);
      OldCellsSame(cfg, st, dir, cs, w, token, n);
      OldCellsSame(cfg, st, dir, cs, w, token, m);
      JetKeepsBounds(cfg, st, dir, cs, w, token);
      assert JoinsFirst(st.mem, st.jets, n, i, m);
      assert m <= n by { FirstPlace(st.jets, n, i, m); }
    }
  }

  /** A tracon in the table is the cell of the jet that entered it. */
  lemma EntryIsCell(cfg: Config, st: State, d: nat, k: Key, n: nat)
    requires |st.sides| == 2 && d < 2 && k in st.sides[d].tracons && TraconsOk(cfg, st.mem, st.sides[d].tracons)
    requires Entry(st, d, k, st.sides[d].tracons[k], n)
    ensures var i := |st.jets[n].spell| - |k.spell|;
            && 0 <= i < |JetCells(st.mem, st.jets[n])|
            && st.sides[d].tracons[k] == At(JetCells(st.mem, st.jets[n])[i])
  {
    hide JetCells, IsFirst;
    var p := st.sides[d].tracons[k];
    EntryHas(st, d, k, p, n);
    var i := |st.jets[n].spell| - |k.spell|;
    assert CellFor(st.mem, p, k, cfg.pruning);
    assert Follow(st.mem, p, |k.spell|)[0] == p.addr;
    assert JetCells(st.mem, st.jets[n])[i..][0] == JetCells(st.mem, st.jets[n])[i];
  }

  lemma EntryHas(st: State, d: nat, k: Key, p: Ptr, n: nat)
    requires Entry(st, d, k, p, n)
    ensures n < |st.jets| && HasRest(st.jets[n], d, k.spell)
  {
  }

  /** No earlier jet of the run has a tracon that is not in the table. */
  lemma NotBefore(st: State, d: nat, s: seq<Con>, m: nat)
    requires |st.sides| == 2 && d < 2 && TablesOfRun(st) && s != []
    requires RunBegin(st.jets, st.lastToken) <= m < |st.jets| && HasRest(st.jets[m], d, s)
    ensures Key(s, false) in st.sides[d].tracons
  {
    var i := |st.jets[m].spell| - |s|;
    assert InTable(st, m, i);
  }

  lemma CopyJoins(cfg: Config, st: State, dir: nat, cs: seq<nat>, w: nat, token: int, i: nat, m: nat)
    requires RunsReady(cfg, st, dir, cs, w, token) && i < CopiedIn(cfg, st, dir, cs)
    ensures JoinsFirst(PackJet(cfg, st, dir, cs, w, token).mem, After(cfg, st, dir, cs, w, token), |st.jets|, i, m)
  {
    hide JetMem, JetRoot, SideAfter, Sound, JetCells, RunsOk, TablesOfRun, PackJet, Added, SharedPath, InTable;
    var jets, mem' := After(cfg, st, dir, cs, w, token), PackJet(cfg, st, dir, cs, w, token).mem;
    var n, s := |st.jets|, Spell(st.mem, cs);
    AfterJets(cfg, st, dir, cs, w, token);
    NewJetCells(cfg, st, dir, cs, w, token, i);
    if First(jets, n, i, m) {
      FirstPlace(jets, n, i, m);
      if m < n {
        assert HasRest(st.jets[m], dir, s[i..]);
        NotBefore(st, dir, s[i..], m);
        assert KeyAt(cfg, st.mem, cs, i) == Key(s[i..], false);
        CopyDiffers(cfg, st, dir, cs, w, token, i, m);
      }
    }
  }

  /** A copy that could not be shared has other bounds than the first cell. */
  lemma CopyDiffers(cfg: Config, st: State, dir: nat, cs: seq<nat>, w: nat, token: int, i: nat, m: nat)
    requires RunsReady(cfg, st, dir, cs, w, token) && i < CopiedIn(cfg, st, dir, cs) && m < |st.jets|
    requires First(After(cfg, st, dir, cs, w, token), |st.jets|, i, m)
    requires KeyAt(cfg, st.mem, cs, i) in st.sides[dir].tracons
    ensures var jets, mem' := After(cfg, st, dir, cs, w, token), PackJet(cfg, st, dir, cs, w, token).mem;
            var k := Place(jets, |st.jets|, i, m);
            0 <= k && !AlikeCells(mem', jets[|st.jets|], i, jets[m], k)
  {
    hide JetMem, JetRoot, SideAfter, JetCells, RunsOk, PackJet, Added, SharedPath, InTable;
    var jets, mem' := After(cfg, st, dir, cs, w, token), PackJet(cfg, st, dir, cs, w, token).mem;
    var key, t := KeyAt(cfg, st.mem, cs, i), st.sides[dir].tracons;
    AfterJets(cfg, st, dir, cs, w, token);
    FirstPlace(jets, |st.jets|, i, m);
    assert Entered(st, dir, key, t[key]);
    var x: nat :| Entry(st, dir, key, t[key], x);
    EntryIsCell(cfg, st, dir, key, x);
    assert x == m by { SameFirst(st.jets, jets, RunBegin(st.jets, token), dir, key.spell, x, m); }
    NewJetCells(cfg, st, dir, cs, w, token, i);
    OldCellsSame(cfg, st, dir, cs, w, token, m);
    assert !Sharable(cfg, st.mem, t, cs, i);
    CopiedBounds(cfg, st, dir, cs, w, token, i);
    JetKeepsBounds(cfg, st, dir, cs, w, token);
    assert CellAt(cfg, st, dir, cs, i) == At(|st.mem| + i);
  }

  lemma SameFirst(jets: seq<Jet>, all: seq<Jet>, lo: nat, d: nat, s: seq<Con>, n: nat, m: nat)
    requires jets <= all && m < |jets| && IsFirst(jets, lo, d, s, n) && IsFirst(all, lo, d, s, m)
    ensures n == m
  {
    assert forall x: nat :: x < |jets| ==> all[x] == jets[x];
  }

  lemma SharedJoins(cfg: Config, st: State, dir: nat, cs: seq<nat>, w: nat, token: int, i: nat, m: nat)
    requires RunsReady(cfg, st, dir, cs, w, token) && CopiedIn(cfg, st, dir, cs) <= i < |cs|
    ensures JoinsFirst(PackJet(cfg, st, dir, cs, w, token).mem, After(cfg, st, dir, cs, w, token), |st.jets|, i, m)
  {
    hide JetMem, JetRoot, SideAfter, Sound, JetCells, RunsOk, TablesOfRun, PackJet, Added, SharedPath, First, IsFirst;
    var jets, mem' := After(cfg, st, dir, cs, w, token), PackJet(cfg, st, dir, cs, w, token).mem;
    if First(jets, |st.jets|, i, m) {
      var n, k := SharedWith(cfg, st, dir, cs, w, token);
      FirstInside(st.jets, RunBegin(st.jets, st.lastToken), dir, Spell(st.mem, cs)[CopiedIn(cfg, st, dir, cs)..], n);
      Twin(cfg, st, dir, cs, w, token, i, n, k);
      var e := k + (i - CopiedIn(cfg, st, dir, cs));
      FirstPlace(jets, |st.jets|, i, m);
      FirstOfSameRest(jets, |st.jets|, i, n, e, m);
      OldJoins(cfg, st, dir, cs, w, token, n, e, m);
    }
  }

  lemma FirstInside(jets: seq<Jet>, lo: nat, d: nat, s: seq<Con>, n: nat)
    requires IsFirst(jets, lo, d, s, n)
    ensures lo <= n < |jets| && jets[n].dir == d
  {
  }

  lemma AllJoin(cfg: Config, st: State, dir: nat, cs: seq<nat>, w: nat, token: int, n: nat, i: nat, m: nat)
    requires RunsReady(cfg, st, dir, cs, w, token)
    ensures JoinsFirst(PackJet(cfg, st, dir, cs, w, token).mem, After(cfg, st, dir, cs, w, token), n, i, m)
  {
    hide JetMem, JetRoot, SideAfter, Sound, JetCells, RunsOk, TablesOfRun, PackJet, Added;
    AfterJets(cfg, st, dir, cs, w, token);
    if n < |st.jets| {
      OldJoins(cfg, st, dir, cs, w, token, n, i, m);
    } else if n == |st.jets| && i < |cs| {
      if i < CopiedIn(cfg, st, dir, cs) {
        CopyJoins(cfg, st, dir, cs, w, token, i, m);
      } else {
        SharedJoins(cfg, st, dir, cs, w, token, i, m);
      }
    }
  }

  // ---------- One way to every other cell ----------

  lemma SameCellSymmetric(mem: seq<Cell>, j: Jet, i: nat, j': Jet, i': nat)
    ensures SameCell(mem, j, i, j', i') <==> SameCell(mem, j', i', j, i)
  {
  }

  lemma SameCellChain(mem: seq<Cell>, a: Jet, i: nat, b: Jet, j: nat, c: Jet, k: nat)
    requires SameCell(mem, a, i, b, j) && SameCell(mem, b, j, c, k)
    ensures SameCell(mem, a, i, c, k)
  {
  }

  /** One cell and one remaining sequence: both or neither are of the first list. */
  lemma OfFirstAlike(mem: seq<Cell>, jets: seq<Jet>, n: nat, i: nat, n': nat, i': nat)
    requires SameRest(jets, n, i, n', i') && SameCell(mem, jets[n], i, jets[n'], i') && OfFirst(mem, jets, n', i')
    ensures OfFirst(mem, jets, n, i)
  {
    hide JetCells, First;
    var m: nat :| FirstCell(mem, jets, n', i', m);
    FirstOfSameRest(jets, n, i, n', i', m);
    FirstPlace(jets, n', i', m);
    SameCellChain(mem, jets[n], i, jets[n'], i', jets[m], Place(jets, n', i', m));
    assert FirstCell(mem, jets, n, i, m);
  }

  lemma OldSame(cfg: Config, st: State, dir: nat, cs: seq<nat>, w: nat, token: int, n: nat, i: nat, m: nat, k: nat)
    requires Ready(cfg, st, dir, cs, w) && n < |st.jets| && m < |st.jets|
    ensures SameCell(PackJet(cfg, st, dir, cs, w, token).mem, st.jets[n], i, st.jets[m], k)
       <==> SameCell(st.mem, st.jets[n], i, st.jets[m], k)
  {
    hide JetMem, JetRoot, SideAfter, Sound, JetCells, PackJet;
    OldCellsSame(cfg, st, dir, cs, w, token, n);
    OldCellsSame(cfg, st, dir, cs, w, token, m);
  }

  lemma OldOfFirst(cfg: Config, st: State, dir: nat, cs: seq<nat>, w: nat, token: int, n: nat, i: nat)
    requires Ready(cfg, st, dir, cs, w) && n < |st.jets| && OfFirst(st.mem, st.jets, n, i)
    ensures OfFirst(PackJet(cfg, st, dir, cs, w, token).mem, After(cfg, st, dir, cs, w, token), n, i)
  {
    hide JetMem, JetRoot, SideAfter, Sound, JetCells, PackJet, Added, First;
    var jets, mem' := After(cfg, st, dir, cs, w, token), PackJet(cfg, st, dir, cs, w, token).mem;
    var m: nat :| FirstCell(st.mem, st.jets, n, i, m);
    FirstPlace(st.jets, n, i, m);
    FirstPrefix(st.jets, jets[|st.jets|], n, i, m);
    OldSame(cfg, st, dir, cs, w, token, n, i, m, Place(st.jets, n, i, m));
    assert FirstCell(mem', jets, n, i, m);
  }

  lemma SameRestPrefix(jets: seq<Jet>, j: Jet, n: nat, i: nat, n': nat, i': nat)
    requires n < |jets| && n' < |jets| && SameRest(jets, n, i, n', i')
    ensures SameRest(jets + [j], n, i, n', i')
  {
    RunStartPrefix(jets, j, n);
    RunStartPrefix(jets, j, n');
  }

  lemma OldOneWay(cfg: Config, st: State, dir: nat, cs: seq<nat>, w: nat, token: int, n: nat, i: nat, n': nat, i': nat)
    requires RunsReady(cfg, st, dir, cs, w, token) && n < |st.jets| && n' < |st.jets|
    ensures OneWay(PackJet(cfg, st, dir, cs, w, token).mem, After(cfg, st, dir, cs, w, token), n, i, n', i')
  {
    hide JetMem, JetRoot, SideAfter, Sound, JetCells, TablesOfRun, PackJet, Added, SameRest, SameCell, OfFirst, JoinsFirst;
    var jets, mem' := After(cfg, st, dir, cs, w, token), PackJet(cfg, st, dir, cs, w, token).mem;
    if SameCell(mem', jets[n], i, jets[n'], i') {
      OldSame(cfg, st, dir, cs, w, token, n, i, n', i');
      assert OneWay(st.mem, st.jets, n, i, n', i');
      SameRestPrefix(st.jets, jets[|st.jets|], n, i, n', i');
      if OfFirst(st.mem, st.jets, n, i) { OldOfFirst(cfg, st, dir, cs, w, token, n, i); }
      if i > 0 && i' > 0 { OldSame(cfg, st, dir, cs, w, token, n, i - 1, n', i' - 1); }
    }
  }

  /** The new jet meets an older one only where it shares. */
  lemma MeetsShared(cfg: Config, st: State, dir: nat, cs: seq<nat>, w: nat, token: int, i: nat, n': nat, i': nat)
    requires Ready(cfg, st, dir, cs, w) && n' < |st.jets|
    requires SameCell(PackJet(cfg, st, dir, cs, w, token).mem, Added(cfg, st, dir, cs, w, token), i, st.jets[n'], i')
    ensures CopiedIn(cfg, st, dir, cs) <= i < |cs|
  {
    hide JetMem, JetRoot, SideAfter, Sound, SharedPath, PackJet;
    AddedLength(cfg, st, dir, cs, w, token);
    OldCellsSame(cfg, st, dir, cs, w, token, n');
    if i < |cs| { NewJetCells(cfg, st, dir, cs, w, token, i); }
  }

  /** At the sharing point the jet joins the first list. */
  lemma PointOfFirst(cfg: Config, st: State, dir: nat, cs: seq<nat>, w: nat, token: int, n: nat, k: nat)
    requires RunsReady(cfg, st, dir, cs, w, token) && CopiedIn(cfg, st, dir, cs) < |cs|
    requires var m, s := CopiedIn(cfg, st, dir, cs), Spell(st.mem, cs);
             && IsFirst(st.jets, RunBegin(st.jets, st.lastToken), dir, s[m..], n)
             && k + (|cs| - m) == |st.jets[n].spell| == |JetCells(st.mem, st.jets[n])|
             && st.jets[n].spell[k..] == s[m..]
             && SharedPath(cfg, st, dir, cs) == JetCells(st.mem, st.jets[n])[k..]
    ensures OfFirst(PackJet(cfg, st, dir, cs, w, token).mem, After(cfg, st, dir, cs, w, token), |st.jets|,
                    CopiedIn(cfg, st, dir, cs))
  {
    hide JetMem, JetRoot, SideAfter, Sound, JetCells, RunsOk, TablesOfRun, PackJet, Added, SharedPath;
    var jets, mem' := After(cfg, st, dir, cs, w, token), PackJet(cfg, st, dir, cs, w, token).mem;
    var m := CopiedIn(cfg, st, dir, cs);
    AfterJets(cfg, st, dir, cs, w, token);
    Twin(cfg, st, dir, cs, w, token, m, n, k);
    FirstLonger(st.jets, jets[|st.jets|], RunBegin(st.jets, st.lastToken), dir, Spell(st.mem, cs)[m..], n);
    assert First(jets, |st.jets|, m, n);
    assert Place(jets, |st.jets|, m, n) == k;
    assert FirstCell(mem', jets, |st.jets|, m, n);
  }

  lemma FirstLonger(jets: seq<Jet>, j: Jet, lo: nat, d: nat, s: seq<Con>, n: nat)
    requires IsFirst(jets, lo, d, s, n)
    ensures IsFirst(jets + [j], lo, d, s, n)
  {
    assert forall x: nat :: x < |jets| ==> (jets + [j])[x] == jets[x];
  }

  lemma NewOneWay(cfg: Config, st: State, dir: nat, cs: seq<nat>, w: nat, token: int, i: nat, n': nat, i': nat)
    requires RunsReady(cfg, st, dir, cs, w, token) && n' < |st.jets|
    ensures OneWay(PackJet(cfg, st, dir, cs, w, token).mem, After(cfg, st, dir, cs, w, token), |st.jets|, i, n', i')
  {
    hide JetMem, JetRoot, SideAfter, Sound, JetCells, TablesOfRun, PackJet, Added, SharedPath, SameCell, OfFirst, RunsOk;
    hide IsFirst;
    var jets, mem' := After(cfg, st, dir, cs, w, token), PackJet(cfg, st, dir, cs, w, token).mem;
    var N, m := |st.jets|, CopiedIn(cfg, st, dir, cs);
    AfterJets(cfg, st, dir, cs, w, token);
    if SameCell(mem', jets[N], i, jets[n'], i') {
      MeetsShared(cfg, st, dir, cs, w, token, i, n', i');
      var n, k := SharedWith(cfg, st, dir, cs, w, token);
      FirstInside(st.jets, RunBegin(st.jets, st.lastToken), dir, Spell(st.mem, cs)[m..], n);
      var e := k + (i - m);
      Twin(cfg, st, dir, cs, w, token, i, n, k);
      SameCellSymmetric(mem', jets[N], i, jets[n], e);
      SameCellChain(mem', jets[n], e, jets[N], i, jets[n'], i');
      OldOneWay(cfg, st, dir, cs, w, token, n, e, n', i');
      if i == m {
        PointOfFirst(cfg, st, dir, cs, w, token, n, k);
      } else if OfFirst(mem', jets, n, e) {
        OfFirstAlike(mem', jets, N, i, n, e);
      } else {
        Twin(cfg, st, dir, cs, w, token, i - 1, n, k);
        if n == n' && e == i' {
        } else {
          SameCellChain(mem', jets[N], i - 1, jets[n], e - 1, jets[n'], i' - 1);
        }
      }
    }
  }

  lemma SelfOneWay(cfg: Config, st: State, dir: nat, cs: seq<nat>, w: nat, token: int, i: nat, i': nat)
    requires RunsReady(cfg, st, dir, cs, w, token)
    ensures OneWay(PackJet(cfg, st, dir, cs, w, token).mem, After(cfg, st, dir, cs, w, token), |st.jets|, i, |st.jets|, i')
  {
    hide JetMem, JetRoot, SideAfter, Sound, TablesOfRun, RunsOk, PackJet;
    var jets, mem' := After(cfg, st, dir, cs, w, token), PackJet(cfg, st, dir, cs, w, token).mem;
    var j := jets[|st.jets|];
    AfterJets(cfg, st, dir, cs, w, token);
    if SameCell(mem', j, i, j, i') {
      JetSpells(cfg, st, dir, cs, w, token);
      FollowLength(mem', j.root, j.spell);
      FollowDistinct(mem', j.root, j.spell, i, i');
    }
  }

  lemma OneWayBack(mem: seq<Cell>, jets: seq<Jet>, n: nat, i: nat, n': nat, i': nat)
    requires OneWay(mem, jets, n, i, n', i')
    ensures OneWay(mem, jets, n', i', n, i)
  {
    hide JetCells, OfFirst;
    if n < |jets| && n' < |jets| && SameCell(mem, jets[n'], i', jets[n], i) {
      SameCellSymmetric(mem, jets[n], i, jets[n'], i');
      if OfFirst(mem, jets, n, i) { OfFirstAlike(mem, jets, n', i', n, i); }
    }
  }

  lemma AllOneWay(cfg: Config, st: State, dir: nat, cs: seq<nat>, w: nat, token: int, n: nat, i: nat, n': nat, i': nat)
    requires RunsReady(cfg, st, dir, cs, w, token)
    ensures OneWay(PackJet(cfg, st, dir, cs, w, token).mem, After(cfg, st, dir, cs, w, token), n, i, n', i')
  {
    hide JetMem, JetRoot, SideAfter, Sound, JetCells, TablesOfRun, RunsOk, PackJet, Added, SameCell, OfFirst;
    var jets, N := After(cfg, st, dir, cs, w, token), |st.jets|;
    assert |jets| == N + 1;
    if n < N && n' < N {
      OldOneWay(cfg, st, dir, cs, w, token, n, i, n', i');
    } else if n == N && n' < N {
      NewOneWay(cfg, st, dir, cs, w, token, i, n', i');
    } else if n < N && n' == N {
      NewOneWay(cfg, st, dir, cs, w, token, i', n, i);
      OneWayBack(PackJet(cfg, st, dir, cs, w, token).mem, jets, N, i', n, i);
    } else if n == N && n' == N {
      SelfOneWay(cfg, st, dir, cs, w, token, i, i');
    }
  }

  // ---------- The tables of the run ----------

  lemma OldEntered(cfg: Config, st: State, dir: nat, cs: seq<nat>, w: nat, token: int, d: nat, k: Key)
    requires RunsReady(cfg, st, dir, cs, w, token) && d < 2 && k in st.sides[d].tracons
    ensures Entered(PackJet(cfg, st, dir, cs, w, token), d, k, st.sides[d].tracons[k])
  {
    hide JetMem, JetRoot, SideAfter, JetCells, RunsOk, Added, InTable, IsFirst, HasRest;
    var st', p := PackJet(cfg, st, dir, cs, w, token), st.sides[d].tracons[k];
    assert Entered(st, d, k, p);
    var n: nat :| Entry(st, d, k, p, n);
    EntryHas(st, d, k, p, n);
    AfterJets(cfg, st, dir, cs, w, token);
    OldCellsSame(cfg, st, dir, cs, w, token, n);
    FirstLonger(st.jets, st'.jets[|st.jets|], RunBegin(st.jets, token), d, k.spell, n);
    JetKeepsLinks(cfg, st, dir, cs, w, token);
    assert CellFor(st.mem, p, k, cfg.pruning);
    FollowFrame(st.mem, st'.mem, p, k.spell);
    assert Entry(st', d, k, p, n);
  }

  lemma NewEntered(cfg: Config, st: State, dir: nat, cs: seq<nat>, w: nat, token: int, i: nat)
    requires RunsReady(cfg, st, dir, cs, w, token) && i < CopiedIn(cfg, st, dir, cs)
    requires KeyAt(cfg, st.mem, cs, i) !in st.sides[dir].tracons
    ensures Entered(PackJet(cfg, st, dir, cs, w, token), dir, KeyAt(cfg, st.mem, cs, i), At(|st.mem| + i))
  {
    hide JetMem, JetRoot, SideAfter, JetCells, RunsOk, TablesOfRun, SharedPath, Sound, PathAfter, Added;
    var st', s := PackJet(cfg, st, dir, cs, w, token), Spell(st.mem, cs);
    var key, N := KeyAt(cfg, st.mem, cs, i), |st.jets|;
    AfterJets(cfg, st, dir, cs, w, token);
    AddedCells(cfg, st, dir, cs, w, token);
    assert JetCells(st'.mem, Added(cfg, st, dir, cs, w, token)) == PathAfter(cfg, st, dir, cs) by { PathAfterIs(cfg, st, dir, cs); }
    NewTraconPath(cfg, st, dir, cs, w, token, i);
    forall m: nat | RunBegin(st.jets, token) <= m < N
      ensures !HasRest(st'.jets[m], dir, s[i..])
    {
      if HasRest(st.jets[m], dir, s[i..]) { NotBefore(st, dir, s[i..], m); }
    }
    assert HasRest(st'.jets[N], dir, s[i..]);
    assert Entry(st', dir, key, At(|st.mem| + i), N);
  }

  lemma NewInTable(cfg: Config, st: State, dir: nat, cs: seq<nat>, w: nat, token: int, i: nat)
    requires RunsReady(cfg, st, dir, cs, w, token) && i < |cs|
    ensures KeyAt(cfg, st.mem, cs, i) in TraconsAfter(cfg, st, dir, cs)
  {
    hide JetCells, RunsOk, SharedPath, Sound, KeyAt, Entered, HasRest;
    var m, t, key := CopiedIn(cfg, st, dir, cs), st.sides[dir].tracons, KeyAt(cfg, st.mem, cs, i);
    if i < m {
      if key in t {
        InsertedKeeps(cfg, st.mem, t, cs, m, key);
      } else {
        InsertedHas(cfg, st.mem, t, cs, i, m);
      }
    } else {
      var n, k := SharedWith(cfg, st, dir, cs, w, token);
      FirstInside(st.jets, RunBegin(st.jets, st.lastToken), dir, Spell(st.mem, cs)[m..], n);
      var e := k + (i - m);
      assert InTable(st, n, e);
      assert st.jets[n].spell[e..] == st.jets[n].spell[k..][i - m..];
      assert Spell(st.mem, cs)[i..] == Spell(st.mem, cs)[m..][i - m..];
      KeysAlike(cfg, st.mem, cs, i);
      InsertedKeeps(cfg, st.mem, t, cs, m, key);
    }
  }

  lemma OldInTable(cfg: Config, st: State, dir: nat, cs: seq<nat>, w: nat, token: int, n: nat, i: nat)
    requires RunsReady(cfg, st, dir, cs, w, token) && RunBegin(st.jets, st.lastToken) <= n < |st.jets|
    ensures var st' := PackJet(cfg, st, dir, cs, w, token); |st'.sides| == 2 && InTable(st', n, i)
  {
    hide JetMem, JetRoot, SideAfter, RunsOk, Sound, Entered, Added, PackJet, TraconsAfter;
    TablesAfter(cfg, st, dir, cs, w, token);
    assert InTable(st, n, i);
    if i < |st.jets[n].spell| && st.jets[n].dir == dir {
      KeepsKey(cfg, st, dir, cs, Key(RestAt(st.jets[n], i), false));
    }
  }

  lemma KeepsKey(cfg: Config, st: State, dir: nat, cs: seq<nat>, k: Key)
    requires Below(cs, |st.mem|) && dir < |st.sides| && k in st.sides[dir].tracons
    ensures k in TraconsAfter(cfg, st, dir, cs) && TraconsAfter(cfg, st, dir, cs)[k] == st.sides[dir].tracons[k]
  {
    InsertedKeeps(cfg, st.mem, st.sides[dir].tracons, cs, CopiedIn(cfg, st, dir, cs), k);
  }

  lemma JetTables(cfg: Config, st: State, dir: nat, cs: seq<nat>, w: nat, token: int)
    requires RunsReady(cfg, st, dir, cs, w, token)
    ensures var st' := PackJet(cfg, st, dir, cs, w, token); |st'.sides| == 2 && TablesOfRun(st')
  {
    hide JetMem, JetRoot, SideAfter, RunsOk, Sound, Entered, PackJet, InTable, TraconsAfter, KeyAt;
    var st' := PackJet(cfg, st, dir, cs, w, token);
    TablesAfter(cfg, st, dir, cs, w, token);
    AfterJets(cfg, st, dir, cs, w, token);
    forall d: nat, k | d < 2 && k in st'.sides[d].tracons
      ensures Entered(st', d, k, st'.sides[d].tracons[k])
    {
      if k in st.sides[d].tracons {
        OldEntered(cfg, st, dir, cs, w, token, d, k);
        if d == dir { KeepsKey(cfg, st, dir, cs, k); }
      } else {
        var i := NewKey(cfg, st, dir, cs, w, k);
        NewEntered(cfg, st, dir, cs, w, token, i);
      }
    }
    forall n: nat, i: nat | RunBegin(st'.jets, st'.lastToken) <= n
      ensures InTable(st', n, i)
    {
      if n < |st.jets| {
        OldInTable(cfg, st, dir, cs, w, token, n, i);
      } else {
        LastInTable(cfg, st, dir, cs, w, token, n, i);
      }
    }
  }

  lemma LastInTable(cfg: Config, st: State, dir: nat, cs: seq<nat>, w: nat, token: int, n: nat, i: nat)
    requires RunsReady(cfg, st, dir, cs, w, token) && n >= |st.jets|
    ensures var st' := PackJet(cfg, st, dir, cs, w, token); |st'.sides| == 2 && InTable(st', n, i)
  {
    hide JetMem, JetRoot, SideAfter, RunsOk, Sound, Entered, PackJet, TraconsAfter, TablesOfRun, Added;
    TablesAfter(cfg, st, dir, cs, w, token);
    AfterJets(cfg, st, dir, cs, w, token);
    if n == |st.jets| && i < |cs| {
      NewInTable(cfg, st, dir, cs, w, token, i);
      KeysAlike(cfg, st.mem, cs, i);
    }
  }

  /** Packing a jet keeps all of this. */
  lemma JetRuns(cfg: Config, st: State, dir: nat, cs: seq<nat>, w: nat, token: int)
    requires RunsReady(cfg, st, dir, cs, w, token)
    ensures var st' := PackJet(cfg, st, dir, cs, w, token);
            |st'.sides| == 2 && TablesOfRun(st') && RunsOk(st'.mem, st'.jets) && st'.lastToken == token
  {
    hide JetMem, JetRoot, SideAfter, Sound, TablesOfRun, PackJet, JoinsFirst, OneWay;
    var st' := PackJet(cfg, st, dir, cs, w, token);
    TablesAfter(cfg, st, dir, cs, w, token);
    AfterJets(cfg, st, dir, cs, w, token);
    JetTables(cfg, st, dir, cs, w, token);
    forall n: nat, i: nat, m: nat
      ensures JoinsFirst(st'.mem, st'.jets, n, i, m)
    {
      AllJoin(cfg, st, dir, cs, w, token, n, i, m);
    }
    forall n: nat, i: nat, n': nat, i': nat
      ensures OneWay(st'.mem, st'.jets, n, i, n', i')
    {
      AllOneWay(cfg, st, dir, cs, w, token, n, i, n', i');
    }
  }

  // ---------- Sentences ----------

  ghost predicate RunState(st: State) {
    && |st.sides| == 2
    && TablesOfRun(st)
    && RunsOk(st.mem, st.jets)
  }

  /** Between disjuncts the tables are those of the last jet's token. */
  ghost predicate AtRest(st: State) {
    st.jets != [] ==> st.jets[|st.jets| - 1].token == st.lastToken
  }

  lemma EnterRuns(cfg: Config, st: State, token: int)
    requires RunState(st) && AtRest(st) && cfg.encode
    ensures RunState(Enter(cfg, st, token))
  {
    hide RunsOk, InTable;
    var st' := Enter(cfg, st, token);
    if token != st.lastToken {
      assert RunBegin(st'.jets, st'.lastToken) == |st'.jets|;
      forall n: nat, i: nat | RunBegin(st'.jets, st'.lastToken) <= n
        ensures InTable(st', n, i)
      {
        NoSuchJet(st', n, i);
      }
    }
  }

  lemma NoSuchJet(st: State, n: nat, i: nat)
    requires |st.sides| == 2 && n >= |st.jets|
    ensures InTable(st, n, i)
  {
  }

  lemma SideRuns(cfg: Config, orig: seq<Cell>, numUc: nat, length: nat, st: State, dir: nat, p: Ptr, w: nat, token: int)
    requires Extends(cfg, orig, numUc, length, st) && dir < 2 && ListOk(cfg, orig, numUc, length, p, w)
    requires Packed(cfg, st) && RunState(st) && !cfg.pruning && cfg.encode && token == st.lastToken
    ensures var st' := PackSide(cfg, orig, numUc, length, st, dir, p, w, token);
            RunState(st') && AtRest(st') && st'.lastToken == token
  {
    hide JetMem, SideAfter, JetRoot, Chain, Marks, Numbered, Reached, RefcountsOk, RunsOk, TablesOfRun;
    var cs := ListAt(orig, p);
    SpellFrame(orig, st.mem, cs);
    JetRuns(cfg, st, dir, cs, w, token);
    AfterJets(cfg, st, dir, cs, w, token);
  }

  lemma AppendRuns(st: State, st': State)
    requires RunState(st) && AtRest(st) && st' == st.(dblock := st'.dblock)
    ensures RunState(st') && AtRest(st')
  {
    hide RunsOk, IsFirst, JetCells;
    forall d: nat, k | d < 2 && k in st'.sides[d].tracons
      ensures Entered(st', d, k, st'.sides[d].tracons[k])
    {
      assert Entered(st, d, k, st.sides[d].tracons[k]);
      var n: nat :| Entry(st, d, k, st.sides[d].tracons[k], n);
      assert Entry(st', d, k, st'.sides[d].tracons[k], n);
    }
    forall n: nat, i: nat | RunBegin(st'.jets, st'.lastToken) <= n
      ensures InTable(st', n, i)
    {
      assert InTable(st, n, i);
    }
  }

  lemma DisjunctRuns(cfg: Config, orig: seq<Cell>, numUc: nat, length: nat, st: State, it: Item)
    requires Extends(cfg, orig, numUc, length, st) && ItemOk(cfg, orig, numUc, length, it)
    requires Packed(cfg, st) && RunState(st) && AtRest(st) && !cfg.pruning && cfg.encode
    ensures var st' := PackDisjunct(cfg, orig, numUc, length, st, it); RunState(st') && AtRest(st')
  {
    hide Packed, PackSide, Extends, RunState, AtRest;
    var token := TokenOf(cfg, it);
    EnterExtends(cfg, orig, numUc, length, st, token);
    EnterPacked(cfg, st, token);
    EnterRuns(cfg, st, token);
    var st0 := Enter(cfg, st, token);
    var st1 := PackSide(cfg, orig, numUc, length, st0, 0, it.d.left, it.word, token);
    SidePacked(cfg, orig, numUc, length, st0, 0, it.d.left, it.word, token);
    SideRuns(cfg, orig, numUc, length, st0, 0, it.d.left, it.word, token);
    var st2 := PackSide(cfg, orig, numUc, length, st1, 1, it.d.right, it.word, token);
    SideRuns(cfg, orig, numUc, length, st1, 1, it.d.right, it.word, token);
    AppendRuns(st2, PackDisjunct(cfg, orig, numUc, length, st, it));
  }

  lemma StartRuns(cfg: Config, orig: seq<Cell>, numUc: nat, length: nat)
    ensures RunState(Start(cfg, orig, numUc, length)) && AtRest(Start(cfg, orig, numUc, length))
  {
  }

  lemma {:induction false} PackRuns(cfg: Config, orig: seq<Cell>, numUc: nat, length: nat, items: seq<Item>)
    requires |orig| == cfg.base && SentenceOk(cfg, orig, numUc, length, items) && !cfg.pruning && cfg.encode
    ensures var st := Pack(cfg, orig, numUc, length, items); RunState(st) && AtRest(st)
  {
    hide Packed, PackDisjunct, Extends, ItemOk, RunState, AtRest;
    if items == [] {
      StartRuns(cfg, orig, numUc, length);
    } else {
      var n := |items| - 1;
      var st := Pack(cfg, orig, numUc, length, items[..n]);
      PackRuns(cfg, orig, numUc, length, items[..n]);
      PackKeeps(cfg, orig, numUc, length, items[..n]);
      assert ItemOk(cfg, orig, numUc, length, items[n]);
      DisjunctRuns(cfg, orig, numUc, length, st, items[n]);
    }
  }

  // ---------- The theorem ----------

  /** The connector has the bounds of the one in the first list of its run with
      the same tracon. */
  ghost predicate LikeFirst(orig: seq<Cell>, jets: seq<Jet>, srcs: seq<Source>, n: nat, i: nat, m: nat) {
    && First(jets, n, i, m)
    && |srcs| == |jets|
    && i < |srcs[n].cs|
    && 0 <= Place(jets, n, i, m) < |srcs[m].cs|
    && SameBounds(orig, At(srcs[n].cs[i]), At(srcs[m].cs[Place(jets, n, i, m)]))
  }

  ghost predicate AsFirst(orig: seq<Cell>, jets: seq<Jet>, srcs: seq<Source>, n: nat, i: nat) {
    exists m: nat :: LikeFirst(orig, jets, srcs, n, i, m)
  }

  /** When two connectors become one cell, in terms of the lists alone: what
      remains is the same in one run and direction, and both have the bounds of
      its first list, or they are the same connector, or they follow connectors
      that become one cell. */
  ghost predicate Joined(orig: seq<Cell>, jets: seq<Jet>, srcs: seq<Source>, n: nat, i: nat, n': nat, i': nat) {
    && SameRest(jets, n, i, n', i')
    && ((AsFirst(orig, jets, srcs, n, i) && AsFirst(orig, jets, srcs, n', i'))
        || (n == n' && i == i')
        || (i > 0 && i' > 0 && Joined(orig, jets, srcs, n, i - 1, n', i' - 1)))
  }

  /** `st` is a sentence packed for parsing with sharing that keeps all bounds. */
  ghost predicate UniformResult(cfg: Config, orig: seq<Cell>, numUc: nat, length: nat, items: seq<Item>, st: State) {
    && Result(cfg, orig, numUc, length, items, st)
    && !cfg.pruning && cfg.encode
    && Uniform(orig, Sources(cfg, orig, numUc, length, items))
  }

  /** What is needed of such a sentence. */
  ghost predicate Settled(orig: seq<Cell>, st: State, srcs: seq<Source>) {
    && RunsOk(st.mem, st.jets)
    && BoundsStay(orig, st.mem)
    && Sourced(orig, srcs, st.jets)
    && AllKept(st, srcs)
  }

  lemma ResultSettled(cfg: Config, orig: seq<Cell>, numUc: nat, length: nat, items: seq<Item>, st: State)
    requires UniformResult(cfg, orig, numUc, length, items, st)
    ensures SentenceOk(cfg, orig, numUc, length, items)
    ensures Settled(orig, st, Sources(cfg, orig, numUc, length, items))
  {
    hide Uniform, Provenance, TablesOfRun, RunsOk, BoundsStay, Sourced, AllKept, SentenceOk;
    PackRuns(cfg, orig, numUc, length, items);
    PackAllKept(cfg, orig, numUc, length, items);
  }

  /** The cells of two connectors agree in their bounds as the originals do. */
  lemma BoundsAgree(orig: seq<Cell>, st: State, srcs: seq<Source>, n: nat, i: nat, m: nat, k: nat)
    requires Settled(orig, st, srcs) && n < |srcs| && m < |srcs| && i < |srcs[n].cs| && k < |srcs[m].cs|
    ensures AlikeCells(st.mem, st.jets[n], i, st.jets[m], k)
       <==> SameBounds(orig, At(srcs[n].cs[i]), At(srcs[m].cs[k]))
  {
    hide RunsOk, JetCells;
    assert PathBounds(st.mem, srcs[n].cs, JetCells(st.mem, st.jets[n]));
    assert PathBounds(st.mem, srcs[m].cs, JetCells(st.mem, st.jets[m]));
    assert SameBounds(st.mem, At(srcs[n].cs[i]), At(JetCells(st.mem, st.jets[n])[i]));
    assert SameBounds(st.mem, At(srcs[m].cs[k]), At(JetCells(st.mem, st.jets[m])[k]));
    assert SourceOf(orig, srcs[n], st.jets[n]) && SourceOf(orig, srcs[m], st.jets[m]);
  }

  lemma SourceLength(orig: seq<Cell>, st: State, srcs: seq<Source>, n: nat)
    requires Settled(orig, st, srcs) && n < |st.jets|
    ensures |srcs| == |st.jets| && |srcs[n].cs| == |st.jets[n].spell| == |JetCells(st.mem, st.jets[n])|
  {
    hide RunsOk, JetCells;
    assert SourceOf(orig, srcs[n], st.jets[n]);
    assert PathBounds(st.mem, srcs[n].cs, JetCells(st.mem, st.jets[n]));
  }

  /** The bounds of the first list decide whether the cell is its cell. */
  lemma FirstByBounds(orig: seq<Cell>, st: State, srcs: seq<Source>, n: nat, i: nat, m: nat)
    requires Settled(orig, st, srcs) && First(st.jets, n, i, m)
    ensures LikeFirst(orig, st.jets, srcs, n, i, m) <==> FirstCell(st.mem, st.jets, n, i, m)
  {
    hide JetCells, OneWay, Sourced, AllKept, BoundsStay, First;
    FirstPlace(st.jets, n, i, m);
    SourceLength(orig, st, srcs, n);
    SourceLength(orig, st, srcs, m);
    var k := Place(st.jets, n, i, m);
    BoundsAgree(orig, st, srcs, n, i, m, k);
    assert JoinsFirst(st.mem, st.jets, n, i, m);
    if SameCell(st.mem, st.jets[n], i, st.jets[m], k) { CellInside(orig, st, srcs, n, i); }
  }

  lemma CellInside(orig: seq<Cell>, st: State, srcs: seq<Source>, n: nat, i: nat)
    requires Settled(orig, st, srcs) && n < |st.jets| && i < |st.jets[n].spell|
    ensures i < |JetCells(st.mem, st.jets[n])| && JetCells(st.mem, st.jets[n])[i] < |st.mem|
  {
    hide RunsOk, JetCells;
    SourceLength(orig, st, srcs, n);
    assert PathBounds(st.mem, srcs[n].cs, JetCells(st.mem, st.jets[n]));
    assert SameBounds(st.mem, At(srcs[n].cs[i]), At(JetCells(st.mem, st.jets[n])[i]));
  }

  lemma AsFirstIs(orig: seq<Cell>, st: State, srcs: seq<Source>, n: nat, i: nat)
    requires Settled(orig, st, srcs)
    ensures AsFirst(orig, st.jets, srcs, n, i) <==> OfFirst(st.mem, st.jets, n, i)
  {
    hide Settled, JetCells;
    if AsFirst(orig, st.jets, srcs, n, i) {
      var m: nat :| LikeFirst(orig, st.jets, srcs, n, i, m);
      FirstByBounds(orig, st, srcs, n, i, m);
    }
    if OfFirst(st.mem, st.jets, n, i) {
      var m: nat :| FirstCell(st.mem, st.jets, n, i, m);
      FirstByBounds(orig, st, srcs, n, i, m);
    }
  }

  /** Both are the cell of the one first list. */
  lemma BothOfFirst(mem: seq<Cell>, jets: seq<Jet>, n: nat, i: nat, n': nat, i': nat)
    requires SameRest(jets, n, i, n', i') && OfFirst(mem, jets, n, i) && OfFirst(mem, jets, n', i')
    ensures SameCell(mem, jets[n], i, jets[n'], i')
  {
    hide JetCells;
    var m: nat :| FirstCell(mem, jets, n, i, m);
    var m': nat :| FirstCell(mem, jets, n', i', m');
    FirstOfSameRest(jets, n, i, n', i', m');
    FirstUnique(jets, RunStart(jets, n), jets[n].dir, RestAt(jets[n], i), m, m');
  }

  /** Cells that follow one cell are one cell. */
  lemma {:induction false} FollowStep(mem: seq<Cell>, p: Ptr, len: nat, i: nat)
    requires i + 1 < |Follow(mem, p, len)|
    ensures var path := Follow(mem, p, len); path[i] < |mem| && mem[path[i]].next == At(path[i + 1])
    decreases len
  {
    if i > 0 { FollowStep(mem, mem[p.addr].next, len - 1, i - 1); }
  }

  lemma NextOfSame(orig: seq<Cell>, st: State, srcs: seq<Source>, n: nat, i: nat, n': nat, i': nat)
    requires Settled(orig, st, srcs) && SameRest(st.jets, n, i, n', i') && i > 0 && i' > 0
    requires SameCell(st.mem, st.jets[n], i - 1, st.jets[n'], i' - 1)
    ensures SameCell(st.mem, st.jets[n], i, st.jets[n'], i')
  {
    SourceLength(orig, st, srcs, n);
    SourceLength(orig, st, srcs, n');
    FollowStep(st.mem, st.jets[n].root, |st.jets[n].spell|, i - 1);
    FollowStep(st.mem, st.jets[n'].root, |st.jets[n'].spell|, i' - 1);
  }

  lemma {:induction false} JoinedIsSame(orig: seq<Cell>, st: State, srcs: seq<Source>, n: nat, i: nat, n': nat, i': nat)
    requires Settled(orig, st, srcs) && n < |st.jets| && n' < |st.jets|
    ensures Joined(orig, st.jets, srcs, n, i, n', i') ==> SameCell(st.mem, st.jets[n], i, st.jets[n'], i')
    decreases i
  {
    hide Settled, JetCells, SameRest, AsFirst, OfFirst;
    if Joined(orig, st.jets, srcs, n, i, n', i') {
      AsFirstIs(orig, st, srcs, n, i);
      AsFirstIs(orig, st, srcs, n', i');
      if OfFirst(st.mem, st.jets, n, i) && OfFirst(st.mem, st.jets, n', i') {
        BothOfFirst(st.mem, st.jets, n, i, n', i');
      } else if n == n' && i == i' {
        RestInside(orig, st, srcs, n, i, n', i');
      } else {
        JoinedIsSame(orig, st, srcs, n, i - 1, n', i' - 1);
        NextOfSame(orig, st, srcs, n, i, n', i');
      }
    }
  }

  lemma RestInside(orig: seq<Cell>, st: State, srcs: seq<Source>, n: nat, i: nat, n': nat, i': nat)
    requires Settled(orig, st, srcs) && SameRest(st.jets, n, i, n', i')
    ensures i < |JetCells(st.mem, st.jets[n])|
  {
    hide JetCells;
    SourceLength(orig, st, srcs, n);
  }

  lemma {:induction false} SameIsJoined(orig: seq<Cell>, st: State, srcs: seq<Source>, n: nat, i: nat, n': nat, i': nat)
    requires Settled(orig, st, srcs) && n < |st.jets| && n' < |st.jets|
    requires SameCell(st.mem, st.jets[n], i, st.jets[n'], i')
    ensures Joined(orig, st.jets, srcs, n, i, n', i')
    decreases i
  {
    hide JetCells, SameRest, AsFirst, OfFirst, SameCell, JoinsFirst, Sourced, AllKept, BoundsStay;
    assert OneWay(st.mem, st.jets, n, i, n', i');
    AsFirstIs(orig, st, srcs, n, i);
    AsFirstIs(orig, st, srcs, n', i');
    if OfFirst(st.mem, st.jets, n, i) {
      OfFirstOther(st.mem, st.jets, n, i, n', i');
    } else if n == n' && i == i' {
    } else {
      SameIsJoined(orig, st, srcs, n, i - 1, n', i' - 1);
    }
  }

  lemma OfFirstOther(mem: seq<Cell>, jets: seq<Jet>, n: nat, i: nat, n': nat, i': nat)
    requires SameRest(jets, n, i, n', i') && SameCell(mem, jets[n], i, jets[n'], i') && OfFirst(mem, jets, n, i)
    ensures OfFirst(mem, jets, n', i')
  {
    hide OfFirst, JetCells;
    SameCellSymmetric(mem, jets[n], i, jets[n'], i');
    OfFirstAlike(mem, jets, n', i', n, i);
  }

  /** When parsing with sharing, two connectors of a sentence that keeps its
      bounds become one cell exactly as the lists tell. */
  lemma JoinedExactly(cfg: Config, orig: seq<Cell>, numUc: nat, length: nat, items: seq<Item>, st: State,
                      n: nat, i: nat, n': nat, i': nat)
    requires UniformResult(cfg, orig, numUc, length, items, st)
    requires n < |st.jets| && i < |st.jets[n].spell| && n' < |st.jets| && i' < |st.jets[n'].spell|
    ensures SentenceOk(cfg, orig, numUc, length, items)
    ensures SameCell(st.mem, st.jets[n], i, st.jets[n'], i')
       <==> Joined(orig, st.jets, Sources(cfg, orig, numUc, length, items), n, i, n', i')
  {
    hide UniformResult, JetCells, SameCell, Joined, Settled;
    ResultSettled(cfg, orig, numUc, length, items, st);
    var srcs := Sources(cfg, orig, numUc, length, items);
    JoinedIsSame(orig, st, srcs, n, i, n', i');
    if SameCell(st.mem, st.jets[n], i, st.jets[n'], i') { SameIsJoined(orig, st, srcs, n, i, n', i'); }
  }

  lemma ResultCell(cfg: Config, orig: seq<Cell>, numUc: nat, length: nat, items: seq<Item>, st: State, n: nat, i: nat)
    requires Result(cfg, orig, numUc, length, items, st) && n < |st.jets| && i < |st.jets[n].spell|
    ensures i < |JetCells(st.mem, st.jets[n])| && JetCells(st.mem, st.jets[n])[i] < |st.mem|
    ensures Packed(cfg, st)
  {
    hide Result, Packed, JetCells;
    ResultJet(cfg, orig, numUc, length, items, st, n);
    JetHome(cfg, st, n, JetCells(st.mem, st.jets[n])[i]);
  }

  /** So two connectors of one direction get the same tracon id. */
  lemma SameIdExactly(cfg: Config, orig: seq<Cell>, numUc: nat, length: nat, items: seq<Item>, st: State,
                      n: nat, i: nat, n': nat, i': nat)
    requires UniformResult(cfg, orig, numUc, length, items, st)
    requires n < |st.jets| && i < |st.jets[n].spell| && n' < |st.jets| && i' < |st.jets[n'].spell|
    requires st.jets[n].dir == st.jets[n'].dir
    ensures SentenceOk(cfg, orig, numUc, length, items)
    ensures var a, b := JetCells(st.mem, st.jets[n]), JetCells(st.mem, st.jets[n']);
            && i < |a| && i' < |b| && a[i] < |st.mem| && b[i'] < |st.mem|
            && (st.mem[a[i]].traconId == st.mem[b[i']].traconId
                <==> Joined(orig, st.jets, Sources(cfg, orig, numUc, length, items), n, i, n', i'))
  {
    hide Result, JetCells, Joined, Packed;
    ResultCell(cfg, orig, numUc, length, items, st, n, i);
    ResultCell(cfg, orig, numUc, length, items, st, n', i');
    JoinedExactly(cfg, orig, numUc, length, items, st, n, i, n', i');
    var a, b := JetCells(st.mem, st.jets[n])[i], JetCells(st.mem, st.jets[n'])[i'];
    if st.mem[a].traconId == st.mem[b].traconId {
      EqualIdsAgree(cfg, orig, numUc, length, items, st, n, n', a, b);
    }
  }
}
