/** What packing records about the shared cells: how many jets run through each,
    which direction and word or gword it belongs to, its tracon id or list
    entry, its shallow mark, and the upper-case parts seen per word. */
module PackingAccounts {
  import opened Connectors
  import opened Probing
  import opened TraconSets
  import opened PackingSpec
  import opened PackingMeaning

  ghost function JetCells(mem: seq<Cell>, j: Jet): seq<nat> {
    Follow(mem, j.root, |j.spell|)
  }

  lemma JetCellsFrame(cfg: Config, mem: seq<Cell>, mem': seq<Cell>, j: Jet)
    requires SameLinks(mem, mem') && JetOk(cfg, mem, j)
    ensures JetCells(mem', j) == JetCells(mem, j) && |JetCells(mem, j)| == |j.spell|
  {
    FollowFrame(mem, mem', j.root, j.spell);
    FollowLength(mem, j.root, j.spell);
  }

  lemma JetCellsInside(cfg: Config, mem: seq<Cell>, j: Jet, a: nat)
    requires JetOk(cfg, mem, j) && Closed(mem, cfg.base) && a in JetCells(mem, j)
    ensures cfg.base <= a < |mem|
  {
    FollowLength(mem, j.root, j.spell);
    var i: nat :| i < |j.spell| && JetCells(mem, j)[i] == a;
    FollowAbove(mem, cfg.base, j.root, j.spell, i);
  }

  /** The jet that packing adds, and its cells. */
  ghost function Added(cfg: Config, st: State, dir: nat, cs: seq<nat>, w: nat, token: int): Jet
    requires JetFits(cfg, st, dir, cs, w)
  {
    Jet(JetRoot(cfg, st.mem, st.sides[dir], cs), Spell(st.mem, cs), dir, w, token)
  }

  lemma AddedCells(cfg: Config, st: State, dir: nat, cs: seq<nat>, w: nat, token: int)
    requires Ready(cfg, st, dir, cs, w)
    ensures JetCells(PackJet(cfg, st, dir, cs, w, token).mem, Added(cfg, st, dir, cs, w, token))
         == Run(|st.mem|, CopiedIn(cfg, st, dir, cs)) + SharedPath(cfg, st, dir, cs)
  {
    hide JetMem, SideAfter, Sharable, KeyAt, Tail, JetRoot;
    JetPath(cfg, st, dir, cs, w, token);
  }

  // ---------- Reference counts ----------

  /** The number of jets that run through cell `a`. */
  ghost function Passing(mem: seq<Cell>, jets: seq<Jet>, a: nat): nat {
    if jets == [] then 0
    else
      var n := |jets| - 1;
      Passing(mem, jets[..n], a) + if a in JetCells(mem, jets[n]) then 1 else 0
  }

  ghost predicate JetsOk(cfg: Config, mem: seq<Cell>, jets: seq<Jet>) {
    forall i: nat :: i < |jets| ==> JetOk(cfg, mem, jets[i])
  }

  lemma {:induction false} PassingFrame(cfg: Config, mem: seq<Cell>, mem': seq<Cell>, jets: seq<Jet>, a: nat)
    requires SameLinks(mem, mem') && JetsOk(cfg, mem, jets)
    ensures Passing(mem', jets, a) == Passing(mem, jets, a)
  {
    if jets != [] {
      var n := |jets| - 1;
      PassingFrame(cfg, mem, mem', jets[..n], a);
      JetCellsFrame(cfg, mem, mem', jets[n]);
    }
  }

  lemma {:induction false} PassingFresh(cfg: Config, mem: seq<Cell>, jets: seq<Jet>, a: nat)
    requires Closed(mem, cfg.base) && JetsOk(cfg, mem, jets) && a >= |mem|
    ensures Passing(mem, jets, a) == 0
  {
    if jets != [] {
      var n := |jets| - 1;
      PassingFresh(cfg, mem, jets[..n], a);
      if a in JetCells(mem, jets[n]) { JetCellsInside(cfg, mem, jets[n], a); }
    }
  }

  /** Each packed cell counts the jets that run through it. */
  ghost predicate RefcountsOk(cfg: Config, st: State) {
    cfg.pruning ==>
      forall a: nat :: cfg.base <= a < |st.mem| ==> st.mem[a].refcount == Passing(st.mem, st.jets, a)
  }

  lemma CountedIsShared(cfg: Config, st: State, dir: nat, cs: seq<nat>, a: nat)
    requires Below(cs, |st.mem|) && dir < |st.sides| && cfg.pruning
    ensures a in Counted(cfg, st.mem, st.sides[dir].tracons, cs) <==> a in SharedPath(cfg, st, dir, cs)
  {
  }

  lemma RefcountStep(cfg: Config, st: State, dir: nat, cs: seq<nat>, w: nat, token: int, a: nat)
    requires Ready(cfg, st, dir, cs, w) && RefcountsOk(cfg, st) && cfg.pruning
    requires var st' := PackJet(cfg, st, dir, cs, w, token); cfg.base <= a < |st'.mem|
    ensures var st' := PackJet(cfg, st, dir, cs, w, token);
            st'.mem[a].refcount == Passing(st'.mem, st'.jets, a)
  {
    hide JetMem, SideAfter, JetRoot, Sharable, KeyAt, Tail, Counted, SharedPath;
    var st' := PackJet(cfg, st, dir, cs, w, token);
    JetKeepsLinks(cfg, st, dir, cs, w, token);
    PassingFrame(cfg, st.mem, st'.mem, st.jets, a);
    AddedCells(cfg, st, dir, cs, w, token);
    assert st'.jets[..|st.jets|] == st.jets;
    SharedPathAbove(cfg, st, dir, cs, w);
    CountedIsShared(cfg, st, dir, cs, a);
    RunMember(|st.mem|, CopiedIn(cfg, st, dir, cs), a);
    if a < |st.mem| {
      OldCells(cfg, st, dir, cs, w, token, a);
    } else {
      NewCells(cfg, st, dir, cs, w, token, a - |st.mem|);
      PassingFresh(cfg, st.mem, st.jets, a);
    }
  }

  lemma RunMember(k: nat, n: nat, a: nat)
    ensures a in Run(k, n) <==> k <= a < k + n
  {
    if k <= a < k + n { assert Run(k, n)[a - k] == a; }
  }

  lemma JetRefcounts(cfg: Config, st: State, dir: nat, cs: seq<nat>, w: nat, token: int)
    requires Ready(cfg, st, dir, cs, w) && RefcountsOk(cfg, st)
    ensures RefcountsOk(cfg, PackJet(cfg, st, dir, cs, w, token))
  {
    hide JetMem, SideAfter, JetRoot;
    if cfg.pruning {
      var st' := PackJet(cfg, st, dir, cs, w, token);
      forall a: nat | cfg.base <= a < |st'.mem|
        ensures st'.mem[a].refcount == Passing(st'.mem, st'.jets, a)
      {
        RefcountStep(cfg, st, dir, cs, w, token, a);
      }
    }
  }

  /** The sum of the reference counts of the cells from `lo` on. */
  ghost function RefcountSum(mem: seq<Cell>, lo: nat): nat
    decreases |mem| - lo
  {
    if lo >= |mem| then 0 else mem[lo].refcount + RefcountSum(mem, lo + 1)
  }

  ghost function PassingSum(mem: seq<Cell>, jets: seq<Jet>, lo: nat): nat
    decreases |mem| - lo
  {
    if lo >= |mem| then 0 else Passing(mem, jets, lo) + PassingSum(mem, jets, lo + 1)
  }

  ghost function ConnectorTotal(jets: seq<Jet>): nat {
    if jets == [] then 0 else ConnectorTotal(jets[..|jets| - 1]) + |jets[|jets| - 1].spell|
  }

  /** How many cells from `lo` on lie on `path`. */
  ghost function OnPathFrom(mem: seq<Cell>, path: seq<nat>, lo: nat): nat
    decreases |mem| - lo
  {
    if lo >= |mem| then 0 else (if lo in path then 1 else 0) + OnPathFrom(mem, path, lo + 1)
  }

  ghost predicate Distinct(path: seq<nat>) {
    forall i: nat, j: nat :: i < |path| && j < |path| && path[i] == path[j] ==> i == j
  }

  lemma {:induction false} OnPathAdd(mem: seq<Cell>, path: seq<nat>, a: nat, lo: nat)
    requires a !in path && a < |mem|
    ensures OnPathFrom(mem, path + [a], lo) == OnPathFrom(mem, path, lo) + if lo <= a then 1 else 0
    decreases |mem| - lo
  {
    if lo < |mem| { OnPathAdd(mem, path, a, lo + 1); }
  }

  lemma {:induction false} OnEmptyPath(mem: seq<Cell>, lo: nat)
    ensures OnPathFrom(mem, [], lo) == 0
    decreases |mem| - lo
  {
    if lo < |mem| { OnEmptyPath(mem, lo + 1); }
  }

  lemma {:induction false} PathLength(mem: seq<Cell>, path: seq<nat>, lo: nat)
    requires Distinct(path) && forall i: nat :: i < |path| ==> lo <= path[i] < |mem|
    ensures OnPathFrom(mem, path, lo) == |path|
  {
    if path == [] {
      OnEmptyPath(mem, lo);
    } else {
      var n := |path| - 1;
      PathLength(mem, path[..n], lo);
      OnPathAdd(mem, path[..n], path[n], lo);
      assert path == path[..n] + [path[n]];
    }
  }

  lemma {:induction false} PassingSumSplit(mem: seq<Cell>, jets: seq<Jet>, lo: nat)
    requires jets != []
    ensures var n := |jets| - 1;
            PassingSum(mem, jets, lo) == PassingSum(mem, jets[..n], lo) + OnPathFrom(mem, JetCells(mem, jets[n]), lo)
    decreases |mem| - lo
  {
    if lo < |mem| { PassingSumSplit(mem, jets, lo + 1); }
  }

  lemma JetLength(cfg: Config, mem: seq<Cell>, j: Jet)
    requires Closed(mem, cfg.base) && JetOk(cfg, mem, j)
    ensures OnPathFrom(mem, JetCells(mem, j), cfg.base) == |j.spell|
  {
    var path := JetCells(mem, j);
    FollowLength(mem, j.root, j.spell);
    forall i: nat | i < |path|
      ensures cfg.base <= path[i] < |mem|
    {
      FollowAbove(mem, cfg.base, j.root, j.spell, i);
    }
    forall i: nat, k: nat | i < |path| && k < |path| && path[i] == path[k]
      ensures i == k
    {
      FollowDistinct(mem, j.root, j.spell, i, k);
    }
    PathLength(mem, path, cfg.base);
  }

  lemma {:induction false} PassingTotal(cfg: Config, mem: seq<Cell>, jets: seq<Jet>)
    requires Closed(mem, cfg.base) && JetsOk(cfg, mem, jets)
    ensures PassingSum(mem, jets, cfg.base) == ConnectorTotal(jets)
  {
    if jets == [] {
      NoPassing(mem, cfg.base);
    } else {
      var n := |jets| - 1;
      PassingTotal(cfg, mem, jets[..n]);
      PassingSumSplit(mem, jets, cfg.base);
      JetLength(cfg, mem, jets[n]);
    }
  }

  lemma {:induction false} NoPassing(mem: seq<Cell>, lo: nat)
    ensures PassingSum(mem, [], lo) == 0
    decreases |mem| - lo
  {
    if lo < |mem| { NoPassing(mem, lo + 1); }
  }

  lemma {:induction false} SumsAgree(mem: seq<Cell>, jets: seq<Jet>, lo: nat)
    requires forall a: nat :: lo <= a < |mem| ==> mem[a].refcount == Passing(mem, jets, a)
    ensures RefcountSum(mem, lo) == PassingSum(mem, jets, lo)
    decreases |mem| - lo
  {
    if lo < |mem| { SumsAgree(mem, jets, lo + 1); }
  }

  /** Nothing is lost: the reference counts add up to the connectors packed. */
  lemma RefcountConservation(cfg: Config, st: State)
    requires Sound(cfg, st) && RefcountsOk(cfg, st) && cfg.pruning
    ensures RefcountSum(st.mem, cfg.base) == ConnectorTotal(st.jets)
  {
    SumsAgree(st.mem, st.jets, cfg.base);
    PassingTotal(cfg, st.mem, st.jets);
  }
}
