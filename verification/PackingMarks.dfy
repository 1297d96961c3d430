/** Where each packed cell belongs: its direction and token, its tracon id or
    its entry in the tracon list, and its shallow mark. */
module PackingMarks {
  import opened Connectors
  import opened TraconSets
  import opened PackingSpec
  import opened PackingMeaning
  import opened PackingAccounts

  // ---------- The cells of a jet ----------

  /** All cells of `path` belong to `home`; when pruning, a cell is shallow
      exactly when it is first and `first` holds. */
  ghost predicate PathOk(cfg: Config, st: State, path: seq<nat>, home: Home, first: bool) {
    forall i: nat :: i < |path| ==> CellOk(cfg, st, path[i], home, first && i == 0)
  }

  ghost predicate CellOk(cfg: Config, st: State, a: nat, home: Home, shallow: bool) {
    && cfg.base <= a < |st.mem|
    && a - cfg.base < |st.home|
    && st.home[a - cfg.base] == home
    && (cfg.pruning ==> st.mem[a].shallow == shallow)
  }

  ghost predicate JetMarked(cfg: Config, st: State, j: Jet) {
    PathOk(cfg, st, JetCells(st.mem, j), Home(j.dir, j.token), true)
  }

  ghost predicate TraconMarked(cfg: Config, st: State, dir: nat, k: Key, p: Ptr) {
    PathOk(cfg, st, Follow(st.mem, p, |k.spell|), Home(dir, st.lastToken), k.shallow)
  }

  /** Every jet and every tracon in the tables is marked as its own. */
  ghost predicate Marks(cfg: Config, st: State)
    requires |st.sides| == 2
  {
    && (forall i: nat :: i < |st.jets| ==> JetMarked(cfg, st, st.jets[i]))
    && (forall d: nat, k :: d < 2 && k in st.sides[d].tracons ==>
          TraconMarked(cfg, st, d, k, st.sides[d].tracons[k]))
  }

  /** The jet to be packed carries the token of the tables. */
  ghost predicate MarksReady(cfg: Config, st: State, dir: nat, cs: seq<nat>, w: nat, token: int) {
    && Ready(cfg, st, dir, cs, w)
    && Marks(cfg, st)
    && (cfg.encode ==> token == st.lastToken)
  }

  lemma PathOkFrame(cfg: Config, st: State, dir: nat, cs: seq<nat>, w: nat, token: int,
                    path: seq<nat>, home: Home, first: bool)
    requires Ready(cfg, st, dir, cs, w) && PathOk(cfg, st, path, home, first)
    ensures PathOk(cfg, PackJet(cfg, st, dir, cs, w, token), path, home, first)
  {
    hide JetMem, SideAfter, JetRoot, Counted, Sound;
    var st' := PackJet(cfg, st, dir, cs, w, token);
    forall i: nat | i < |path|
      ensures CellOk(cfg, st', path[i], home, first && i == 0)
    {
      assert CellOk(cfg, st, path[i], home, first && i == 0);
      OldCells(cfg, st, dir, cs, w, token, path[i]);
      JetKeepsLinks(cfg, st, dir, cs, w, token);
    }
  }

  /** A copied cell belongs to the jet, and is shallow when it is the first. */
  lemma NewCellOk(cfg: Config, st: State, dir: nat, cs: seq<nat>, w: nat, token: int, k: nat)
    requires Ready(cfg, st, dir, cs, w) && k < CopiedIn(cfg, st, dir, cs)
    ensures CellOk(cfg, PackJet(cfg, st, dir, cs, w, token), |st.mem| + k, Home(dir, token), k == 0)
  {
    hide JetMem, SideAfter, JetRoot, Tail;
    NewCells(cfg, st, dir, cs, w, token, k);
  }

  lemma SharedOk(cfg: Config, st: State, dir: nat, cs: seq<nat>, w: nat, token: int)
    requires MarksReady(cfg, st, dir, cs, w, token)
    ensures var m := CopiedIn(cfg, st, dir, cs);
            PathOk(cfg, st, SharedPath(cfg, st, dir, cs), Home(dir, token), m == 0)
  {
    hide Sound, CellOk;
    var m := CopiedIn(cfg, st, dir, cs);
    if m < |cs| {
      var k := KeyAt(cfg, st.mem, cs, m);
      assert TraconMarked(cfg, st, dir, k, st.sides[dir].tracons[k]);
      assert |k.spell| == |cs| - m;
      if !cfg.pruning { ShallowIrrelevant(cfg, st, SharedPath(cfg, st, dir, cs), Home(dir, token), k.shallow, m == 0); }
    }
  }

  lemma ShallowIrrelevant(cfg: Config, st: State, path: seq<nat>, home: Home, first: bool, first': bool)
    requires PathOk(cfg, st, path, home, first) && !cfg.pruning
    ensures PathOk(cfg, st, path, home, first')
  {
    forall i: nat | i < |path|
      ensures CellOk(cfg, st, path[i], home, first' && i == 0)
    {
      assert CellOk(cfg, st, path[i], home, first && i == 0);
    }
  }

  /** The cells from the `i`th connector of the new jet on. */
  lemma SuffixMarked(cfg: Config, st: State, dir: nat, cs: seq<nat>, w: nat, token: int, i: nat)
    requires MarksReady(cfg, st, dir, cs, w, token) && i <= CopiedIn(cfg, st, dir, cs)
    ensures var m := CopiedIn(cfg, st, dir, cs);
            PathOk(cfg, PackJet(cfg, st, dir, cs, w, token),
                   Run(|st.mem| + i, m - i) + SharedPath(cfg, st, dir, cs), Home(dir, token), i == 0)
  {
    hide JetMem, SideAfter, JetRoot, Tail, SharedPath, Sound, CellOk;
    var m, shared := CopiedIn(cfg, st, dir, cs), SharedPath(cfg, st, dir, cs);
    var st' := PackJet(cfg, st, dir, cs, w, token);
    var path := Run(|st.mem| + i, m - i) + shared;
    SharedOk(cfg, st, dir, cs, w, token);
    PathOkFrame(cfg, st, dir, cs, w, token, shared, Home(dir, token), m == 0);
    forall n: nat | n < |path|
      ensures CellOk(cfg, st', path[n], Home(dir, token), i == 0 && n == 0)
    {
      if n < m - i {
        NewCellOk(cfg, st, dir, cs, w, token, i + n);
        assert path[n] == |st.mem| + (i + n);
      } else {
        assert path[n] == shared[n - (m - i)];
        assert CellOk(cfg, st', shared[n - (m - i)], Home(dir, token), m == 0 && n - (m - i) == 0);
      }
    }
  }

  /** The path of a new key. */
  lemma NewKeyPath(cfg: Config, st: State, dir: nat, cs: seq<nat>, w: nat, token: int, i: nat)
    requires Ready(cfg, st, dir, cs, w) && i < CopiedIn(cfg, st, dir, cs)
    ensures Follow(PackJet(cfg, st, dir, cs, w, token).mem, At(|st.mem| + i), |cs| - i)
         == Run(|st.mem| + i, CopiedIn(cfg, st, dir, cs) - i) + SharedPath(cfg, st, dir, cs)
  {
    hide JetMem, SideAfter, Sharable, KeyAt, Tail, JetRoot, Run, Sound;
    var mem' := PackJet(cfg, st, dir, cs, w, token).mem;
    var m, tail := CopiedIn(cfg, st, dir, cs), Tail(cfg, st.mem, st.sides[dir].tracons, cs);
    TailSpells(cfg, st, dir, cs, w);
    JetKeepsLinks(cfg, st, dir, cs, w, token);
    NewCellsLinked(cfg, st, dir, cs, w, token);
    RunPath(mem', |st.mem| + i, m - i, tail, |cs| - i);
    FollowFrame(st.mem, mem', tail, Spell(st.mem, cs)[m..]);
    assert |cs| - i - (m - i) == |cs| - m;
  }

  lemma {:induction false} InsertedMarked(cfg: Config, st: State, dir: nat, cs: seq<nat>, w: nat, token: int, i: nat, k: Key)
    requires MarksReady(cfg, st, dir, cs, w, token) && i <= CopiedIn(cfg, st, dir, cs)
    requires k in Inserted(cfg, st.mem, st.sides[dir].tracons, cs, i)
    ensures TraconMarked(cfg, PackJet(cfg, st, dir, cs, w, token), dir, k,
                         Inserted(cfg, st.mem, st.sides[dir].tracons, cs, i)[k])
  {
    hide JetMem, SideAfter, JetRoot, Sound, CellOk, PathOk, Sharable, SharedPath;
    var tracons := st.sides[dir].tracons;
    if i == 0 || !cfg.encode || k in Inserted(cfg, st.mem, tracons, cs, i - 1) {
      if k in tracons && Inserted(cfg, st.mem, tracons, cs, i)[k] == tracons[k] {
        OldTraconMarked(cfg, st, dir, cs, w, token, dir, k);
      } else {
        InsertedMarked(cfg, st, dir, cs, w, token, i - 1, k);
      }
    } else {
      NewKeyPath(cfg, st, dir, cs, w, token, i - 1);
      SuffixMarked(cfg, st, dir, cs, w, token, i - 1);
      ShallowKey(cfg, st, dir, cs, w, token, i - 1);
    }
  }

  /** The key of a copied connector is shallow when the connector is first. */
  lemma ShallowKey(cfg: Config, st: State, dir: nat, cs: seq<nat>, w: nat, token: int, i: nat)
    requires Ready(cfg, st, dir, cs, w) && i < |cs|
    ensures |KeyAt(cfg, st.mem, cs, i).spell| == |cs| - i
    ensures forall path, home :: PathOk(cfg, PackJet(cfg, st, dir, cs, w, token), path, home, i == 0) ==>
              PathOk(cfg, PackJet(cfg, st, dir, cs, w, token), path, home, KeyAt(cfg, st.mem, cs, i).shallow)
  {
    hide JetMem, SideAfter, JetRoot, Sound, CellOk, PathOk;
    var st' := PackJet(cfg, st, dir, cs, w, token);
    if !cfg.pruning {
      forall path, home | PathOk(cfg, st', path, home, i == 0)
        ensures PathOk(cfg, st', path, home, false)
      {
        ShallowIrrelevant(cfg, st', path, home, i == 0, false);
      }
    }
  }

  lemma OldTraconMarked(cfg: Config, st: State, dir: nat, cs: seq<nat>, w: nat, token: int, d: nat, k: Key)
    requires MarksReady(cfg, st, dir, cs, w, token) && d < 2 && k in st.sides[d].tracons
    ensures TraconMarked(cfg, PackJet(cfg, st, dir, cs, w, token), d, k, st.sides[d].tracons[k])
  {
    hide JetMem, SideAfter, JetRoot, CellOk, PathOk;
    var p := st.sides[d].tracons[k];
    assert TraconMarked(cfg, st, d, k, p);
    JetKeepsLinks(cfg, st, dir, cs, w, token);
    assert CellFor(st.mem, p, k, cfg.pruning);
    FollowFrame(st.mem, PackJet(cfg, st, dir, cs, w, token).mem, p, k.spell);
    PathOkFrame(cfg, st, dir, cs, w, token, Follow(st.mem, p, |k.spell|), Home(d, st.lastToken), k.shallow);
  }

  /** Packing a jet keeps every cell marked as its own. */
  lemma JetMarks(cfg: Config, st: State, dir: nat, cs: seq<nat>, w: nat, token: int)
    requires MarksReady(cfg, st, dir, cs, w, token)
    ensures Marks(cfg, PackJet(cfg, st, dir, cs, w, token))
  {
    hide JetMem, JetRoot, CellOk, PathOk, TraconMarked, JetMarked, Sharable;
    var st' := PackJet(cfg, st, dir, cs, w, token);
    forall i: nat | i < |st'.jets|
      ensures JetMarked(cfg, st', st'.jets[i])
    {
      if i < |st.jets| {
        OldJetMarked(cfg, st, dir, cs, w, token, i);
      } else {
        NewJetMarked(cfg, st, dir, cs, w, token);
      }
    }
    forall d: nat, k | d < 2 && k in st'.sides[d].tracons
      ensures TraconMarked(cfg, st', d, k, st'.sides[d].tracons[k])
    {
      if d == dir {
        InsertedMarked(cfg, st, dir, cs, w, token, CopiedIn(cfg, st, dir, cs), k);
      } else {
        OldTraconMarked(cfg, st, dir, cs, w, token, d, k);
      }
    }
  }

  lemma OldJetMarked(cfg: Config, st: State, dir: nat, cs: seq<nat>, w: nat, token: int, i: nat)
    requires MarksReady(cfg, st, dir, cs, w, token) && i < |st.jets|
    ensures JetMarked(cfg, PackJet(cfg, st, dir, cs, w, token), st.jets[i])
  {
    hide JetMem, SideAfter, JetRoot, CellOk, PathOk;
    var j := st.jets[i];
    assert JetMarked(cfg, st, j);
    JetKeepsLinks(cfg, st, dir, cs, w, token);
    JetCellsFrame(cfg, st.mem, PackJet(cfg, st, dir, cs, w, token).mem, j);
    PathOkFrame(cfg, st, dir, cs, w, token, JetCells(st.mem, j), Home(j.dir, j.token), true);
  }

  lemma NewJetMarked(cfg: Config, st: State, dir: nat, cs: seq<nat>, w: nat, token: int)
    requires MarksReady(cfg, st, dir, cs, w, token)
    ensures JetMarked(cfg, PackJet(cfg, st, dir, cs, w, token), Added(cfg, st, dir, cs, w, token))
  {
    hide JetMem, SideAfter, JetRoot, CellOk, PathOk, SharedPath, JetCells;
    AddedCells(cfg, st, dir, cs, w, token);
    SuffixMarked(cfg, st, dir, cs, w, token, 0);
    assert |st.mem| + 0 == |st.mem|;
  }

  // ---------- Ids and lists ----------

  /** The indices, from the start of the block, of the cells of direction `d`. */
  ghost function CellsOf(home: seq<Home>, d: nat): seq<nat> {
    if home == [] then []
    else
      var n := |home| - 1;
      CellsOf(home[..n], d) + if home[n].dir == d then [n] else []
  }

  lemma {:induction false} CellsOfExact(home: seq<Home>, d: nat)
    ensures forall i: nat, j: nat :: i < j < |CellsOf(home, d)| ==> CellsOf(home, d)[i] < CellsOf(home, d)[j]
    ensures forall a: nat :: a in CellsOf(home, d) <==> a < |home| && home[a].dir == d
  {
    if home != [] {
      var cells := CellsOf(home[..|home| - 1], d);
      CellsOfExact(home[..|home| - 1], d);
      assert forall i: nat :: i < |cells| ==> cells[i] in cells;
    }
  }

  lemma {:induction false} CellsOfAppend(home: seq<Home>, h: Home, m: nat, d: nat)
    ensures CellsOf(home + seq(m, _ => h), d)
         == CellsOf(home, d) + if h.dir == d then Run(|home|, m) else []
  {
    if m == 0 {
      assert home + seq(m, _ => h) == home;
    } else {
      CellsOfAppend(home, h, m - 1, d);
      assert (home + seq(m, _ => h))[..|home| + m - 1] == home + seq(m - 1, _ => h);
      assert Run(|home|, m) == Run(|home|, m - 1) + [|home| + m - 1];
    }
  }

  /** When parsing, the cells of a direction carry consecutive tracon ids. */
  ghost predicate IdsOk(cfg: Config, st: State, d: nat)
    requires d < |st.sides|
  {
    var cells := CellsOf(st.home, d);
    && st.sides[d].nextId == NULL_TRACON_BLOCK + |cells|
    && forall i: nat :: i < |cells| ==>
         cfg.base + cells[i] < |st.mem| && st.mem[cfg.base + cells[i]].traconId == NULL_TRACON_BLOCK + i
  }

  ghost predicate Numbered(cfg: Config, st: State)
    requires |st.sides| == 2
  {
    && (!cfg.pruning ==> forall d: nat :: d < 2 ==> IdsOk(cfg, st, d))
    && (cfg.pruning && cfg.encode ==> forall d: nat :: d < 2 ==> st.sides[d].list == CellsOf(st.home, d))
  }

  lemma JetIds(cfg: Config, st: State, dir: nat, cs: seq<nat>, w: nat, token: int, d: nat)
    requires Ready(cfg, st, dir, cs, w) && !cfg.pruning && d < 2 && IdsOk(cfg, st, d)
    ensures IdsOk(cfg, PackJet(cfg, st, dir, cs, w, token), d)
  {
    hide JetMem, JetRoot, Counted, Sharable, KeyAt, Tail, Inserted;
    var st' := PackJet(cfg, st, dir, cs, w, token);
    var m := CopiedIn(cfg, st, dir, cs);
    var old', cells := CellsOf(st.home, d), CellsOf(st'.home, d);
    CellsOfAppend(st.home, Home(dir, token), m, d);
    CellsOfExact(st.home, d);
    forall i: nat | i < |cells|
      ensures cfg.base + cells[i] < |st'.mem| && st'.mem[cfg.base + cells[i]].traconId == NULL_TRACON_BLOCK + i
    {
      if i < |old'| {
        assert cells[i] == old'[i] && old'[i] in old';
        OldCells(cfg, st, dir, cs, w, token, cfg.base + cells[i]);
      } else {
        NewCells(cfg, st, dir, cs, w, token, i - |old'|);
      }
    }
  }

  lemma JetList(cfg: Config, st: State, dir: nat, cs: seq<nat>, w: nat, token: int, d: nat)
    requires Ready(cfg, st, dir, cs, w) && cfg.pruning && cfg.encode
    requires d < 2 && st.sides[d].list == CellsOf(st.home, d)
    ensures var st' := PackJet(cfg, st, dir, cs, w, token); st'.sides[d].list == CellsOf(st'.home, d)
  {
    hide JetMem, JetRoot;
    CellsOfAppend(st.home, Home(dir, token), CopiedIn(cfg, st, dir, cs), d);
  }

  /** Packing a jet keeps ids consecutive and the list complete. */
  lemma JetNumbered(cfg: Config, st: State, dir: nat, cs: seq<nat>, w: nat, token: int)
    requires Ready(cfg, st, dir, cs, w) && Numbered(cfg, st)
    ensures Numbered(cfg, PackJet(cfg, st, dir, cs, w, token))
  {
    hide JetMem, SideAfter, JetRoot, IdsOk;
    forall d: nat | d < 2
      ensures !cfg.pruning ==> IdsOk(cfg, PackJet(cfg, st, dir, cs, w, token), d)
      ensures cfg.pruning && cfg.encode ==>
        var st' := PackJet(cfg, st, dir, cs, w, token); st'.sides[d].list == CellsOf(st'.home, d)
    {
      if !cfg.pruning {
        JetIds(cfg, st, dir, cs, w, token, d);
      } else if cfg.encode {
        JetList(cfg, st, dir, cs, w, token, d);
      }
    }
  }
}
