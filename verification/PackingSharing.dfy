/** Packing shares all it can.  Packed for pruning, two connectors of one word
    and direction are the same cell exactly when what remains of their lists is
    the same and both or neither are first: the block holds every tracon once. */
module PackingSharing {
  import opened Connectors
  import opened TraconSets
  import opened PackingSpec
  import opened PackingMeaning
  import opened PackingAccounts
  import opened PackingMarks
  import opened PackingMidway
  import opened PackingTheorems

  // ---------- Tables are closed under tails ----------

  /** The tracon of a list from its `i`th connector on. */
  function KeyFrom(cfg: Config, s: seq<Con>, i: nat): Key
    requires i <= |s|
  {
    Key(s[i..], cfg.pruning && i == 0)
  }

  function TailKey(k: Key, i: nat): Key
    requires i <= |k.spell|
  {
    Key(k.spell[i..], k.shallow && i == 0)
  }

  /** The table has `k`, and leads to the `i`th cell of `path`. */
  ghost predicate Leads(tracons: map<Key, Ptr>, k: Key, path: seq<nat>, i: nat) {
    i < |path| && k in tracons && tracons[k] == At(path[i])
  }

  /** With a tracon, the table has the tracons of its tails. */
  ghost predicate TailsIn(mem: seq<Cell>, tracons: map<Key, Ptr>, k: Key)
    requires k in tracons
  {
    forall i: nat :: i < |k.spell| ==> Leads(tracons, TailKey(k, i), Follow(mem, tracons[k], |k.spell|), i)
  }

  ghost predicate TableClosed(mem: seq<Cell>, tracons: map<Key, Ptr>) {
    forall k :: k in tracons ==> TailsIn(mem, tracons, k)
  }

  /** The table has every tracon of the jet, and leads to the jet's own cells. */
  ghost predicate JetKnown(cfg: Config, mem: seq<Cell>, tracons: map<Key, Ptr>, j: Jet) {
    |JetCells(mem, j)| == |j.spell|
    && forall i: nat :: i < |j.spell| ==> Leads(tracons, KeyFrom(cfg, j.spell, i), JetCells(mem, j), i)
  }

  lemma {:induction false} InsertedKeeps(cfg: Config, mem: seq<Cell>, tracons: map<Key, Ptr>, cs: seq<nat>, n: nat, k: Key)
    requires Below(cs, |mem|) && n <= |cs| && k in tracons
    ensures k in Inserted(cfg, mem, tracons, cs, n) && Inserted(cfg, mem, tracons, cs, n)[k] == tracons[k]
  {
    hide KeyAt;
    if n > 0 && cfg.encode { InsertedKeeps(cfg, mem, tracons, cs, n - 1, k); }
  }

  lemma {:induction false} InsertedSource(cfg: Config, mem: seq<Cell>, tracons: map<Key, Ptr>, cs: seq<nat>, n: nat, k: Key)
    returns (i: nat)
    requires Below(cs, |mem|) && n <= |cs| && k in Inserted(cfg, mem, tracons, cs, n) && k !in tracons
    ensures i < n && k == KeyAt(cfg, mem, cs, i)
  {
    hide KeyAt;
    if k in Inserted(cfg, mem, tracons, cs, n - 1) {
      i := InsertedSource(cfg, mem, tracons, cs, n - 1, k);
    } else {
      i := n - 1;
    }
  }

  /** A connector that could not be shared is entered with its own copy. */
  lemma {:induction false} InsertedHas(cfg: Config, mem: seq<Cell>, tracons: map<Key, Ptr>, cs: seq<nat>, i: nat, n: nat)
    requires Below(cs, |mem|) && i < n <= |cs| && cfg.encode && KeyAt(cfg, mem, cs, i) !in tracons
    ensures KeyAt(cfg, mem, cs, i) in Inserted(cfg, mem, tracons, cs, n)
    ensures Inserted(cfg, mem, tracons, cs, n)[KeyAt(cfg, mem, cs, i)] == At(|mem| + i)
    decreases n
  {
    hide KeyAt;
    if i == n - 1 {
      OldKeysOnly(cfg, mem, tracons, cs, i, i);
    } else {
      InsertedHas(cfg, mem, tracons, cs, i, n - 1);
    }
  }

  // ---------- The next jet ----------

  /** What sharing needs of the side on which the next jet is packed. */
  ghost predicate ShareReady(cfg: Config, st: State, dir: nat, cs: seq<nat>, w: nat) {
    && Ready(cfg, st, dir, cs, w)
    && cfg.pruning
    && cfg.encode
    && TableClosed(st.mem, st.sides[dir].tracons)
  }

  ghost function TraconsAfter(cfg: Config, st: State, dir: nat, cs: seq<nat>): map<Key, Ptr>
    requires Below(cs, |st.mem|) && dir < |st.sides|
  {
    Inserted(cfg, st.mem, st.sides[dir].tracons, cs, CopiedIn(cfg, st, dir, cs))
  }

  ghost function PathAfter(cfg: Config, st: State, dir: nat, cs: seq<nat>): seq<nat>
    requires Below(cs, |st.mem|) && dir < |st.sides|
  {
    Run(|st.mem|, CopiedIn(cfg, st, dir, cs)) + SharedPath(cfg, st, dir, cs)
  }

  lemma NewLeads(cfg: Config, st: State, dir: nat, cs: seq<nat>, w: nat, i: nat)
    requires ShareReady(cfg, st, dir, cs, w) && i < CopiedIn(cfg, st, dir, cs)
    ensures Leads(TraconsAfter(cfg, st, dir, cs), KeyAt(cfg, st.mem, cs, i), PathAfter(cfg, st, dir, cs), i)
  {
    hide KeyAt, SharedPath, Sound, TableClosed;
    var m := CopiedIn(cfg, st, dir, cs);
    assert !Sharable(cfg, st.mem, st.sides[dir].tracons, cs, i);
    InsertedHas(cfg, st.mem, st.sides[dir].tracons, cs, i, m);
    assert PathAfter(cfg, st, dir, cs)[i] == Run(|st.mem|, m)[i];
  }

  lemma OldLeads(cfg: Config, st: State, dir: nat, cs: seq<nat>, w: nat, i: nat)
    requires ShareReady(cfg, st, dir, cs, w) && CopiedIn(cfg, st, dir, cs) <= i < |cs|
    ensures Leads(TraconsAfter(cfg, st, dir, cs), KeyAt(cfg, st.mem, cs, i), PathAfter(cfg, st, dir, cs), i)
  {
    hide Sound, Inserted, SharedPath;
    var m, t := CopiedIn(cfg, st, dir, cs), st.sides[dir].tracons;
    var k, s := KeyAt(cfg, st.mem, cs, m), Spell(st.mem, cs);
    assert Sharable(cfg, st.mem, t, cs, m);
    assert TailsIn(st.mem, t, k);
    SharedIsTracon(cfg, st, dir, cs);
    assert s[m..][i - m..] == s[i..];
    assert TailKey(k, i - m) == KeyAt(cfg, st.mem, cs, i);
    assert Leads(t, TailKey(k, i - m), SharedPath(cfg, st, dir, cs), i - m);
    InsertedKeeps(cfg, st.mem, t, cs, m, KeyAt(cfg, st.mem, cs, i));
    assert PathAfter(cfg, st, dir, cs)[i] == SharedPath(cfg, st, dir, cs)[i - m];
  }

  lemma SharedIsTracon(cfg: Config, st: State, dir: nat, cs: seq<nat>)
    requires Below(cs, |st.mem|) && dir < |st.sides| && CopiedIn(cfg, st, dir, cs) < |cs|
    ensures var k := KeyAt(cfg, st.mem, cs, CopiedIn(cfg, st, dir, cs));
            k in st.sides[dir].tracons
            && |k.spell| == |cs| - CopiedIn(cfg, st, dir, cs)
            && SharedPath(cfg, st, dir, cs) == Follow(st.mem, st.sides[dir].tracons[k], |k.spell|)
  {
  }

  lemma KeysAlike(cfg: Config, mem: seq<Cell>, cs: seq<nat>, i: nat)
    requires Below(cs, |mem|) && i <= |cs|
    ensures KeyAt(cfg, mem, cs, i) == KeyFrom(cfg, Spell(mem, cs), i)
  {
  }

  /** After a jet has been packed, the table leads to all its cells. */
  lemma NewJetKnown(cfg: Config, st: State, dir: nat, cs: seq<nat>, w: nat, token: int)
    requires ShareReady(cfg, st, dir, cs, w)
    ensures var st' := PackJet(cfg, st, dir, cs, w, token);
            && JetCells(st'.mem, Added(cfg, st, dir, cs, w, token)) == PathAfter(cfg, st, dir, cs)
            && JetKnown(cfg, st'.mem, TraconsAfter(cfg, st, dir, cs), Added(cfg, st, dir, cs, w, token))
  {
    hide JetMem, SideAfter, JetRoot, Sound, Leads, KeyAt, KeyFrom, JetCells, SharedPath, TableClosed, TraconsAfter;
    var st', j := PackJet(cfg, st, dir, cs, w, token), Added(cfg, st, dir, cs, w, token);
    AddedCells(cfg, st, dir, cs, w, token);
    SharedPathAbove(cfg, st, dir, cs, w);
    forall i: nat | i < |cs|
      ensures Leads(TraconsAfter(cfg, st, dir, cs), KeyFrom(cfg, j.spell, i), JetCells(st'.mem, j), i)
    {
      KeysAlike(cfg, st.mem, cs, i);
      if i < CopiedIn(cfg, st, dir, cs) {
        NewLeads(cfg, st, dir, cs, w, i);
      } else {
        OldLeads(cfg, st, dir, cs, w, i);
      }
    }
  }

  /** The cells of a new tracon are the last ones of the jet. */
  lemma NewTraconPath(cfg: Config, st: State, dir: nat, cs: seq<nat>, w: nat, token: int, i: nat)
    requires Ready(cfg, st, dir, cs, w) && i < CopiedIn(cfg, st, dir, cs)
    ensures |PathAfter(cfg, st, dir, cs)| == |cs|
    ensures Follow(PackJet(cfg, st, dir, cs, w, token).mem, At(|st.mem| + i), |cs| - i)
         == PathAfter(cfg, st, dir, cs)[i..]
  {
    hide JetMem, SideAfter, JetRoot, Sound, SharedPath;
    var m := CopiedIn(cfg, st, dir, cs);
    NewKeyPath(cfg, st, dir, cs, w, token, i);
    SharedPathAbove(cfg, st, dir, cs, w);
    assert Run(|st.mem|, m)[i..] == Run(|st.mem| + i, m - i);
  }

  /** The new tracons have their tails in the table. */
  lemma NewTailsIn(cfg: Config, st: State, dir: nat, cs: seq<nat>, w: nat, token: int, i: nat)
    requires ShareReady(cfg, st, dir, cs, w) && i < CopiedIn(cfg, st, dir, cs)
    ensures KeyAt(cfg, st.mem, cs, i) in TraconsAfter(cfg, st, dir, cs)
    ensures TailsIn(PackJet(cfg, st, dir, cs, w, token).mem, TraconsAfter(cfg, st, dir, cs), KeyAt(cfg, st.mem, cs, i))
  {
    hide JetMem, SideAfter, JetRoot, Sound, JetCells, SharedPath, TableClosed, TraconsAfter, PathAfter;
    var k, t, s := KeyAt(cfg, st.mem, cs, i), TraconsAfter(cfg, st, dir, cs), Spell(st.mem, cs);
    var path := PathAfter(cfg, st, dir, cs);
    NewJetKnown(cfg, st, dir, cs, w, token);
    NewLeads(cfg, st, dir, cs, w, i);
    assert t[k] == At(|st.mem| + i) by { FirstNewCell(cfg, st, dir, cs, i); }
    NewTraconPath(cfg, st, dir, cs, w, token, i);
    forall e: nat | e < |k.spell|
      ensures Leads(t, TailKey(k, e), path[i..], e)
    {
      var n := i + e;
      assert Leads(t, KeyFrom(cfg, s, n), path, n);
      assert s[i..][e..] == s[n..];
      assert TailKey(k, e) == KeyFrom(cfg, s, n);
    }
  }

  lemma FirstNewCell(cfg: Config, st: State, dir: nat, cs: seq<nat>, i: nat)
    requires Below(cs, |st.mem|) && dir < |st.sides| && i < CopiedIn(cfg, st, dir, cs)
    ensures i < |PathAfter(cfg, st, dir, cs)| && PathAfter(cfg, st, dir, cs)[i] == |st.mem| + i
  {
    hide SharedPath;
  }

  lemma OldTailsIn(cfg: Config, st: State, dir: nat, cs: seq<nat>, w: nat, token: int, d: nat, k: Key, t': map<Key, Ptr>)
    requires Ready(cfg, st, dir, cs, w) && d < 2 && k in st.sides[d].tracons
    requires TailsIn(st.mem, st.sides[d].tracons, k)
    requires forall k' :: k' in st.sides[d].tracons ==> k' in t' && t'[k'] == st.sides[d].tracons[k']
    ensures TailsIn(PackJet(cfg, st, dir, cs, w, token).mem, t', k)
  {
    hide JetMem, SideAfter, JetRoot;
    var t := st.sides[d].tracons;
    JetKeepsLinks(cfg, st, dir, cs, w, token);
    assert CellFor(st.mem, t[k], k, cfg.pruning);
    FollowFrame(st.mem, PackJet(cfg, st, dir, cs, w, token).mem, t[k], k.spell);
    forall i: nat | i < |k.spell|
      ensures Leads(t', TailKey(k, i), Follow(st.mem, t[k], |k.spell|), i)
    {
      assert Leads(t, TailKey(k, i), Follow(st.mem, t[k], |k.spell|), i);
    }
  }

  /** Packing a jet keeps the table closed. */
  lemma JetKeepsClosed(cfg: Config, st: State, dir: nat, cs: seq<nat>, w: nat, token: int)
    requires ShareReady(cfg, st, dir, cs, w)
    ensures TableClosed(PackJet(cfg, st, dir, cs, w, token).mem, TraconsAfter(cfg, st, dir, cs))
  {
    hide JetMem, SideAfter, JetRoot, Sound, KeyAt, TailsIn;
    var t, t', m := st.sides[dir].tracons, TraconsAfter(cfg, st, dir, cs), CopiedIn(cfg, st, dir, cs);
    forall k | k in t
      ensures k in t' && t'[k] == t[k]
    {
      InsertedKeeps(cfg, st.mem, t, cs, m, k);
    }
    forall k | k in t'
      ensures TailsIn(PackJet(cfg, st, dir, cs, w, token).mem, t', k)
    {
      if k in t {
        OldTailsIn(cfg, st, dir, cs, w, token, dir, k, t');
      } else {
        var i := InsertedSource(cfg, st.mem, t, cs, m, k);
        NewTailsIn(cfg, st, dir, cs, w, token, i);
      }
    }
  }

  // ---------- All jets ----------

  ghost predicate SameCell(mem: seq<Cell>, j: Jet, i: nat, j': Jet, i': nat) {
    && i < |JetCells(mem, j)|
    && i' < |JetCells(mem, j')|
    && JetCells(mem, j)[i] == JetCells(mem, j')[i']
  }

  /** Equal tracons of one direction and token are one cell. */
  ghost predicate Share(cfg: Config, mem: seq<Cell>, j: Jet, j': Jet) {
    j.dir == j'.dir && j.token == j'.token ==>
      forall i: nat, i': nat :: i < |j.spell| && i' < |j'.spell| && KeyFrom(cfg, j.spell, i) == KeyFrom(cfg, j'.spell, i') ==>
        SameCell(mem, j, i, j', i')
  }

  /** Jets of the current token are in the table of their direction. */
  ghost predicate Placed(cfg: Config, st: State, j: Jet)
    requires |st.sides| == 2
  {
    && j.dir < 2
    && j.token <= st.lastToken
    && (j.token == st.lastToken ==> JetKnown(cfg, st.mem, st.sides[j.dir].tracons, j))
  }

  ghost predicate Shares(cfg: Config, st: State)
    requires |st.sides| == 2
  {
    && (forall d: nat :: d < 2 ==> TableClosed(st.mem, st.sides[d].tracons))
    && (forall n: nat :: n < |st.jets| ==> Placed(cfg, st, st.jets[n]))
    && (forall n: nat, n': nat :: n < |st.jets| && n' < |st.jets| ==> Share(cfg, st.mem, st.jets[n], st.jets[n']))
  }

  lemma KnownShare(cfg: Config, mem: seq<Cell>, tracons: map<Key, Ptr>, j: Jet, j': Jet)
    requires JetKnown(cfg, mem, tracons, j) && JetKnown(cfg, mem, tracons, j')
    ensures Share(cfg, mem, j, j')
  {
    hide KeyFrom, JetCells;
    forall i: nat, i': nat | i < |j.spell| && i' < |j'.spell| && KeyFrom(cfg, j.spell, i) == KeyFrom(cfg, j'.spell, i')
      ensures SameCell(mem, j, i, j', i')
    {
      assert Leads(tracons, KeyFrom(cfg, j.spell, i), JetCells(mem, j), i);
      assert Leads(tracons, KeyFrom(cfg, j'.spell, i'), JetCells(mem, j'), i');
    }
  }

  lemma KnownFrame(cfg: Config, mem: seq<Cell>, mem': seq<Cell>, t: map<Key, Ptr>, t': map<Key, Ptr>, j: Jet)
    requires JetKnown(cfg, mem, t, j) && SameLinks(mem, mem') && JetOk(cfg, mem, j)
    requires forall k :: k in t ==> k in t' && t'[k] == t[k]
    ensures JetKnown(cfg, mem', t', j)
  {
    hide KeyFrom, JetCells, JetOk;
    JetCellsFrame(cfg, mem, mem', j);
    forall i: nat | i < |j.spell|
      ensures Leads(t', KeyFrom(cfg, j.spell, i), JetCells(mem', j), i)
    {
      assert Leads(t, KeyFrom(cfg, j.spell, i), JetCells(mem, j), i);
    }
  }

  lemma ShareFrame(cfg: Config, mem: seq<Cell>, mem': seq<Cell>, j: Jet, j': Jet)
    requires Share(cfg, mem, j, j') && SameLinks(mem, mem') && JetOk(cfg, mem, j) && JetOk(cfg, mem, j')
    ensures Share(cfg, mem', j, j')
  {
    hide KeyFrom, JetCells, JetOk;
    JetCellsFrame(cfg, mem, mem', j);
    JetCellsFrame(cfg, mem, mem', j');
    if j.dir == j'.dir && j.token == j'.token {
      forall i: nat, i': nat | i < |j.spell| && i' < |j'.spell| && KeyFrom(cfg, j.spell, i) == KeyFrom(cfg, j'.spell, i')
        ensures SameCell(mem', j, i, j', i')
      {
        assert SameCell(mem, j, i, j', i');
      }
    }
  }

  /** The step's premises: sharing so far, and a jet of the current token. */
  ghost predicate SharesReady(cfg: Config, st: State, dir: nat, cs: seq<nat>, w: nat, token: int) {
    && Ready(cfg, st, dir, cs, w)
    && cfg.pruning
    && cfg.encode
    && token == st.lastToken
    && Shares(cfg, st)
  }

  lemma TablesAfter(cfg: Config, st: State, dir: nat, cs: seq<nat>, w: nat, token: int)
    requires JetFits(cfg, st, dir, cs, w)
    ensures var st' := PackJet(cfg, st, dir, cs, w, token);
            && |st'.sides| == 2
            && st'.sides[dir].tracons == TraconsAfter(cfg, st, dir, cs)
            && st'.sides[1 - dir] == st.sides[1 - dir]
            && st'.lastToken == st.lastToken
            && st'.jets == st.jets + [Added(cfg, st, dir, cs, w, token)]
  {
    hide JetMem, JetRoot, Sharable, KeyAt;
  }

  lemma OldPlaced(cfg: Config, st: State, dir: nat, cs: seq<nat>, w: nat, token: int, n: nat)
    requires SharesReady(cfg, st, dir, cs, w, token) && n < |st.jets|
    ensures var st' := PackJet(cfg, st, dir, cs, w, token); |st'.sides| == 2 && Placed(cfg, st', st.jets[n])
  {
    hide JetMem, JetRoot, SideAfter, JetKnown, TableClosed, JetOk, PackJet, Added, Share;
    var st', j := PackJet(cfg, st, dir, cs, w, token), st.jets[n];
    TablesAfter(cfg, st, dir, cs, w, token);
    assert Placed(cfg, st, j) && JetOk(cfg, st.mem, j);
    if j.token == st.lastToken {
      JetKeepsLinks(cfg, st, dir, cs, w, token);
      var t := st.sides[j.dir].tracons;
      forall k | k in t && j.dir == dir
        ensures k in TraconsAfter(cfg, st, dir, cs) && TraconsAfter(cfg, st, dir, cs)[k] == t[k]
      {
        InsertedKeeps(cfg, st.mem, t, cs, CopiedIn(cfg, st, dir, cs), k);
      }
      KnownFrame(cfg, st.mem, st'.mem, t, st'.sides[j.dir].tracons, j);
    }
  }

  lemma NewPlaced(cfg: Config, st: State, dir: nat, cs: seq<nat>, w: nat, token: int)
    requires SharesReady(cfg, st, dir, cs, w, token)
    ensures var st' := PackJet(cfg, st, dir, cs, w, token);
            |st'.sides| == 2 && Placed(cfg, st', Added(cfg, st, dir, cs, w, token))
  {
    hide JetMem, JetRoot, SideAfter, JetKnown, TableClosed, Sound, PackJet;
    TablesAfter(cfg, st, dir, cs, w, token);
    NewJetKnown(cfg, st, dir, cs, w, token);
  }

  lemma TablesClosed(cfg: Config, st: State, dir: nat, cs: seq<nat>, w: nat, token: int, d: nat)
    requires SharesReady(cfg, st, dir, cs, w, token) && d < 2
    ensures var st' := PackJet(cfg, st, dir, cs, w, token);
            |st'.sides| == 2 && TableClosed(st'.mem, st'.sides[d].tracons)
  {
    hide JetMem, JetRoot, SideAfter, Placed, Share, TailsIn, Sound, PackJet;
    TablesAfter(cfg, st, dir, cs, w, token);
    if d == dir {
      JetKeepsClosed(cfg, st, dir, cs, w, token);
    } else {
      var t := st.sides[d].tracons;
      forall k | k in t
        ensures TailsIn(PackJet(cfg, st, dir, cs, w, token).mem, t, k)
      {
        OldTailsIn(cfg, st, dir, cs, w, token, d, k, t);
      }
    }
  }

  lemma PairShares(cfg: Config, st: State, dir: nat, cs: seq<nat>, w: nat, token: int, n: nat, n': nat)
    requires SharesReady(cfg, st, dir, cs, w, token)
    requires n < |PackJet(cfg, st, dir, cs, w, token).jets| && n' < |PackJet(cfg, st, dir, cs, w, token).jets|
    ensures var st' := PackJet(cfg, st, dir, cs, w, token); Share(cfg, st'.mem, st'.jets[n], st'.jets[n'])
  {
    hide JetMem, JetRoot, SideAfter, JetKnown, TableClosed, JetOk, PackJet, Added;
    var st' := PackJet(cfg, st, dir, cs, w, token);
    TablesAfter(cfg, st, dir, cs, w, token);
    if n < |st.jets| && n' < |st.jets| {
      JetKeepsLinks(cfg, st, dir, cs, w, token);
      assert JetOk(cfg, st.mem, st.jets[n]) && JetOk(cfg, st.mem, st.jets[n']);
      assert Share(cfg, st.mem, st.jets[n], st.jets[n']);
      ShareFrame(cfg, st.mem, st'.mem, st.jets[n], st.jets[n']);
    } else {
      JetPlaced(cfg, st, dir, cs, w, token, n);
      JetPlaced(cfg, st, dir, cs, w, token, n');
      var j, j' := st'.jets[n], st'.jets[n'];
      assert j.token == token || j'.token == token by { AddedToken(cfg, st, dir, cs, w, token); }
      if j.dir == j'.dir && j.token == j'.token {
        KnownShare(cfg, st'.mem, st'.sides[j.dir].tracons, j, j');
      }
    }
  }

  lemma AddedToken(cfg: Config, st: State, dir: nat, cs: seq<nat>, w: nat, token: int)
    requires JetFits(cfg, st, dir, cs, w)
    ensures Added(cfg, st, dir, cs, w, token).token == token
  {
  }

  lemma JetPlaced(cfg: Config, st: State, dir: nat, cs: seq<nat>, w: nat, token: int, n: nat)
    requires SharesReady(cfg, st, dir, cs, w, token) && n < |PackJet(cfg, st, dir, cs, w, token).jets|
    ensures var st' := PackJet(cfg, st, dir, cs, w, token); |st'.sides| == 2 && Placed(cfg, st', st'.jets[n])
  {
    hide JetMem, JetRoot, SideAfter, PackJet, Added, Placed, Sound, Shares;
    TablesAfter(cfg, st, dir, cs, w, token);
    if n < |st.jets| {
      OldPlaced(cfg, st, dir, cs, w, token, n);
    } else {
      NewPlaced(cfg, st, dir, cs, w, token);
    }
  }

  /** Packing a jet keeps all tracons shared. */
  lemma JetShares(cfg: Config, st: State, dir: nat, cs: seq<nat>, w: nat, token: int)
    requires SharesReady(cfg, st, dir, cs, w, token)
    ensures var st' := PackJet(cfg, st, dir, cs, w, token); |st'.sides| == 2 && Shares(cfg, st')
  {
    hide JetMem, JetRoot, SideAfter, PackJet, Added, Placed, Sound, Share, TableClosed;
    var st' := PackJet(cfg, st, dir, cs, w, token);
    TablesAfter(cfg, st, dir, cs, w, token);
    forall d: nat | d < 2
      ensures TableClosed(st'.mem, st'.sides[d].tracons)
    {
      TablesClosed(cfg, st, dir, cs, w, token, d);
    }
    forall n: nat | n < |st'.jets|
      ensures Placed(cfg, st', st'.jets[n])
    {
      JetPlaced(cfg, st, dir, cs, w, token, n);
    }
    forall n: nat, n': nat | n < |st'.jets| && n' < |st'.jets|
      ensures Share(cfg, st'.mem, st'.jets[n], st'.jets[n'])
    {
      PairShares(cfg, st, dir, cs, w, token, n, n');
    }
  }

  // ---------- Disjuncts and sentences ----------

  /** A later token empties the tables; no jet carries it yet. */
  lemma EnterShares(cfg: Config, st: State, token: int)
    requires |st.sides| == 2 && Shares(cfg, st) && st.lastToken <= token && cfg.encode
    ensures var st' := Enter(cfg, st, token); |st'.sides| == 2 && Shares(cfg, st') && st'.lastToken == token
  {
    hide JetKnown, TailsIn, Share;
    var st' := Enter(cfg, st, token);
    forall n: nat | n < |st'.jets|
      ensures Placed(cfg, st', st'.jets[n])
    {
      assert Placed(cfg, st, st.jets[n]);
    }
    forall d: nat | d < 2
      ensures TableClosed(st'.mem, st'.sides[d].tracons)
    {
      assert TableClosed(st.mem, st.sides[d].tracons);
    }
  }

  lemma SideShares(cfg: Config, orig: seq<Cell>, numUc: nat, length: nat, st: State, dir: nat, p: Ptr, w: nat, token: int)
    requires Extends(cfg, orig, numUc, length, st) && dir < 2 && ListOk(cfg, orig, numUc, length, p, w)
    requires Packed(cfg, st) && Shares(cfg, st) && cfg.pruning && cfg.encode && token == st.lastToken
    ensures var st' := PackSide(cfg, orig, numUc, length, st, dir, p, w, token);
            |st'.sides| == 2 && Shares(cfg, st') && st'.lastToken == token
  {
    hide JetMem, SideAfter, JetRoot, Shares, Chain, Marks, Numbered, Reached, RefcountsOk;
    var cs := ListAt(orig, p);
    SpellFrame(orig, st.mem, cs);
    JetShares(cfg, st, dir, cs, w, token);
  }

  lemma DisjunctShares(cfg: Config, orig: seq<Cell>, numUc: nat, length: nat, st: State, it: Item)
    requires Extends(cfg, orig, numUc, length, st) && ItemOk(cfg, orig, numUc, length, it)
    requires Packed(cfg, st) && Shares(cfg, st) && cfg.pruning && cfg.encode && st.lastToken <= it.word
    ensures var st' := PackDisjunct(cfg, orig, numUc, length, st, it);
            |st'.sides| == 2 && Shares(cfg, st') && st'.lastToken == it.word
  {
    hide Packed, PackSide, Extends, Shares;
    var token := TokenOf(cfg, it);
    EnterExtends(cfg, orig, numUc, length, st, token);
    EnterPacked(cfg, st, token);
    EnterShares(cfg, st, token);
    var st0 := Enter(cfg, st, token);
    var st1 := PackSide(cfg, orig, numUc, length, st0, 0, it.d.left, it.word, token);
    SidePacked(cfg, orig, numUc, length, st0, 0, it.d.left, it.word, token);
    SideShares(cfg, orig, numUc, length, st0, 0, it.d.left, it.word, token);
    var st2 := PackSide(cfg, orig, numUc, length, st1, 1, it.d.right, it.word, token);
    SideShares(cfg, orig, numUc, length, st1, 1, it.d.right, it.word, token);
    AppendShares(cfg, st2, PackDisjunct(cfg, orig, numUc, length, st, it));
  }

  lemma AppendShares(cfg: Config, st: State, st': State)
    requires |st.sides| == 2 && Shares(cfg, st) && st' == st.(dblock := st'.dblock)
    ensures Shares(cfg, st')
  {
    hide JetKnown, TailsIn, Share, TableClosed;
    forall n: nat | n < |st'.jets|
      ensures Placed(cfg, st', st'.jets[n])
    {
      assert Placed(cfg, st, st.jets[n]);
    }
  }

  lemma {:induction false} PackShares(cfg: Config, orig: seq<Cell>, numUc: nat, length: nat, items: seq<Item>)
    requires |orig| == cfg.base && SentenceOk(cfg, orig, numUc, length, items)
    requires cfg.pruning && cfg.encode && InWordOrder(items)
    ensures var st := Pack(cfg, orig, numUc, length, items);
            |st.sides| == 2 && Shares(cfg, st)
            && st.lastToken == if items == [] then -1 else items[|items| - 1].word
  {
    hide Packed, PackDisjunct, Extends, ItemOk;
    if items == [] {
      assert Pack(cfg, orig, numUc, length, items) == Start(cfg, orig, numUc, length);
    } else {
      hide Shares;
      var n := |items| - 1;
      var st := Pack(cfg, orig, numUc, length, items[..n]);
      PackShares(cfg, orig, numUc, length, items[..n]);
      PackKeeps(cfg, orig, numUc, length, items[..n]);
      assert ItemOk(cfg, orig, numUc, length, items[n]);
      DisjunctShares(cfg, orig, numUc, length, st, items[n]);
    }
  }

  // ---------- The theorems ----------

  /** `st` is a sentence packed for pruning, with sharing. */
  ghost predicate SharedResult(cfg: Config, orig: seq<Cell>, numUc: nat, length: nat, items: seq<Item>, st: State) {
    Result(cfg, orig, numUc, length, items, st) && cfg.pruning && cfg.encode && InWordOrder(items)
  }

  /** A tracon of a sentence: where it belongs, what it spells, and whether it
      is a whole jet. */
  datatype Tracon = Tracon(dir: nat, token: int, spell: seq<Con>, whole: bool)

  function TraconAt(j: Jet, i: nat): Tracon
    requires i <= |j.spell|
  {
    Tracon(j.dir, j.token, j.spell[i..], i == 0)
  }

  lemma SameCellSpells(cfg: Config, mem: seq<Cell>, j: Jet, i: nat, j': Jet, i': nat)
    requires JetOk(cfg, mem, j) && JetOk(cfg, mem, j') && i < |j.spell| && i' < |j'.spell|
    requires SameCell(mem, j, i, j', i')
    ensures j.spell[i..] == j'.spell[i'..]
  {
    FollowAt(mem, j.root, j.spell, i);
    FollowAt(mem, j'.root, j'.spell, i');
    SpellsUnique(mem, At(JetCells(mem, j)[i]), j.spell[i..], j'.spell[i'..]);
  }

  lemma ResultJet(cfg: Config, orig: seq<Cell>, numUc: nat, length: nat, items: seq<Item>, st: State, n: nat)
    requires Result(cfg, orig, numUc, length, items, st) && n < |st.jets|
    ensures JetOk(cfg, st.mem, st.jets[n]) && |JetCells(st.mem, st.jets[n])| == |st.jets[n].spell|
    ensures Packed(cfg, st)
  {
    hide Result, Marks, Numbered, Reached, RefcountsOk, Closed, TraconsOk;
    ResultPacked(cfg, orig, numUc, length, items, st);
    FollowLength(st.mem, st.jets[n].root, st.jets[n].spell);
  }

  /** Two connectors are one cell exactly when they start the same tracon. */
  lemma SharedExactly(cfg: Config, orig: seq<Cell>, numUc: nat, length: nat, items: seq<Item>, st: State,
                      n: nat, i: nat, n': nat, i': nat)
    requires SharedResult(cfg, orig, numUc, length, items, st)
    requires n < |st.jets| && i < |st.jets[n].spell| && n' < |st.jets| && i' < |st.jets[n'].spell|
    ensures SameCell(st.mem, st.jets[n], i, st.jets[n'], i') <==> TraconAt(st.jets[n], i) == TraconAt(st.jets[n'], i')
  {
    hide Result, Packed, JetOk, JetCells;
    var j, j' := st.jets[n], st.jets[n'];
    ResultJet(cfg, orig, numUc, length, items, st, n);
    ResultJet(cfg, orig, numUc, length, items, st, n');
    if SameCell(st.mem, j, i, j', i') {
      SameCellSpells(cfg, st.mem, j, i, j', i');
      ShallowIffFirst(cfg, orig, numUc, length, items, st, n, i);
      ShallowIffFirst(cfg, orig, numUc, length, items, st, n', i');
      JetHome(cfg, st, n, JetCells(st.mem, j)[i]);
      JetHome(cfg, st, n', JetCells(st.mem, j')[i']);
    }
    if TraconAt(j, i) == TraconAt(j', i') {
      assert Share(cfg, st.mem, j, j') by { ResultShares(cfg, orig, numUc, length, items, st, n, n'); }
      assert KeyFrom(cfg, j.spell, i) == KeyFrom(cfg, j'.spell, i');
    }
  }

  lemma ResultShares(cfg: Config, orig: seq<Cell>, numUc: nat, length: nat, items: seq<Item>, st: State, n: nat, n': nat)
    requires SharedResult(cfg, orig, numUc, length, items, st) && n < |st.jets| && n' < |st.jets|
    ensures Share(cfg, st.mem, st.jets[n], st.jets[n'])
  {
    hide Share, Placed, TableClosed;
    PackShares(cfg, orig, numUc, length, items);
  }

  ghost function AllTracons(jets: seq<Jet>): set<Tracon> {
    set n: nat, i: nat | n < |jets| && i < |jets[n].spell| :: TraconAt(jets[n], i)
  }

  /** The `i`th connector of the `n`th jet starts `t`. */
  ghost predicate Starts(jets: seq<Jet>, n: nat, i: nat, t: Tracon) {
    n < |jets| && i < |jets[n].spell| && TraconAt(jets[n], i) == t
  }

  ghost predicate WholeCells(st: State) {
    forall j :: j in st.jets ==> |JetCells(st.mem, j)| == |j.spell|
  }

  /** The cell of a tracon. */
  ghost function CellOf(st: State, t: Tracon): nat
    requires WholeCells(st) && t in AllTracons(st.jets)
  {
    var n0: nat, i0: nat :| n0 < |st.jets| && i0 < |st.jets[n0].spell| && TraconAt(st.jets[n0], i0) == t;
    assert Starts(st.jets, n0, i0, t);
    var n: nat, i: nat :| Starts(st.jets, n, i, t);
    JetCells(st.mem, st.jets[n])[i]
  }

  ghost function TraconsBelow(st: State, hi: nat): set<Tracon>
    requires WholeCells(st)
  {
    set t | t in AllTracons(st.jets) && CellOf(st, t) < hi
  }

  lemma ResultWhole(cfg: Config, orig: seq<Cell>, numUc: nat, length: nat, items: seq<Item>, st: State)
    requires Result(cfg, orig, numUc, length, items, st)
    ensures WholeCells(st) && Packed(cfg, st) && cfg.base <= |st.mem|
  {
    hide Result, Packed, JetCells;
    forall j | j in st.jets
      ensures |JetCells(st.mem, j)| == |j.spell|
    {
      var n: nat :| n < |st.jets| && st.jets[n] == j;
      ResultJet(cfg, orig, numUc, length, items, st, n);
    }
    ResultPacked(cfg, orig, numUc, length, items, st);
    HomeLength(cfg, st);
  }

  lemma TraconHasJet(st: State, t: Tracon) returns (n: nat, i: nat)
    requires WholeCells(st) && t in AllTracons(st.jets)
    ensures Starts(st.jets, n, i, t) && CellOf(st, t) == JetCells(st.mem, st.jets[n])[i]
  {
    hide JetCells;
    var n0: nat, i0: nat :| n0 < |st.jets| && i0 < |st.jets[n0].spell| && TraconAt(st.jets[n0], i0) == t;
    assert Starts(st.jets, n0, i0, t);
    n, i :| Starts(st.jets, n, i, t) && CellOf(st, t) == JetCells(st.mem, st.jets[n])[i];
  }

  /** A tracon's cell does not depend on the jet it is looked for in. */
  lemma CellOfIs(cfg: Config, orig: seq<Cell>, numUc: nat, length: nat, items: seq<Item>, st: State, n: nat, i: nat)
    requires SharedResult(cfg, orig, numUc, length, items, st) && WholeCells(st)
    requires n < |st.jets| && i < |st.jets[n].spell|
    ensures TraconAt(st.jets[n], i) in AllTracons(st.jets)
    ensures CellOf(st, TraconAt(st.jets[n], i)) == JetCells(st.mem, st.jets[n])[i]
  {
    hide SharedResult, JetCells;
    var t := TraconAt(st.jets[n], i);
    assert t in AllTracons(st.jets);
    var n', i' := TraconHasJet(st, t);
    SharedExactly(cfg, orig, numUc, length, items, st, n, i, n', i');
  }

  /** Every cell is the cell of one tracon. */
  lemma OneTraconPerCell(cfg: Config, orig: seq<Cell>, numUc: nat, length: nat, items: seq<Item>, st: State, a: nat)
    returns (t: Tracon)
    requires SharedResult(cfg, orig, numUc, length, items, st) && WholeCells(st) && cfg.base <= a < |st.mem|
    ensures t in AllTracons(st.jets) && CellOf(st, t) == a
    ensures forall u :: u in AllTracons(st.jets) && CellOf(st, u) == a ==> u == t
  {
    hide JetCells, Packed, Result, AllTracons, CellOf;
    assert Passing(st.mem, st.jets, a) > 0 by { CellReached(cfg, orig, numUc, length, items, st, a); }
    var n := SomeJetThrough(st.mem, st.jets, a);
    var i: nat :| i < |JetCells(st.mem, st.jets[n])| && JetCells(st.mem, st.jets[n])[i] == a;
    t := TraconAt(st.jets[n], i);
    CellOfIs(cfg, orig, numUc, length, items, st, n, i);
    forall u | u in AllTracons(st.jets) && CellOf(st, u) == a
      ensures u == t
    {
      var n', i' := TraconHasJet(st, u);
      SharedExactly(cfg, orig, numUc, length, items, st, n, i, n', i');
    }
  }

  lemma CellReached(cfg: Config, orig: seq<Cell>, numUc: nat, length: nat, items: seq<Item>, st: State, a: nat)
    requires Result(cfg, orig, numUc, length, items, st) && cfg.base <= a < |st.mem|
    ensures Passing(st.mem, st.jets, a) > 0
  {
    hide Result, Sound, Marks, Numbered, RefcountsOk;
    ResultPacked(cfg, orig, numUc, length, items, st);
  }

  lemma {:induction false} CountTracons(cfg: Config, orig: seq<Cell>, numUc: nat, length: nat, items: seq<Item>, st: State, hi: nat)
    requires SharedResult(cfg, orig, numUc, length, items, st) && WholeCells(st) && cfg.base <= hi <= |st.mem|
    requires forall t :: t in AllTracons(st.jets) ==> cfg.base <= CellOf(st, t)
    ensures |TraconsBelow(st, hi)| == hi - cfg.base
    decreases hi
  {
    hide SharedResult, WholeCells, AllTracons, CellOf;
    if hi == cfg.base {
      assert TraconsBelow(st, hi) == {};
    } else {
      CountTracons(cfg, orig, numUc, length, items, st, hi - 1);
      var t := OneTraconPerCell(cfg, orig, numUc, length, items, st, hi - 1);
      assert TraconsBelow(st, hi) == TraconsBelow(st, hi - 1) + {t};
    }
  }

  lemma CellOfInside(cfg: Config, orig: seq<Cell>, numUc: nat, length: nat, items: seq<Item>, st: State, t: Tracon)
    requires Result(cfg, orig, numUc, length, items, st) && WholeCells(st) && t in AllTracons(st.jets)
    ensures cfg.base <= CellOf(st, t) < |st.mem|
  {
    hide Packed, Result, AllTracons, CellOf;
    ResultPacked(cfg, orig, numUc, length, items, st);
    var n, i := TraconHasJet(st, t);
    JetHome(cfg, st, n, JetCells(st.mem, st.jets[n])[i]);
  }

  /** The block packed for pruning holds as many cells as the sentence has
      different tracons. */
  lemma CellsCountTracons(cfg: Config, orig: seq<Cell>, numUc: nat, length: nat, items: seq<Item>, st: State)
    requires SharedResult(cfg, orig, numUc, length, items, st)
    ensures |st.mem| == cfg.base + |AllTracons(st.jets)|
  {
    hide Result, Packed, AllTracons, CellOf, WholeCells;
    ResultWhole(cfg, orig, numUc, length, items, st);
    forall t | t in AllTracons(st.jets)
      ensures cfg.base <= CellOf(st, t) < |st.mem|
    {
      CellOfInside(cfg, orig, numUc, length, items, st, t);
    }
    CountTracons(cfg, orig, numUc, length, items, st, |st.mem|);
    assert TraconsBelow(st, |st.mem|) == AllTracons(st.jets);
  }
}
