/** The number of different upper-case parts per word and direction.  Only newly
    copied connectors are stamped, and the stamps are never cleared between
    words. */
module PackingUcs {
  import opened Connectors
  import opened TraconSets
  import opened PackingSpec
  import opened PackingMeaning

  ghost function UcSet(s: seq<Con>): set<nat> {
    set i: nat | i < |s| :: s[i].desc.ucNum
  }

  /** The upper-case parts of the jets of word `w` in direction `d`. */
  ghost function WordUcs(jets: seq<Jet>, d: nat, w: nat): set<nat> {
    if jets == [] then {}
    else
      var j := jets[|jets| - 1];
      WordUcs(jets[..|jets| - 1], d, w) + if j.dir == d && j.word == w then UcSet(j.spell) else {}
  }

  /** The stamps of `w` are on exactly the parts in `seen`, and are counted. */
  ghost predicate Stamped(uc: UcTable, w: nat, seen: set<nat>) {
    && (forall u: nat :: u < |uc.seen| ==> (uc.seen[u] == w <==> u in seen))
    && (w < |uc.count| ==> uc.count[w] == |seen|)
  }

  /** No stamp is from after `w`. */
  ghost predicate NoLaterStamp(uc: UcTable, w: nat) {
    forall u: nat :: u < |uc.seen| ==> uc.seen[u] <= w || uc.seen[u] == NO_WORD
  }

  ghost predicate CountsOk(uc: UcTable, jets: seq<Jet>, d: nat) {
    forall v: nat :: v < |uc.count| ==> uc.count[v] == |WordUcs(jets, d, v)|
  }

  /** While word `w` is being packed. */
  ghost predicate UcTableOk(uc: UcTable, jets: seq<Jet>, d: nat, w: nat) {
    Stamped(uc, w, WordUcs(jets, d, w)) && NoLaterStamp(uc, w) && CountsOk(uc, jets, d)
  }

  /** A tracon in the table was seen in full in this word. */
  ghost predicate TraconsSeen(tracons: map<Key, Ptr>, jets: seq<Jet>, d: nat, w: nat) {
    forall k :: k in tracons ==> UcSet(k.spell) <= WordUcs(jets, d, w)
  }

  ghost predicate JetsUpTo(jets: seq<Jet>, w: nat) {
    forall i: nat :: i < |jets| ==> jets[i].word <= w
  }

  ghost predicate UcsOk(cfg: Config, st: State, w: nat)
    requires |st.sides| == 2
  {
    && JetsUpTo(st.jets, w)
    && (cfg.pruning ==> forall d: nat :: d < 2 ==>
         && UcTableOk(st.sides[d].uc, st.jets, d, w)
         && TraconsSeen(st.sides[d].tracons, st.jets, d, w))
  }

  lemma UcSetSplit(s: seq<Con>, i: nat)
    requires i <= |s|
    ensures UcSet(s) == UcSet(s[..i]) + UcSet(s[i..])
  {
    forall u | u in UcSet(s)
      ensures u in UcSet(s[..i]) + UcSet(s[i..])
    {
      var k: nat :| k < |s| && s[k].desc.ucNum == u;
      if k < i { assert s[..i][k].desc.ucNum == u; } else { assert s[i..][k - i].desc.ucNum == u; }
    }
  }

  /** Only stamps of `w` and the count of `w` differ. */
  ghost predicate OnlyWord(uc: UcTable, uc': UcTable, w: nat) {
    && |uc'.seen| == |uc.seen| && |uc'.count| == |uc.count|
    && (forall v: nat :: v < |uc.count| && v != w ==> uc'.count[v] == uc.count[v])
  }

  lemma StampOne(uc: UcTable, u: nat, w: nat, seen: set<nat>)
    requires u < |uc.seen| && w < |uc.count| && w < NO_WORD && Stamped(uc, w, seen) && NoLaterStamp(uc, w)
    ensures Stamped(Stamp(uc, u, w), w, seen + {u})
    ensures OnlyWord(uc, Stamp(uc, u, w), w) && NoLaterStamp(Stamp(uc, u, w), w)
  {
    if u in seen { assert seen + {u} == seen; }
  }

  /** Stamping a list adds its parts to the set the stamps of `w` describe. */
  lemma {:induction false} StampAllCounts(uc: UcTable, s: seq<Con>, w: nat, seen: set<nat>)
    requires UcFits(uc, s, w) && w < NO_WORD && Stamped(uc, w, seen) && NoLaterStamp(uc, w)
    ensures Stamped(StampAll(uc, s, w), w, seen + UcSet(s))
    ensures OnlyWord(uc, StampAll(uc, s, w), w) && NoLaterStamp(StampAll(uc, s, w), w)
  {
    hide Stamp, Stamped, NoLaterStamp;
    if s == [] {
      assert seen + UcSet(s) == seen;
    } else {
      var n := |s| - 1;
      StampAllCounts(uc, s[..n], w, seen);
      UcSetSplit(s, n);
      assert UcSet(s[n..]) == {s[n].desc.ucNum};
      StampOne(StampAll(uc, s[..n], w), s[n].desc.ucNum, w, seen + UcSet(s[..n]));
      assert seen + UcSet(s) == seen + UcSet(s[..n]) + {s[n].desc.ucNum};
    }
  }

  lemma WordUcsAdd(jets: seq<Jet>, j: Jet, d: nat, w: nat)
    ensures WordUcs(jets + [j], d, w)
         == WordUcs(jets, d, w) + if j.dir == d && j.word == w then UcSet(j.spell) else {}
  {
    assert (jets + [j])[..|jets|] == jets;
  }

  /** What is shared has been seen before in this word. */
  lemma SharedSeen(cfg: Config, st: State, dir: nat, cs: seq<nat>, w: nat)
    requires Ready(cfg, st, dir, cs, w) && UcsOk(cfg, st, w) && cfg.pruning
    ensures UcSet(Spell(st.mem, cs)[CopiedIn(cfg, st, dir, cs)..]) <= WordUcs(st.jets, dir, w)
  {
    hide Sound, UcTableOk;
    var m := CopiedIn(cfg, st, dir, cs);
    if m < |cs| { assert KeyAt(cfg, st.mem, cs, m) in st.sides[dir].tracons; }
  }

  lemma UcTableStep(cfg: Config, st: State, dir: nat, cs: seq<nat>, w: nat, token: int)
    requires Ready(cfg, st, dir, cs, w) && UcsOk(cfg, st, w) && cfg.pruning && w < NO_WORD
    ensures var st' := PackJet(cfg, st, dir, cs, w, token);
            UcTableOk(st'.sides[dir].uc, st'.jets, dir, w)
  {
    hide JetMem, JetRoot, Sound, Inserted, Stamped, NoLaterStamp, CountsOk;
    var st' := PackJet(cfg, st, dir, cs, w, token);
    var m, s := CopiedIn(cfg, st, dir, cs), Spell(st.mem, cs);
    var uc, seen := st.sides[dir].uc, WordUcs(st.jets, dir, w);
    StampAllCounts(uc, s[..m], w, seen);
    SharedSeen(cfg, st, dir, cs, w);
    UcSetSplit(s, m);
    assert seen + UcSet(s[..m]) == seen + UcSet(s);
    WordUcsAdd(st.jets, st'.jets[|st.jets|], dir, w);
    CountsStep(uc, st'.sides[dir].uc, st.jets, st'.jets[|st.jets|], dir, w);
  }

  lemma CountsStep(uc: UcTable, uc': UcTable, jets: seq<Jet>, j: Jet, d: nat, w: nat)
    requires CountsOk(uc, jets, d) && OnlyWord(uc, uc', w) && j.word == w
    requires Stamped(uc', w, WordUcs(jets + [j], d, w))
    ensures CountsOk(uc', jets + [j], d)
  {
    forall v: nat | v < |uc'.count|
      ensures uc'.count[v] == |WordUcs(jets + [j], d, v)|
    {
      WordUcsAdd(jets, j, d, v);
    }
  }

  lemma OtherDirection(uc: UcTable, jets: seq<Jet>, j: Jet, d: nat, w: nat)
    requires UcTableOk(uc, jets, d, w) && j.dir != d
    ensures UcTableOk(uc, jets + [j], d, w)
  {
    WordUcsAdd(jets, j, d, w);
    forall v: nat | v < |uc.count|
      ensures uc.count[v] == |WordUcs(jets + [j], d, v)|
    {
      WordUcsAdd(jets, j, d, v);
    }
  }

  lemma UcTableOther(cfg: Config, st: State, dir: nat, cs: seq<nat>, w: nat, token: int)
    requires Ready(cfg, st, dir, cs, w) && UcsOk(cfg, st, w) && cfg.pruning
    ensures var st', d := PackJet(cfg, st, dir, cs, w, token), 1 - dir;
            st'.sides[d] == st.sides[d]
            && UcTableOk(st'.sides[d].uc, st'.jets, d, w)
            && TraconsSeen(st'.sides[d].tracons, st'.jets, d, w)
  {
    hide JetMem, JetRoot, Sound, SideAfter, UcTableOk;
    var st' := PackJet(cfg, st, dir, cs, w, token);
    OtherDirection(st.sides[1 - dir].uc, st.jets, st'.jets[|st.jets|], 1 - dir, w);
    WordUcsAdd(st.jets, st'.jets[|st.jets|], 1 - dir, w);
  }

  lemma {:induction false} InsertedSeen(cfg: Config, mem: seq<Cell>, tracons: map<Key, Ptr>, cs: seq<nat>, i: nat,
                                        seen: set<nat>)
    requires Below(cs, |mem|) && i <= |cs|
    requires forall k :: k in tracons ==> UcSet(k.spell) <= seen
    requires UcSet(Spell(mem, cs)) <= seen
    ensures forall k :: k in Inserted(cfg, mem, tracons, cs, i) ==> UcSet(k.spell) <= seen
  {
    if i > 0 && cfg.encode {
      InsertedSeen(cfg, mem, tracons, cs, i - 1, seen);
      UcSetSplit(Spell(mem, cs), i - 1);
    }
  }

  /** Packing a jet keeps the counts right. */
  lemma JetUcs(cfg: Config, st: State, dir: nat, cs: seq<nat>, w: nat, token: int)
    requires Ready(cfg, st, dir, cs, w) && UcsOk(cfg, st, w) && w < NO_WORD
    ensures UcsOk(cfg, PackJet(cfg, st, dir, cs, w, token), w)
  {
    hide JetMem, JetRoot, Sound, UcTableOk;
    if cfg.pruning {
      var st' := PackJet(cfg, st, dir, cs, w, token);
      UcTableStep(cfg, st, dir, cs, w, token);
      UcTableOther(cfg, st, dir, cs, w, token);
      WordUcsAdd(st.jets, st'.jets[|st.jets|], dir, w);
      InsertedSeen(cfg, st.mem, st.sides[dir].tracons, cs, CopiedIn(cfg, st, dir, cs), WordUcs(st'.jets, dir, w));
    }
  }

  lemma {:induction false} LaterWordEmpty(jets: seq<Jet>, d: nat, w: nat, w': nat)
    requires JetsUpTo(jets, w) && w < w'
    ensures WordUcs(jets, d, w') == {}
  {
    if jets != [] { LaterWordEmpty(jets[..|jets| - 1], d, w, w'); }
  }

  lemma NextWordTable(uc: UcTable, jets: seq<Jet>, d: nat, w: nat, w': nat)
    requires UcTableOk(uc, jets, d, w) && JetsUpTo(jets, w) && w < w' < NO_WORD
    ensures UcTableOk(uc, jets, d, w')
  {
    LaterWordEmpty(jets, d, w, w');
  }

  /** Going on to a later word needs no clearing of the stamps. */
  lemma NextWordUcs(cfg: Config, st: State, w: nat, w': nat)
    requires |st.sides| == 2 && UcsOk(cfg, st, w) && w < w' < NO_WORD
    requires st.sides[0].tracons == st.sides[1].tracons == map[]
    ensures UcsOk(cfg, st, w')
  {
    hide UcTableOk;
    if cfg.pruning {
      NextWordTable(st.sides[0].uc, st.jets, 0, w, w');
      NextWordTable(st.sides[1].uc, st.jets, 1, w, w');
    }
  }
}
