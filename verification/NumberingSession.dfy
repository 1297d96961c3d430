/** Whole runs of the connector table: strings are interned and rounds of
    numbering are made in any order. */
module NumberingSessions {
  import opened ConnectorMatch
  import opened UcOrder
  import opened ConTables

  datatype Op = Intern(s: Name) | Round

  /** The strings interned, in order. */
  function Adds(ops: seq<Op>): seq<Name> {
    if ops == [] then []
    else
      var n := |ops| - 1;
      match ops[n]
      case Intern(s) => Adds(ops[..n]) + [s]
      case Round => Adds(ops[..n])
  }

  /** How many connectors have a number: all that were there in the last round. */
  function NumberedBy(ops: seq<Op>): nat {
    if ops == [] then 0
    else
      var n := |ops| - 1;
      if ops[n].Round? then |InternAll(Adds(ops))| else NumberedBy(ops[..n])
  }

  ghost predicate OpsOk(ops: seq<Op>) {
    |ops| < UNNUMBERED && forall i: nat :: i < |ops| && ops[i].Intern? ==> WellFormed(ops[i].s)
  }

  lemma {:induction false} AddsFormed(ops: seq<Op>)
    requires OpsOk(ops)
    ensures AllWellFormed(Adds(ops)) && |Adds(ops)| <= |ops|
  {
    hide WellFormed;
    if ops != [] {
      var n := |ops| - 1;
      AddsFormed(ops[..n]);
      assert ops[n].Intern? ==> WellFormed(ops[n].s);
    }
  }

  lemma {:induction false} NamesFormed(ops: seq<Op>)
    requires OpsOk(ops)
    ensures AllWellFormed(InternAll(Adds(ops))) && |InternAll(Adds(ops))| <= |ops|
  {
    hide WellFormed;
    AddsFormed(ops);
    var adds, names := Adds(ops), InternAll(Adds(ops));
    forall k: nat | k < |names|
      ensures WellFormed(names[k])
    {
      assert names[k] in adds;
    }
    InternedCount(adds);
  }

  lemma {:induction false} InternedCount(adds: seq<Name>)
    ensures |InternAll(adds)| <= |adds|
  {
    if adds != [] { InternedCount(adds[..|adds| - 1]); }
  }

  /** In no round does an upper-case part come back that has a number already. */
  ghost predicate PartsNeverReturn(ops: seq<Op>)
    requires OpsOk(ops)
  {
    ops == [] ||
    var n := |ops| - 1;
    && PartsNeverReturn(ops[..n])
    && (NamesFormed(ops); ops[n].Round? ==> PartsNew(InternAll(Adds(ops)), NumberedBy(ops[..n])))
  }

  /** The state of the table after a run. */
  ghost predicate After(ops: seq<Op>, names: seq<Name>, ucNum: seq<nat>, numUc: nat, lastNum: nat)
    requires OpsOk(ops)
  {
    && names == InternAll(Adds(ops))
    && |names| == |ucNum|
    && AllWellFormed(names)
    && lastNum == NumberedBy(ops)
    && Tidy(ucNum, numUc, lastNum)
    && (Told(names, ucNum, lastNum) <==> PartsNeverReturn(ops))
  }

  lemma AfterIntern(ops: seq<Op>, s: Name, names: seq<Name>, ucNum: seq<nat>, numUc: nat, lastNum: nat)
    requires OpsOk(ops + [Intern(s)]) && OpsOk(ops) && After(ops, names, ucNum, numUc, lastNum)
    ensures After(ops + [Intern(s)], if s in names then names else names + [s],
                  if s in names then ucNum else ucNum + [UNNUMBERED], numUc, lastNum)
  {
    hide WellFormed, Tidy, Told;
    var ops' := ops + [Intern(s)];
    assert ops'[..|ops|] == ops && ops'[|ops|] == Intern(s);
    assert WellFormed(s);
    assert (Adds(ops) + [s])[..|Adds(ops)|] == Adds(ops);
    AddKeepsNumbering(names, s, ucNum, numUc, lastNum);
  }

  lemma AfterRound(ops: seq<Op>, names: seq<Name>, before: seq<nat>, numUc: nat, lastNum: nat, after: seq<nat>, numUc': nat)
    requires OpsOk(ops + [Round]) && OpsOk(ops) && After(ops, names, before, numUc, lastNum)
    requires |after| == |names| && Tidy(after, numUc', |names|)
    requires Told(names, after, |names|) <==> Told(names, before, lastNum) && PartsNew(names, lastNum)
    ensures After(ops + [Round], names, after, numUc', |names|)
  {
    hide WellFormed, Tidy, Told, PartsNew;
    var ops' := ops + [Round];
    assert ops'[..|ops|] == ops && ops'[|ops|] == Round;
  }

  /** One operation. */
  method Perform(ct: ConTable, op: Op, ghost done: seq<Op>)
    requires ct.Valid() && OpsOk(done) && OpsOk(done + [op])
    requires After(done, ct.names, ct.ucNum, ct.numUc, ct.lastNum)
    modifies ct, ct.hdesc
    ensures ct.Valid() && (ct.hdesc == old(ct.hdesc) || fresh(ct.hdesc))
    ensures After(done + [op], ct.names, ct.ucNum, ct.numUc, ct.lastNum)
  {
    hide WellFormed, Tidy, Told, After, OpsOk;
    AfterFacts(done, ct.names, ct.ucNum, ct.numUc, ct.lastNum);
    match op
    case Intern(s) =>
      AfterIntern(done, s, ct.names, ct.ucNum, ct.numUc, ct.lastNum);
      var k := ct.Add(s);
    case Round =>
      ghost var names, ucNum, numUc, lastNum := ct.names, ct.ucNum, ct.numUc, ct.lastNum;
      ct.UpdateCondesc();
      AfterRound(done, names, ucNum, numUc, lastNum, ct.ucNum, ct.numUc);
  }

  /** After any interleaving: the strings are those interned, in order of first
      insertion; those of the last round are numbered without gaps, the others
      not at all; and numbers tell connectors apart by upper-case part if and only
      if no part came back in a later round. */
  method RunSession(numCon: nat, ops: seq<Op>) returns (ct: ConTable)
    requires OpsOk(ops)
    ensures ct.Valid() && After(ops, ct.names, ct.ucNum, ct.numUc, ct.lastNum)
  {
    hide WellFormed, After, OpsOk;
    ct := new ConTable(numCon);
    assert ops[..0] == [];
    StartOfRun(ops);
    for n := 0 to |ops|
      invariant fresh(ct) && fresh(ct.hdesc) && ct.Valid() && OpsOk(ops[..n])
      invariant After(ops[..n], ct.names, ct.ucNum, ct.numUc, ct.lastNum)
    {
      RunPrefix(ops, n);
      Perform(ct, ops[n], ops[..n]);
    }
    assert ops[..|ops|] == ops;
  }

  lemma StartOfRun(ops: seq<Op>)
    ensures OpsOk([]) && After([], [], [], 0, 0)
  {
  }

  lemma RunPrefix(ops: seq<Op>, n: nat)
    requires OpsOk(ops) && n < |ops|
    ensures OpsOk(ops[..n]) && OpsOk(ops[..n + 1]) && ops[..n + 1] == ops[..n] + [ops[n]]
  {
  }

  lemma AfterFacts(ops: seq<Op>, names: seq<Name>, ucNum: seq<nat>, numUc: nat, lastNum: nat)
    requires OpsOk(ops) && After(ops, names, ucNum, numUc, lastNum)
    ensures AllWellFormed(names) && Tidy(ucNum, numUc, lastNum) && |names| <= |ops| < UNNUMBERED
  {
    NamesFormed(ops);
  }

  /** With upper-case names only, no part comes back. */
  lemma {:induction false} UpperNeverReturns(ops: seq<Op>)
    requires OpsOk(ops) && forall i: nat :: i < |ops| && ops[i].Intern? ==> UpperOnly(ops[i].s)
    ensures PartsNeverReturn(ops)
  {
    hide WellFormed, PartsNew, UcPart;
    if ops != [] {
      var n := |ops| - 1;
      UpperNeverReturns(ops[..n]);
      if ops[n].Round? {
        UpperAdds(ops);
        NumberedBound(ops[..n]);
        UpperNames(InternAll(Adds(ops)), NumberedBy(ops[..n]));
      }
    }
  }

  /** "A" is numbered in the first round and "Aa", of the same upper-case part, in
      the second: the part comes back, so the two get different numbers. */
  lemma PartReturns()
    ensures var a, b: Name := [0x41], [0x41, 0x61];
            var ops := [Intern(a), Round, Intern(b), Round];
            OpsOk(ops) && UcPart(a) == UcPart(b) && !PartsNeverReturn(ops)
  {
    var a, b: Name := [0x41], [0x41, 0x61];
    var ops := [Intern(a), Round, Intern(b), Round];
    assert UcPart(a) == [0x41] && UcPart(b) == [0x41];
    assert ops[..3] == [Intern(a), Round, Intern(b)];
    assert ops[..3][..2] == [Intern(a), Round];
    assert ops[..3][..2][..1] == [Intern(a)];
    assert Adds([]) == [];
    assert Adds([Intern(a)]) == [a];
    assert Adds([Intern(a), Round]) == [a];
    assert Adds(ops[..3]) == [a, b];
    assert Adds(ops) == [a, b];
    assert InternAll([a]) == [a];
    assert [a, b][..1] == [a];
    assert InternAll([a, b]) == [a, b];
    assert NumberedBy(ops[..3]) == 1;
    NamesFormed(ops);
    assert !PartsNew([a, b], 1) by { assert UcPart([a, b][0]) == UcPart([a, b][1]); }
  }

  lemma {:induction false} NumberedBound(ops: seq<Op>)
    ensures NumberedBy(ops) <= |InternAll(Adds(ops))|
  {
    if ops != [] {
      var n := |ops| - 1;
      NumberedBound(ops[..n]);
      if ops[n].Intern? { assert Adds(ops)[..|Adds(ops)| - 1] == Adds(ops[..n]); }
    }
  }

  lemma {:induction false} UpperAdds(ops: seq<Op>)
    requires forall i: nat :: i < |ops| && ops[i].Intern? ==> UpperOnly(ops[i].s)
    ensures forall s :: s in Adds(ops) ==> UpperOnly(s)
  {
    hide UpperOnly;
    if ops != [] { UpperAdds(ops[..|ops| - 1]); }
  }

  /** All strings are interned first and numbered in one batch. */
  method RunBatch(numCon: nat, adds: seq<Name>) returns (ct: ConTable, sdesc: seq<nat>)
    requires AllWellFormed(adds)
    ensures ct.Valid() && ct.names == InternAll(adds) && AllWellFormed(ct.names) && |ct.ucNum| == |ct.names|
    ensures Told(ct.names, ct.ucNum, |ct.names|)
  {
    hide WellFormed, Told;
    ct := new ConTable(numCon);
    assert adds[..0] == [];
    for n := 0 to |adds|
      invariant fresh(ct) && fresh(ct.hdesc) && ct.Valid() && ct.names == InternAll(adds[..n])
    {
      assert adds[..n + 1][..n] == adds[..n];
      var k := ct.Add(adds[n]);
    }
    assert adds[..|adds|] == adds;
    InternedFormed(adds);
    sdesc := ct.SortCondesc();
    BatchAll(ct.names, sdesc, ct.ucNum, ct.numUc);
  }

  lemma InternedFormed(adds: seq<Name>)
    requires AllWellFormed(adds)
    ensures AllWellFormed(InternAll(adds))
  {
    hide WellFormed;
    var names := InternAll(adds);
    forall k: nat | k < |names|
      ensures WellFormed(names[k])
    {
      assert names[k] in adds;
    }
  }

  lemma BatchAll(names: seq<Name>, sdesc: seq<nat>, ucNum: seq<nat>, numUc: nat)
    requires AllWellFormed(names) && |ucNum| == |names| && ValidNumbers(sdesc, names)
    requires names != [] ==> NumberedTo(names, sdesc, ucNum, |sdesc|, 0, numUc)
    requires forall k: nat :: k < |names| ==> k in sdesc
    ensures Told(names, ucNum, |names|)
  {
    hide WellFormed, NumberedTo;
    if names != [] { BatchTells(names, sdesc, ucNum, numUc); }
  }

  /** Incremental and batch numbering of the same strings give the same matching
      relation, if and only if no part came back in a later round: the run ends
      with a round, so that all have numbers. */
  lemma IncrementalAgreesWithBatch(ops: seq<Op>, names: seq<Name>, ucNum: seq<nat>, numUc: nat, batch: seq<nat>)
    requires OpsOk(ops) && After(ops, names, ucNum, numUc, |names|)
    requires Told(names, batch, |names|)
    ensures (forall j: nat, k: nat :: j < |names| && k < |names| ==>
               (ucNum[j] == ucNum[k] <==> batch[j] == batch[k]))
       <==> PartsNeverReturn(ops)
  {
    hide WellFormed, Tidy, UcPart, PartsNeverReturn;
    if forall j: nat, k: nat :: j < |names| && k < |names| ==> (ucNum[j] == ucNum[k] <==> batch[j] == batch[k]) {
      assert Told(names, ucNum, |names|);
    }
  }
}
