/** Applying a dialect: components write costs, sub-dialects are expanded in
    place.  Tables may refer to themselves; a section met a second time is
    reported as a loop. */
module Dialects {

  datatype Option<T> = None | Some(value: T) {
    function Or(other: T): T {
      match this
      case Some(x) => x
      case None => other
    }
  }

  datatype Entry = Entry(name: string, cost: real)

  type Table = seq<Entry>

  const DIALECT_SUB := 10001.0
  const DIALECT_SECTION := 10002.0
  const COST_EPSILON := 0.0000001

  predicate CostEq(a: real, b: real) { -COST_EPSILON < a - b < COST_EPSILON }

  predicate IsSection(e: Entry) { CostEq(e.cost, DIALECT_SECTION) }
  predicate IsSub(e: Entry) { CostEq(e.cost, DIALECT_SUB) }

  /** A dialect file: its table, the numbers of its sections (from 1 on), and
      for each number where in the table the section header is. */
  datatype Dialect = Dialect(table: Table, ids: map<string, nat>, index: seq<nat>)

  predicate WellFormed(d: Dialect) {
    forall n :: n in d.ids ==> d.ids[n] < |d.index| && d.index[d.ids[n]] < |d.table|
  }

  predicate Usable(to: Option<Dialect>) { to.Some? ==> WellFormed(to.value) }

  function Sections(to: Option<Dialect>): set<nat> {
    if to.None? then {} else set n | n in to.value.ids :: to.value.ids[n]
  }

  predicate Defines(to: Option<Dialect>, name: string) {
    to.Some? && name in to.value.ids
  }

  function SectionId(to: Option<Dialect>, name: string): nat
    requires Defines(to, name)
  {
    to.value.ids[name]
  }

  /** The first entry of section `id`, after its header. */
  function BodyStart(to: Option<Dialect>, id: nat): (i: nat)
    requires Usable(to) && id in Sections(to)
    ensures i <= |to.value.table|
  {
    to.value.index[id] + 1
  }

  // ---------- The expansion with a record of the sections met ----------

  datatype Walked = Walked(ok: bool, writes: seq<(nat, real)>, seen: set<nat>)

  /** The entries of `from` from `i` to the next section, when the sections
      `seen` have been met already: success or failure, the costs written up to
      then, and the sections met by then. */
  function Walk(tags: map<string, nat>, to: Option<Dialect>, from: Table, i: nat, seen: set<nat>): (w: Walked)
    requires Usable(to) && i <= |from|
    ensures seen <= w.seen <= seen + Sections(to)
    decreases |Sections(to) - seen|, |from| - i
  {
    if i == |from| || IsSection(from[i]) then Walked(true, [], seen)
    else if !IsSub(from[i]) then
      if from[i].name !in tags then Walked(false, [], seen)
      else
        var rest := Walk(tags, to, from, i + 1, seen);
        rest.(writes := [(tags[from[i].name], from[i].cost)] + rest.writes)
    else if !Defines(to, from[i].name) || SectionId(to, from[i].name) in seen then Walked(false, [], seen)
    else
      var id := SectionId(to, from[i].name);
      Unmet(to, seen, seen + {id}, id);
      var sub := Walk(tags, to, to.value.table, BodyStart(to, id), seen + {id});
      if !sub.ok then sub
      else
        Unmet(to, seen, sub.seen, id);
        var rest := Walk(tags, to, from, i + 1, sub.seen);
        rest.(writes := sub.writes + rest.writes)
  }

  /** Every section met leaves fewer to meet. */
  lemma Unmet(to: Option<Dialect>, seen: set<nat>, seen': set<nat>, id: nat)
    requires id in Sections(to) && id !in seen && seen + {id} <= seen'
    ensures |Sections(to) - seen'| < |Sections(to) - seen|
  {
    Smaller(Sections(to) - seen', Sections(to) - seen, id);
  }

  lemma FewerUnmet(to: Option<Dialect>, seen: set<nat>, seen': set<nat>)
    requires seen <= seen'
    ensures |Sections(to) - seen'| <= |Sections(to) - seen|
  {
    var s := Sections(to);
    if id :| id in s && id !in seen && id in seen' {
      Unmet(to, seen, seen', id);
    } else {
      assert s - seen == s - seen';
    }
  }

  lemma {:induction false} Smaller(a: set<nat>, b: set<nat>, x: nat)
    requires a <= b && x in b && x !in a
    ensures |a| < |b|
  {
    if a != {} {
      var y :| y in a;
      Smaller(a - {y}, b - {y}, x);
    }
  }

  function WriteAll(costs: seq<real>, writes: seq<(nat, real)>): (r: seq<real>)
    ensures |r| == |costs|
    decreases |writes|
  {
    if writes == [] then costs
    else if writes[0].0 < |costs| then WriteAll(costs[writes[0].0 := writes[0].1], writes[1..])
    else WriteAll(costs, writes[1..])
  }

  lemma WriteOne(costs: seq<real>, w: (nat, real))
    ensures WriteAll(costs, [w]) == if w.0 < |costs| then costs[w.0 := w.1] else costs
  {
    var one := [w];
    assert one[1..] == [];
  }

  /** The walk has ended: so much is written, so much has been met. */
  ghost predicate Ended(ok: bool, first: seq<real>, costs: seq<real>, seen: set<nat>, whole: Walked) {
    whole.ok == ok && costs == WriteAll(first, whole.writes) && seen == whole.seen
  }

  function Seen(encountered: seq<bool>): set<nat> {
    set i: nat | i < |encountered| && encountered[i]
  }

  lemma SeenIs(encountered: seq<bool>, id: nat)
    requires id < |encountered|
    ensures id in Seen(encountered) <==> encountered[id]
    ensures Seen(encountered[id := true]) == Seen(encountered) + {id}
  {
  }

  predicate TagsFit(tags: map<string, nat>, length: nat) {
    forall n :: n in tags ==> tags[n] < length
  }

  predicate Fits(to: Option<Dialect>, length: nat) {
    to.Some? ==> WellFormed(to.value) && length == |to.value.index|
  }

  /** Set the cost of a component, unless the dictionary does not have it. */
  method ApplyComponent(tags: map<string, nat>, e: Entry, costTable: array<real>) returns (ok: bool)
    requires TagsFit(tags, costTable.Length)
    modifies costTable
    ensures ok == (e.name in tags)
    ensures costTable[..] == WriteAll(old(costTable[..]), if ok then [(tags[e.name], e.cost)] else [])
  {
    if e.name !in tags { return false; }
    costTable[tags[e.name]] := e.cost;
    ok := true;
    WriteOne(old(costTable[..]), (tags[e.name], e.cost));
  }

  /** Apply the entries of `from` from `tableIndex` to the end of the section.
      `same` says that `from` is the table of `to` itself; then the entry at
      `tableIndex` is a section header. */
  method ApplyTableEntry(tags: map<string, nat>, from: Table, tableIndex: nat, to: Option<Dialect>, same: bool,
                         costTable: array<real>, encountered: array<bool>) returns (ok: bool)
    requires Fits(to, encountered.Length) && TagsFit(tags, costTable.Length)
    requires same ==> to.Some? && to.value.table == from
    requires tableIndex + (if same then 1 else 0) <= |from|
    modifies costTable, encountered
    ensures Ended(ok, old(costTable[..]), costTable[..], Seen(encountered[..]),
                  Walk(tags, to, from, tableIndex + if same then 1 else 0, Seen(old(encountered[..]))))
    ensures Seen(old(encountered[..])) <= Seen(encountered[..])
    decreases |Sections(to) - Seen(encountered[..])|
  {
    hide Rest, Ended, Seen, IsSub, IsSection;
    var i := tableIndex + if same then 1 else 0;
    ghost var whole := Walk(tags, to, from, i, Seen(encountered[..]));
    RestStart(tags, to, from, i, costTable[..], Seen(encountered[..]));
    while i < |from| && !IsSection(from[i])
      invariant tableIndex <= i <= |from|
      invariant Seen(old(encountered[..])) <= Seen(encountered[..])
      invariant Rest(tags, to, from, i, old(costTable[..]), costTable[..], Seen(encountered[..]), whole)
      decreases |from| - i
    {
      if !IsSub(from[i]) {
        RestComponent(tags, to, from, i, old(costTable[..]), costTable[..], Seen(encountered[..]), whole);
        ok := ApplyComponent(tags, from[i], costTable);
        if !ok { return; }
      } else {
        RestUndefined(tags, to, from, i, old(costTable[..]), costTable[..], Seen(encountered[..]), whole);
        if !Defines(to, from[i].name) { return false; }
        var id := SectionId(to, from[i].name);
        SeenIs(encountered[..], id);
        if encountered[id] { return false; }
        FewerUnmet(to, Seen(old(encountered[..])), Seen(encountered[..]));
        ok := ApplySub(tags, from, i, to, id, costTable, encountered, old(costTable[..]), whole);
        if !ok { return; }
      }
      i := i + 1;
    }
    RestEnd(tags, to, from, i, old(costTable[..]), costTable[..], Seen(encountered[..]), whole);
    return true;
  }

  /** What remains to be done from `i` completes the `whole`. */
  ghost predicate Rest(tags: map<string, nat>, to: Option<Dialect>, from: Table, i: nat,
                       first: seq<real>, costs: seq<real>, seen: set<nat>, whole: Walked)
    requires Usable(to) && i <= |from|
  {
    var rest := Walk(tags, to, from, i, seen);
    && whole.ok == rest.ok
    && whole.seen == rest.seen
    && WriteAll(first, whole.writes) == WriteAll(costs, rest.writes)
  }

  lemma EndedSo(ok: bool, first: seq<real>, costs: seq<real>, seen: set<nat>, whole: Walked)
    requires Ended(ok, first, costs, seen, whole)
    ensures whole.ok == ok && costs == WriteAll(first, whole.writes) && seen == whole.seen
  {
  }

  lemma RestStart(tags: map<string, nat>, to: Option<Dialect>, from: Table, i: nat, costs: seq<real>, seen: set<nat>)
    requires Usable(to) && i <= |from|
    ensures Rest(tags, to, from, i, costs, costs, seen, Walk(tags, to, from, i, seen))
  {
  }

  lemma RestEnd(tags: map<string, nat>, to: Option<Dialect>, from: Table, i: nat, first: seq<real>, costs: seq<real>,
                seen: set<nat>, whole: Walked)
    requires Usable(to) && i <= |from| && (i == |from| || IsSection(from[i]))
    requires Rest(tags, to, from, i, first, costs, seen, whole)
    ensures Ended(true, first, costs, seen, whole)
  {
  }

  lemma RestComponent(tags: map<string, nat>, to: Option<Dialect>, from: Table, i: nat, first: seq<real>,
                      costs: seq<real>, seen: set<nat>, whole: Walked)
    requires Usable(to) && i < |from| && !IsSection(from[i]) && !IsSub(from[i])
    requires Rest(tags, to, from, i, first, costs, seen, whole)
    ensures from[i].name !in tags ==> Ended(false, first, WriteAll(costs, []), seen, whole)
    ensures from[i].name in tags ==>
              Rest(tags, to, from, i + 1, first, WriteAll(costs, [(tags[from[i].name], from[i].cost)]), seen, whole)
  {
    if from[i].name in tags {
      WriteJoin(costs, [(tags[from[i].name], from[i].cost)], Walk(tags, to, from, i + 1, seen).writes);
    }
  }

  lemma RestUndefined(tags: map<string, nat>, to: Option<Dialect>, from: Table, i: nat, first: seq<real>,
                      costs: seq<real>, seen: set<nat>, whole: Walked)
    requires Usable(to) && i < |from| && !IsSection(from[i]) && IsSub(from[i])
    requires Rest(tags, to, from, i, first, costs, seen, whole)
    ensures !Defines(to, from[i].name) || SectionId(to, from[i].name) in seen ==>
              Ended(false, first, costs, seen, whole)
  {
  }

  lemma RestSub(tags: map<string, nat>, to: Option<Dialect>, from: Table, i: nat, first: seq<real>,
                costs: seq<real>, seen: set<nat>, whole: Walked)
    requires Usable(to) && i < |from| && !IsSection(from[i]) && IsSub(from[i])
    requires Defines(to, from[i].name) && SectionId(to, from[i].name) !in seen
    requires Rest(tags, to, from, i, first, costs, seen, whole)
    ensures var id := SectionId(to, from[i].name);
            var sub := Walk(tags, to, to.value.table, BodyStart(to, id), seen + {id});
            var costs' := WriteAll(costs, sub.writes);
            if sub.ok then Rest(tags, to, from, i + 1, first, costs', sub.seen, whole)
            else Ended(false, first, costs', sub.seen, whole)
  {
    var id := SectionId(to, from[i].name);
    var sub := Walk(tags, to, to.value.table, BodyStart(to, id), seen + {id});
    if sub.ok {
      WriteJoin(costs, sub.writes, Walk(tags, to, from, i + 1, sub.seen).writes);
    }
  }

  /** The recursive step: expand the sub-dialect named by the `i`th entry. */
  method ApplySub(tags: map<string, nat>, from: Table, i: nat, to: Option<Dialect>, id: nat,
                  costTable: array<real>, encountered: array<bool>, ghost first: seq<real>, ghost whole: Walked)
    returns (ok: bool)
    requires Fits(to, encountered.Length) && TagsFit(tags, costTable.Length)
    requires i < |from| && !IsSection(from[i]) && IsSub(from[i])
    requires Defines(to, from[i].name) && id == SectionId(to, from[i].name) && !encountered[id]
    requires Rest(tags, to, from, i, first, costTable[..], Seen(encountered[..]), whole)
    modifies costTable, encountered
    ensures Seen(old(encountered[..])) <= Seen(encountered[..])
    ensures ok ==> Rest(tags, to, from, i + 1, first, costTable[..], Seen(encountered[..]), whole)
    ensures !ok ==> Ended(false, first, costTable[..], Seen(encountered[..]), whole)
    decreases |Sections(to) - Seen(encountered[..])|, 0
  {
    hide Rest, Ended, Seen, IsSub, IsSection, TagsFit;
    ghost var seen := Seen(encountered[..]);
    SeenIs(encountered[..], id);
    Unmet(to, seen, seen + {id}, id);
    RestSub(tags, to, from, i, first, costTable[..], seen, whole);
    encountered[id] := true;
    assert encountered[..] == old(encountered[..])[id := true];
    ghost var costs := costTable[..];
    ok := ApplyTableEntry(tags, to.value.table, to.value.index[id], to, true, costTable, encountered);
    EndedSo(ok, costs, costTable[..], Seen(encountered[..]),
            Walk(tags, to, to.value.table, BodyStart(to, id), seen + {id}));
  }

  lemma {:induction false} WriteJoin(costs: seq<real>, a: seq<(nat, real)>, b: seq<(nat, real)>)
    ensures WriteAll(costs, a + b) == WriteAll(WriteAll(costs, a), b)
    decreases |a|
  {
    if a == [] {
      assert a + b == b;
    } else {
      assert (a + b)[1..] == a[1..] + b;
      WriteJoin(if a[0].0 < |costs| then costs[a[0].0 := a[0].1] else costs, a[1..], b);
    }
  }

  /** The last cost written for component `k`. */
  function LastWrite(writes: seq<(nat, real)>, k: nat): Option<real> {
    if writes == [] then None
    else
      var n := |writes| - 1;
      if writes[n].0 == k then Some(writes[n].1) else LastWrite(writes[..n], k)
  }

  /** The last write wins; what is not written stays. */
  lemma {:induction false} LastWriteWins(costs: seq<real>, writes: seq<(nat, real)>, k: nat)
    requires k < |costs|
    ensures WriteAll(costs, writes)[k] == match LastWrite(writes, k) case Some(c) => c case None => costs[k]
  {
    if writes != [] {
      var n := |writes| - 1;
      LastWriteWins(costs, writes[..n], k);
      WriteJoin(costs, writes[..n], [writes[n]]);
      assert writes == writes[..n] + [writes[n]];
      WriteOne(WriteAll(costs, writes[..n]), writes[n]);
    }
  }

  // ---------- Plain textual expansion ----------

  /** The costs a dialect writes, in order, and the sections it expands. */
  datatype Flat = Flat(writes: seq<(nat, real)>, refs: seq<nat>)

  /** Expansion to a given depth, with no record of what has been met.  `None`:
      an unknown name, or the depth is not enough. */
  function Unroll(tags: map<string, nat>, to: Option<Dialect>, from: Table, i: nat, depth: nat): Option<Flat>
    requires Usable(to) && i <= |from|
    decreases depth, |from| - i
  {
    if i == |from| || IsSection(from[i]) then Some(Flat([], []))
    else
      var head := UnrollEntry(tags, to, from, i, depth);
      var rest := Unroll(tags, to, from, i + 1, depth);
      if head.None? || rest.None? then None
      else Some(Flat(head.value.writes + rest.value.writes, head.value.refs + rest.value.refs))
  }

  function UnrollEntry(tags: map<string, nat>, to: Option<Dialect>, from: Table, i: nat, depth: nat): Option<Flat>
    requires Usable(to) && i < |from|
    decreases depth, |from| - i, 0
  {
    var e := from[i];
    if !IsSub(e) then
      if e.name in tags then Some(Flat([(tags[e.name], e.cost)], [])) else None
    else if !Defines(to, e.name) || depth == 0 then None
    else
      var id := SectionId(to, e.name);
      var sub := Unroll(tags, to, to.value.table, BodyStart(to, id), depth - 1);
      if sub.None? then None else Some(Flat(sub.value.writes, [id] + sub.value.refs))
  }

  ghost predicate Distinct(s: seq<nat>) {
    forall i: nat, j: nat :: i < j < |s| ==> s[i] != s[j]
  }

  ghost function Elements(s: seq<nat>): set<nat> { set x | x in s }

  /** No section is expanded twice, nor one that has been met before. */
  ghost predicate Fresh(refs: seq<nat>, seen: set<nat>) {
    Distinct(refs) && Elements(refs) !! seen
  }

  lemma FreshJoin(a: seq<nat>, b: seq<nat>, seen: set<nat>)
    ensures Fresh(a + b, seen) <==> Fresh(a, seen) && Fresh(b, seen + Elements(a))
    ensures Elements(a + b) == Elements(a) + Elements(b)
  {
    if Fresh(a, seen) && Fresh(b, seen + Elements(a)) {
      FreshTogether(a, b, seen);
    }
    if Fresh(a + b, seen) {
      FreshApart(a, b, seen);
    }
  }

  lemma FreshTogether(a: seq<nat>, b: seq<nat>, seen: set<nat>)
    requires Fresh(a, seen) && Fresh(b, seen + Elements(a))
    ensures Fresh(a + b, seen)
  {
    forall i: nat, j: nat | i < j < |a + b|
      ensures (a + b)[i] != (a + b)[j]
    {
      if i < |a| <= j { assert (a + b)[i] in Elements(a) && (a + b)[j] in Elements(b); }
    }
  }

  lemma FreshApart(a: seq<nat>, b: seq<nat>, seen: set<nat>)
    requires Fresh(a + b, seen)
    ensures Fresh(a, seen) && Fresh(b, seen + Elements(a))
  {
    var s := a + b;
    forall i: nat, j: nat | i < j < |a| ensures a[i] != a[j] { assert s[i] != s[j]; }
    forall i: nat, j: nat | i < j < |b| ensures b[i] != b[j] { assert s[|a| + i] != s[|a| + j]; }
    forall x | x in Elements(b)
      ensures x !in seen + Elements(a)
    {
      var j: nat :| j < |b| && b[j] == x;
      assert s[|a| + j] == x;
      assert x in Elements(s);
      forall i: nat | i < |a| ensures a[i] != x { assert s[i] != s[|a| + j]; }
    }
    assert Elements(a) <= Elements(s);
  }

  lemma FreshOne(id: nat, refs: seq<nat>, seen: set<nat>)
    ensures Fresh([id] + refs, seen) <==> id !in seen && Fresh(refs, seen + {id})
    ensures Elements([id] + refs) == {id} + Elements(refs)
  {
    FreshJoin([id], refs, seen);
    assert Elements([id]) == {id};
  }

  /** A walk and an expansion agree. */
  ghost predicate Matches(w: Walked, u: Option<Flat>, seen: set<nat>) {
    && w.ok
    && u.Some?
    && Fresh(u.value.refs, seen)
    && w.writes == u.value.writes
    && w.seen == seen + Elements(u.value.refs)
  }

  lemma EmptyMatches(seen: set<nat>)
    ensures Matches(Walked(true, [], seen), Some(Flat([], [])), seen)
  {
  }

  lemma MatchesSome(w: Walked, u: Option<Flat>, seen: set<nat>)
    requires Matches(w, u, seen)
    ensures w.ok && u.Some?
  {
  }

  lemma AddComponent(c: (nat, real), w: Walked, u: Option<Flat>, seen: set<nat>)
    requires Matches(w, u, seen)
    ensures u.Some?
    ensures Matches(w.(writes := [c] + w.writes), Some(Flat([c] + u.value.writes, [] + u.value.refs)), seen)
  {
    assert [] + u.value.refs == u.value.refs;
  }

  lemma JoinMatches(id: nat, sub: Walked, u: Flat, rest: Walked, v: Flat, seen: set<nat>)
    requires id !in seen && Matches(sub, Some(u), seen + {id}) && Matches(rest, Some(v), sub.seen)
    ensures Matches(rest.(writes := sub.writes + rest.writes),
                    Some(Flat(u.writes + v.writes, [id] + u.refs + v.refs)), seen)
  {
    hide Fresh;
    JoinRefs(id, u.refs, v.refs, seen, sub.seen);
  }

  lemma WalkSub(tags: map<string, nat>, to: Option<Dialect>, from: Table, i: nat, seen: set<nat>)
    requires Usable(to) && i < |from| && !IsSection(from[i]) && IsSub(from[i])
    requires Walk(tags, to, from, i, seen).ok
    ensures Defines(to, from[i].name) && SectionId(to, from[i].name) !in seen
    ensures var id := SectionId(to, from[i].name);
            var sub := Walk(tags, to, to.value.table, BodyStart(to, id), seen + {id});
            var rest := Walk(tags, to, from, i + 1, sub.seen);
            sub.ok && rest.ok && Walk(tags, to, from, i, seen) == rest.(writes := sub.writes + rest.writes)
  {
  }

  lemma UnrollAtSub(tags: map<string, nat>, to: Option<Dialect>, from: Table, i: nat, depth: nat)
    requires Usable(to) && i < |from| && !IsSection(from[i]) && IsSub(from[i]) && Defines(to, from[i].name) && depth > 0
    requires Unroll(tags, to, to.value.table, BodyStart(to, SectionId(to, from[i].name)), depth - 1).Some?
    requires Unroll(tags, to, from, i + 1, depth).Some?
    ensures var id := SectionId(to, from[i].name);
            var u := Unroll(tags, to, to.value.table, BodyStart(to, id), depth - 1).value;
            var v := Unroll(tags, to, from, i + 1, depth).value;
            Unroll(tags, to, from, i, depth) == Some(Flat(u.writes + v.writes, [id] + u.refs + v.refs))
  {
  }

  /** A successful walk is a finite expansion that expands nothing twice. */
  lemma {:induction false} WalkUnrolls(tags: map<string, nat>, to: Option<Dialect>, from: Table, i: nat, seen: set<nat>,
                                       depth: nat)
    requires Usable(to) && i <= |from| && |Sections(to) - seen| <= depth
    requires Walk(tags, to, from, i, seen).ok
    ensures Matches(Walk(tags, to, from, i, seen), Unroll(tags, to, from, i, depth), seen)
    decreases |Sections(to) - seen|, |from| - i
  {
    hide Matches, Sections;
    if i == |from| || IsSection(from[i]) {
      EmptyMatches(seen);
    } else if !IsSub(from[i]) {
      WalkUnrolls(tags, to, from, i + 1, seen, depth);
      AddComponent((tags[from[i].name], from[i].cost), Walk(tags, to, from, i + 1, seen),
                   Unroll(tags, to, from, i + 1, depth), seen);
    } else {
      var id := SectionId(to, from[i].name);
      Unmet(to, seen, seen + {id}, id);
      WalkUnrolls(tags, to, to.value.table, BodyStart(to, id), seen + {id}, depth - 1);
      var sub := Walk(tags, to, to.value.table, BodyStart(to, id), seen + {id});
      Unmet(to, seen, sub.seen, id);
      WalkUnrolls(tags, to, from, i + 1, sub.seen, depth);
      MatchesSome(sub, Unroll(tags, to, to.value.table, BodyStart(to, id), depth - 1), seen + {id});
      MatchesSome(Walk(tags, to, from, i + 1, sub.seen), Unroll(tags, to, from, i + 1, depth), sub.seen);
      WalkSub(tags, to, from, i, seen);
      UnrollAtSub(tags, to, from, i, depth);
      JoinMatches(id, sub, Unroll(tags, to, to.value.table, BodyStart(to, id), depth - 1).value,
                  Walk(tags, to, from, i + 1, sub.seen), Unroll(tags, to, from, i + 1, depth).value, seen);
    }
  }

  lemma JoinRefs(id: nat, refs: seq<nat>, rest: seq<nat>, seen: set<nat>, mid: set<nat>)
    requires mid == seen + {id} + Elements(refs)
    ensures Fresh([id] + refs + rest, seen) <==> id !in seen && Fresh(refs, seen + {id}) && Fresh(rest, mid)
    ensures Elements([id] + refs + rest) == {id} + Elements(refs) + Elements(rest)
  {
    hide Fresh;
    FreshOne(id, refs, seen);
    assert mid == seen + Elements([id] + refs);
    FreshJoin([id] + refs, rest, seen);
  }

  /** A finite expansion that expands nothing twice is a successful walk. */
  lemma {:induction false} UnrollWalks(tags: map<string, nat>, to: Option<Dialect>, from: Table, i: nat, seen: set<nat>,
                                       depth: nat)
    requires Usable(to) && i <= |from|
    requires Unroll(tags, to, from, i, depth).Some? && Fresh(Unroll(tags, to, from, i, depth).value.refs, seen)
    ensures Matches(Walk(tags, to, from, i, seen), Unroll(tags, to, from, i, depth), seen)
    decreases depth, |from| - i
  {
    hide Fresh;
    if i == |from| || IsSection(from[i]) {
      EmptyMatches(seen);
    } else if !IsSub(from[i]) {
      var rest := Unroll(tags, to, from, i + 1, depth).value;
      assert [] + rest.refs == rest.refs;
      UnrollWalks(tags, to, from, i + 1, seen, depth);
    } else {
      var id := SectionId(to, from[i].name);
      var refs := Unroll(tags, to, to.value.table, BodyStart(to, id), depth - 1).value.refs;
      var mid := seen + {id} + Elements(refs);
      JoinRefs(id, refs, Unroll(tags, to, from, i + 1, depth).value.refs, seen, mid);
      UnrollWalks(tags, to, to.value.table, BodyStart(to, id), seen + {id}, depth - 1);
      UnrollWalks(tags, to, from, i + 1, mid, depth);
    }
  }

  /** Applying succeeds exactly when plain expansion is finite, knows all names
      and expands no section twice. */
  lemma WalkExact(tags: map<string, nat>, to: Option<Dialect>, from: Table, i: nat, seen: set<nat>)
    requires Usable(to) && i <= |from|
    ensures Walk(tags, to, from, i, seen).ok <==>
              exists depth: nat :: var u := Unroll(tags, to, from, i, depth);
                                   u.Some? && Fresh(u.value.refs, seen)
  {
    if Walk(tags, to, from, i, seen).ok {
      WalkUnrolls(tags, to, from, i, seen, |Sections(to) - seen|);
    }
    if depth: nat :| Unroll(tags, to, from, i, depth).Some? && Fresh(Unroll(tags, to, from, i, depth).value.refs, seen) {
      UnrollWalks(tags, to, from, i, seen, depth);
    }
  }

  /** apply_dialect(): nothing has been met at the start.  On success the cost
      table is the old one overwritten by the expansion, left to right. */
  method ApplyDialect(tags: map<string, nat>, from: Table, tableIndex: nat, to: Option<Dialect>, same: bool,
                      costTable: array<real>) returns (ok: bool)
    requires Usable(to) && TagsFit(tags, costTable.Length)
    requires same ==> to.Some? && to.value.table == from
    requires tableIndex + (if same then 1 else 0) <= |from|
    modifies costTable
    ensures var i := tableIndex + if same then 1 else 0;
            ok <==> exists depth: nat :: var u := Unroll(tags, to, from, i, depth);
                                         u.Some? && Fresh(u.value.refs, {})
    ensures var i := tableIndex + if same then 1 else 0;
            ok ==> forall depth: nat :: var u := Unroll(tags, to, from, i, depth);
                                        u.Some? && Fresh(u.value.refs, {}) ==>
                                          costTable[..] == WriteAll(old(costTable[..]), u.value.writes)
    ensures var i := tableIndex + if same then 1 else 0;
            forall e: nat :: Components(tags, from, i, e) ==>
              ok && AsLast(tags, from, i, e, old(costTable[..]), costTable[..])
  {
    ghost var before := costTable[..];
    var encountered := new bool[if to.None? then 0 else |to.value.index|](_ => false);
    assert Seen(encountered[..]) == {};
    ok := ApplyTableEntry(tags, from, tableIndex, to, same, costTable, encountered);
    ghost var i := tableIndex + if same then 1 else 0;
    EndedSo(ok, before, costTable[..], Seen(encountered[..]), Walk(tags, to, from, i, {}));
    WalkExact(tags, to, from, i, {});
    forall depth: nat | Unroll(tags, to, from, i, depth).Some? && Fresh(Unroll(tags, to, from, i, depth).value.refs, {})
      ensures Walk(tags, to, from, i, {}).writes == Unroll(tags, to, from, i, depth).value.writes
    {
      UnrollWalks(tags, to, from, i, {}, depth);
    }
    forall e: nat | Components(tags, from, i, e)
      ensures ok && AsLast(tags, from, i, e, before, costTable[..])
    {
      ComponentsWrite(tags, to, from, i, e, before);
    }
  }

  // ---------- What an entry is ----------

  /** The entries from `i` to `e`, where the section ends, are components: the
      reader gives them costs of at most 10000. */
  predicate Components(tags: map<string, nat>, from: Table, i: nat, e: nat) {
    && i <= e <= |from|
    && (e < |from| ==> from[e].cost == 10002.0)
    && forall k: nat :: i <= k < e ==> from[k].cost <= 10000.0 && from[k].name in tags
  }

  /** The cost of the last of these entries that is the component `c`. */
  function LastCost(tags: map<string, nat>, from: Table, i: nat, e: nat, c: nat): Option<real>
    requires e <= |from|
  {
    if e <= i then None
    else if from[e - 1].name in tags && tags[from[e - 1].name] == c then Some(from[e - 1].cost)
    else LastCost(tags, from, i, e - 1, c)
  }

  /** The entries as they stand, in order. */
  function AsWritten(tags: map<string, nat>, from: Table, i: nat, e: nat): (w: seq<(nat, real)>)
    requires Components(tags, from, i, e)
    ensures |w| == e - i
  {
    seq(e - i, k requires 0 <= k < e - i => (tags[from[i + k].name], from[i + k].cost))
  }

  /** A section of components is written as it stands. */
  lemma {:induction false} ComponentsWalk(tags: map<string, nat>, to: Option<Dialect>, from: Table, i: nat, e: nat,
                                          seen: set<nat>)
    requires Usable(to) && Components(tags, from, i, e)
    ensures Walk(tags, to, from, i, seen) == Walked(true, AsWritten(tags, from, i, e), seen)
    decreases e - i
  {
    if i < e {
      ComponentsWalk(tags, to, from, i + 1, e, seen);
      assert AsWritten(tags, from, i, e)
          == [(tags[from[i].name], from[i].cost)] + AsWritten(tags, from, i + 1, e);
    }
  }

  lemma {:induction false} LastOfWritten(tags: map<string, nat>, from: Table, i: nat, e: nat, n: nat, c: nat)
    requires Components(tags, from, i, e) && n <= e - i
    ensures LastWrite(AsWritten(tags, from, i, e)[..n], c) == LastCost(tags, from, i, i + n, c)
  {
    if n > 0 {
      LastOfWritten(tags, from, i, e, n - 1, c);
      var w := AsWritten(tags, from, i, e);
      assert w[..n][..n - 1] == w[..n - 1];
    }
  }

  /** Each component has the cost of its last entry, or its old one. */
  ghost predicate AsLast(tags: map<string, nat>, from: Table, i: nat, e: nat, before: seq<real>, after: seq<real>) {
    && e <= |from|
    && |after| == |before|
    && forall c: nat :: c < |before| ==> after[c] == LastCost(tags, from, i, e, c).Or(before[c])
  }

  /** Each component ends with the cost of its last entry. */
  lemma ComponentsWrite(tags: map<string, nat>, to: Option<Dialect>, from: Table, i: nat, e: nat, costs: seq<real>)
    requires Usable(to) && Components(tags, from, i, e)
    ensures Walk(tags, to, from, i, {}).ok
    ensures AsLast(tags, from, i, e, costs, WriteAll(costs, Walk(tags, to, from, i, {}).writes))
  {
    hide Walk, WriteAll, LastWrite, LastCost;
    ComponentsWalk(tags, to, from, i, e, {});
    var w := AsWritten(tags, from, i, e);
    assert w[..e - i] == w;
    forall c: nat | c < |costs|
      ensures WriteAll(costs, w)[c] == LastCost(tags, from, i, e, c).Or(costs[c])
    {
      LastOfWritten(tags, from, i, e, e - i, c);
      LastWriteWins(costs, w, c);
    }
  }

  /** A cost of 10001 is a reference: nothing is written for the entry itself,
      and without the section, or with one met before, there is no success. */
  lemma CostOfReference(tags: map<string, nat>, to: Option<Dialect>, from: Table, i: nat, seen: set<nat>)
    requires Usable(to) && i < |from| && from[i].cost == 10001.0
    ensures var w := Walk(tags, to, from, i, seen);
            if !Defines(to, from[i].name) || SectionId(to, from[i].name) in seen then w == Walked(false, [], seen)
            else
              var id := SectionId(to, from[i].name);
              var sub := Walk(tags, to, to.value.table, BodyStart(to, id), seen + {id});
              if !sub.ok then w == sub
              else
                var rest := Walk(tags, to, from, i + 1, sub.seen);
                w == Walked(rest.ok, sub.writes + rest.writes, rest.seen)
  {
  }

  /** A cost of 10002 ends the section. */
  lemma CostOfSection(tags: map<string, nat>, to: Option<Dialect>, from: Table, i: nat, seen: set<nat>)
    requires Usable(to) && i < |from| && from[i].cost == 10002.0
    ensures Walk(tags, to, from, i, seen) == Walked(true, [], seen)
  {
  }

  // ---------- Loops ----------

  /** The entries from `i` to the end of the section refer to section `id`. */
  predicate Refers(to: Option<Dialect>, from: Table, i: nat, id: nat)
    requires i <= |from|
    decreases |from| - i
  {
    i < |from| && !IsSection(from[i])
    && ((IsSub(from[i]) && Defines(to, from[i].name) && SectionId(to, from[i].name) == id) || Refers(to, from, i + 1, id))
  }

  /** Each section on the path is referred to by the one before, the first by
      the entries from `i` on. */
  predicate RefPath(to: Option<Dialect>, from: Table, i: nat, path: seq<nat>)
    requires Usable(to) && i <= |from|
    decreases |path|
  {
    path != [] ==>
      && path[0] in Sections(to)
      && Refers(to, from, i, path[0])
      && RefPath(to, to.value.table, BodyStart(to, path[0]), path[1..])
  }

  /** A section that is referred to is expanded, in strictly fewer steps. */
  lemma {:induction false} SubShorter(tags: map<string, nat>, to: Option<Dialect>, from: Table, i: nat, id: nat, depth: nat)
    requires Usable(to) && i <= |from| && id in Sections(to) && Refers(to, from, i, id)
    requires Unroll(tags, to, from, i, depth).Some?
    ensures depth > 0
    ensures var sub := Unroll(tags, to, to.value.table, BodyStart(to, id), depth - 1);
            sub.Some? && |sub.value.refs| < |Unroll(tags, to, from, i, depth).value.refs|
    decreases |from| - i
  {
    if IsSub(from[i]) && Defines(to, from[i].name) && SectionId(to, from[i].name) == id {
    } else {
      SubShorter(tags, to, from, i + 1, id, depth);
    }
  }

  /** Depth does not matter once it is enough. */
  lemma {:induction false} UnrollStable(tags: map<string, nat>, to: Option<Dialect>, from: Table, i: nat, d1: nat, d2: nat)
    requires Usable(to) && i <= |from|
    requires Unroll(tags, to, from, i, d1).Some? && Unroll(tags, to, from, i, d2).Some?
    ensures Unroll(tags, to, from, i, d1) == Unroll(tags, to, from, i, d2)
    decreases d1, |from| - i
  {
    if i < |from| && !IsSection(from[i]) {
      UnrollStable(tags, to, from, i + 1, d1, d2);
      if IsSub(from[i]) {
        UnrollStable(tags, to, to.value.table, BodyStart(to, SectionId(to, from[i].name)), d1 - 1, d2 - 1);
      }
    }
  }

  lemma {:induction false} PathShorter(tags: map<string, nat>, to: Option<Dialect>, from: Table, i: nat, path: seq<nat>,
                                       j: nat, depth: nat) returns (d: nat)
    requires Usable(to) && i <= |from| && RefPath(to, from, i, path) && j < |path|
    requires Unroll(tags, to, from, i, depth).Some?
    ensures path[j] in Sections(to)
    ensures var sub := Unroll(tags, to, to.value.table, BodyStart(to, path[j]), d);
            sub.Some? && |sub.value.refs| < |Unroll(tags, to, from, i, depth).value.refs|
    decreases |path|
  {
    SubShorter(tags, to, from, i, path[0], depth);
    d := depth - 1;
    if j > 0 {
      d := PathShorter(tags, to, to.value.table, BodyStart(to, path[0]), path[1..], j - 1, depth - 1);
    }
  }

  lemma {:induction false} PathSuffix(to: Option<Dialect>, from: Table, i: nat, path: seq<nat>, k: nat)
    requires Usable(to) && i <= |from| && RefPath(to, from, i, path) && k < |path|
    ensures path[k] in Sections(to) && RefPath(to, to.value.table, BodyStart(to, path[k]), path[k + 1..])
    decreases |path|
  {
    if k > 0 {
      PathSuffix(to, to.value.table, BodyStart(to, path[0]), path[1..], k - 1);
      assert path[1..][k..] == path[k + 1..];
    }
  }

  lemma HasSections(to: Option<Dialect>, id: nat)
    requires id in Sections(to)
    ensures to.Some?
  {
  }

  /** When a loop of references can be reached, plain expansion never ends. */
  lemma LoopUnbounded(tags: map<string, nat>, to: Option<Dialect>, from: Table, i: nat, path: seq<nat>,
                      j: nat, k: nat, depth: nat)
    requires Usable(to) && i <= |from| && RefPath(to, from, i, path) && j < k < |path| && path[j] == path[k]
    ensures Unroll(tags, to, from, i, depth).None?
  {
    hide Sections, BodyStart, IsSub, IsSection;
    if Unroll(tags, to, from, i, depth).Some? {
      var d1 := PathShorter(tags, to, from, i, path, j, depth);
      PathSuffix(to, from, i, path, j);
      HasSections(to, path[j]);
      var d2 := PathShorter(tags, to, to.value.table, BodyStart(to, path[j]), path[j + 1..], k - j - 1, d1);
      UnrollStable(tags, to, to.value.table, BodyStart(to, path[j]), d1, d2);
      assert false;
    }
  }

  /** Then applying never succeeds. */
  lemma LoopFails(tags: map<string, nat>, to: Option<Dialect>, from: Table, i: nat, seen: set<nat>, path: seq<nat>,
                  j: nat, k: nat)
    requires Usable(to) && i <= |from| && RefPath(to, from, i, path) && j < k < |path| && path[j] == path[k]
    ensures !Walk(tags, to, from, i, seen).ok
  {
    hide Fresh;
    if Walk(tags, to, from, i, seen).ok {
      var depth := |Sections(to) - seen|;
      WalkUnrolls(tags, to, from, i, seen, depth);
      LoopUnbounded(tags, to, from, i, path, j, k, depth);
      assert false;
    }
  }

  /** Two sections that refer to each other. */
  lemma LoopExample(tags: map<string, nat>)
    ensures var t := [Entry("a", 10002.0), Entry("b", 10001.0), Entry("b", 10002.0), Entry("a", 10001.0)];
            var to := Some(Dialect(t, map["a" := 1, "b" := 2], [0, 0, 2]));
            Usable(to) && !Walk(tags, to, t, 1, {}).ok
  {
    var t := [Entry("a", 10002.0), Entry("b", 10001.0), Entry("b", 10002.0), Entry("a", 10001.0)];
    var to := Some(Dialect(t, map["a" := 1, "b" := 2], [0, 0, 2]));
    var path := [2, 1, 2];
    assert "a" in to.value.ids && "b" in to.value.ids;
    assert path[1..] == [1, 2] && path[1..][1..] == [2] && path[1..][1..][1..] == [];
    assert RefPath(to, t, 3, [2][1..]);
    assert RefPath(to, t, 1, [2]);
    assert RefPath(to, t, 3, [1, 2]);
    LoopFails(tags, to, t, 1, {}, path, 0, 2);
  }

  // ---------- A section used twice without a loop ----------

  const DIAMOND: Table := [
    Entry("a", DIALECT_SECTION), Entry("b", DIALECT_SUB), Entry("c", DIALECT_SUB),
    Entry("b", DIALECT_SECTION), Entry("d", DIALECT_SUB),
    Entry("c", DIALECT_SECTION), Entry("d", DIALECT_SUB),
    Entry("d", DIALECT_SECTION)]

  const DIAMOND_FILE: Option<Dialect> :=
    Some(Dialect(DIAMOND, map["a" := 1, "b" := 2, "c" := 3, "d" := 4], [0, 0, 3, 5, 7]))

  lemma DiamondSides(tags: map<string, nat>)
    ensures Usable(DIAMOND_FILE)
    ensures Unroll(tags, DIAMOND_FILE, DIAMOND, 3, 2) == Some(Flat([], []))
    ensures Unroll(tags, DIAMOND_FILE, DIAMOND, 4, 1) == Unroll(tags, DIAMOND_FILE, DIAMOND, 6, 1) == Some(Flat([], [4]))
  {
    var to := DIAMOND_FILE;
    assert Unroll(tags, to, DIAMOND, 8, 0) == Some(Flat([], []));
    assert Unroll(tags, to, DIAMOND, 7, 1) == Some(Flat([], []));
    assert Unroll(tags, to, DIAMOND, 5, 1) == Some(Flat([], []));
    assert Unroll(tags, to, DIAMOND, 3, 2) == Some(Flat([], []));
    UnrollSub(tags, to, DIAMOND, 6, 1, [], []);
    UnrollSub(tags, to, DIAMOND, 4, 1, [], []);
    var none: seq<nat> := [];
    assert [4] + none + none == [4];
  }

  lemma DiamondTop(tags: map<string, nat>)
    ensures Usable(DIAMOND_FILE)
    ensures Unroll(tags, DIAMOND_FILE, DIAMOND, 1, 2) == Some(Flat([], [2, 4, 3, 4]))
  {
    var to := DIAMOND_FILE;
    DiamondSides(tags);
    UnrollSub(tags, to, DIAMOND, 2, 2, [4], []);
    var none: seq<nat> := [];
    assert [3] + [4] + none == [3, 4];
    UnrollSub(tags, to, DIAMOND, 1, 2, [4], [3, 4]);
    assert [2] + [4] + [3, 4] == [2, 4, 3, 4];
  }

  /** Being expanded twice is reported as a loop even where there is none. */
  lemma DiamondFails(tags: map<string, nat>)
    ensures Usable(DIAMOND_FILE)
    ensures Unroll(tags, DIAMOND_FILE, DIAMOND, 1, 2) == Some(Flat([], [2, 4, 3, 4]))
    ensures !Walk(tags, DIAMOND_FILE, DIAMOND, 1, {}).ok
  {
    var to := DIAMOND_FILE;
    DiamondTop(tags);
    hide IsSub, IsSection, WellFormed;
    TwiceFails(tags, to, DIAMOND, 1, 2, 1, 3);
  }

  lemma UnrollSub(tags: map<string, nat>, to: Option<Dialect>, from: Table, i: nat, depth: nat, sub: seq<nat>, rest: seq<nat>)
    requires Usable(to) && i < |from| && !IsSection(from[i]) && IsSub(from[i]) && Defines(to, from[i].name) && depth > 0
    requires Unroll(tags, to, to.value.table, BodyStart(to, SectionId(to, from[i].name)), depth - 1) == Some(Flat([], sub))
    requires Unroll(tags, to, from, i + 1, depth) == Some(Flat([], rest))
    ensures Unroll(tags, to, from, i, depth) == Some(Flat([], [SectionId(to, from[i].name)] + sub + rest))
  {
    var u := Unroll(tags, to, to.value.table, BodyStart(to, SectionId(to, from[i].name)), depth - 1).value;
    var v := Unroll(tags, to, from, i + 1, depth).value;
    assert u.writes + v.writes == [];
  }

  lemma TwiceFails(tags: map<string, nat>, to: Option<Dialect>, from: Table, i: nat, depth: nat, j: nat, k: nat)
    requires Usable(to) && i <= |from| && Unroll(tags, to, from, i, depth).Some?
    requires var refs := Unroll(tags, to, from, i, depth).value.refs; j < k < |refs| && refs[j] == refs[k]
    ensures !Walk(tags, to, from, i, {}).ok
  {
    if Walk(tags, to, from, i, {}).ok {
      var enough := |Sections(to) - {}|;
      WalkUnrolls(tags, to, from, i, {}, enough);
      UnrollStable(tags, to, from, i, enough, depth);
      assert false;
    }
  }
}
