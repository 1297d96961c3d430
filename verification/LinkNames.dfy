/** Names for word pairs.  Names are numbers written in capital letters; threads
    that ask for the name of a pair look it up, then look again under a lock
    before a new number is issued. */
module LinkNames {

  // ---------- Numbers as names ----------

  /** The number whose name is reserved. */
  const ANY_ID: nat := 1064
  const ANY := "ANY"

  function Letter(k: nat): (c: char)
    requires k < 26
    ensures 'A' <= c <= 'Z'
  {
    'A' + k as char
  }

  function LetterValue(c: char): (k: nat)
    requires 'A' <= c <= 'Z'
    ensures k < 26
  {
    (c - 'A') as nat
  }

  predicate Capitals(s: string) {
    s != [] && forall i: nat :: i < |s| ==> 'A' <= s[i] <= 'Z'
  }

  /** The capital letters for `n`: "A" to "Z", "AA" to "ZZ", and so on. */
  function Name(n: nat): (s: string)
    ensures Capitals(s)
  {
    (if n < 26 then [] else Name(n / 26 - 1)) + [Letter(n % 26)]
  }

  /** The number that a name stands for. */
  function Number(s: string): nat
    requires Capitals(s)
    decreases |s|
  {
    var n := |s| - 1;
    (if n == 0 then 0 else (Number(s[..n]) + 1) * 26) + LetterValue(s[n])
  }

  /** The letters before the last one: of zero, none. */
  function Pending(aid: nat): string {
    if aid == 0 then [] else Name(aid - 1)
  }

  function PendingNumber(s: string): nat
    requires s == [] || Capitals(s)
  {
    if s == [] then 0 else Number(s) + 1
  }

  lemma NameDigits(n: nat, high: nat, v: nat)
    requires n == high * 26 + v && v < 26
    ensures Name(n) == Pending(high) + [Letter(v)]
  {
    hide Letter;
    assert n / 26 == high && n % 26 == v;
  }

  lemma NumberDigits(s: string, c: char)
    requires (s == [] || Capitals(s)) && 'A' <= c <= 'Z'
    ensures Capitals(s + [c]) && Number(s + [c]) == PendingNumber(s) * 26 + LetterValue(c)
  {
    assert (s + [c])[..|s|] == s;
  }

  lemma {:induction false} NumberOfName(n: nat)
    ensures Number(Name(n)) == n
  {
    hide Letter, LetterValue, Capitals;
    var high, v := n / 26, n % 26;
    assert n == high * 26 + v;
    if high > 0 { NumberOfName(high - 1); }
    NameDigits(n, high, v);
    NumberDigits(Pending(high), Letter(v));
    LetterRoundTrip(v);
  }

  lemma LetterRoundTrip(v: nat)
    requires v < 26
    ensures LetterValue(Letter(v)) == v
  {
  }

  lemma {:induction false} NameOfNumber(s: string)
    requires Capitals(s)
    ensures Name(Number(s)) == s
    decreases |s|
  {
    var n := |s| - 1;
    var rest, c := s[..n], s[n];
    assert s == rest + [c];
    assert Pending(PendingNumber(rest)) == rest by {
      if n > 0 { NameOfNumber(rest); }
    }
    NameBuilt(rest, c);
  }

  lemma NameBuilt(s: string, c: char)
    requires (s == [] || Capitals(s)) && 'A' <= c <= 'Z' && Pending(PendingNumber(s)) == s
    ensures Capitals(s + [c]) && Name(Number(s + [c])) == s + [c]
  {
    hide Letter, LetterValue, Pending, PendingNumber;
    NumberDigits(s, c);
    ValueRoundTrip(c);
    NameDigits(Number(s + [c]), PendingNumber(s), LetterValue(c));
  }

  lemma ValueRoundTrip(c: char)
    requires 'A' <= c <= 'Z'
    ensures Letter(LetterValue(c)) == c
  {
  }

  /** Numbers and names correspond one to one; only 1064 is named "ANY". */
  lemma NamesExact(m: nat, n: nat)
    ensures Name(m) == Name(n) <==> m == n
    ensures Name(m) == ANY <==> m == ANY_ID
  {
    NumberOfName(m);
    NumberOfName(n);
    NumbersExact(Name(m), Name(n));
    AnyNumber();
    NumbersExact(Name(m), ANY);
  }

  lemma NumbersExact(s: string, t: string)
    requires Capitals(s) && Capitals(t)
    ensures s == t <==> Number(s) == Number(t)
  {
    NameOfNumber(s);
    NameOfNumber(t);
  }

  lemma AnyNumber()
    ensures Capitals(ANY) && Number(ANY) == ANY_ID
  {
    var a, an := "A", "AN";
    assert Number(a) == 0;
    assert an[..1] == a;
    assert Number(an) == 39;
    assert ANY[..2] == an;
  }

  lemma NameStep(n: nat, s: string)
    ensures Name(n) + s == Pending(n / 26) + ([Letter(n % 26)] + s)
  {
    assert n == (n / 26) * 26 + n % 26;
    NameDigits(n, n / 26, n % 26);
  }

  /** idtostr(): the increment before the loop and the decrement in it make zero
      print as "A". */
  method IdToStr(id: nat) returns (s: string)
    ensures s == Name(id)
  {
    var aid: nat := id + 1;
    s := "";
    assert Name(id) + s == Name(id);
    var more := true;
    while more
      invariant more <==> aid > 0
      invariant Name(id) == Pending(aid) + s
      decreases aid
    {
      aid := aid - 1;
      NameStep(aid, s);
      s := [Letter(aid % 26)] + s;
      aid := aid / 26;
      more := 0 < aid;
    }
    assert Pending(0) + s == s;
  }

  // ---------- The protocol ----------

  /** Two words, left and right. */
  datatype Pair = Pair(left: string, right: string)

  /** Where a thread is in cached_linkname(). */
  datatype Phase =
    | Idle
    | Looking(pair: Pair)
    | Waiting(pair: Pair)
    | Locked(pair: Pair)
    | Issuing(pair: Pair)
    | Naming(pair: Pair, name: string)
    | Leaving(pair: Pair, name: string)

  datatype Edge = Edge(pair: Pair, name: string)

  /** `edges`: the bonds between names and pairs.  `replies`: history, what was
      returned to callers. */
  datatype State = State(
    edges: set<Edge>,
    lastId: nat,
    lock: int,
    threads: seq<Phase>,
    replies: set<Edge>)

  const UNLOCKED: int := -1

  ghost predicate Named(s: State, pair: Pair) {
    exists e :: e in s.edges && e.pair == pair && e.name != ANY
  }

  /** The pair has a bond other than "ANY", and its name is returned. */
  ghost predicate Found(s: State, pair: Pair, name: string) {
    name != ANY && Edge(pair, name) in s.edges
  }

  function Goto(s: State, t: nat, phase: Phase): State
    requires t < |s.threads|
  {
    s.(threads := s.threads[t := phase])
  }

  function Reply(s: State, t: nat, pair: Pair, name: string): State
    requires t < |s.threads|
  {
    Goto(s, t, Idle).(replies := s.replies + {Edge(pair, name)})
  }

  function NextId(lastId: nat): nat {
    if lastId == ANY_ID then lastId + 1 else lastId
  }

  datatype Step =
    | Call(pair: Pair)
    | Hit(name: string)
    | Miss
    | Acquire
    | HitLocked(name: string)
    | Unlock
    | MissLocked
    | Issue
    | Bind
    | AnyBond(pair: Pair)

  /** What thread `t` does in one step. */
  ghost predicate Takes(s: State, s': State, t: nat, step: Step)
    requires t < |s.threads|
  {
    var p := s.threads[t];
    match step
    case Call(pair) => p.Idle? && s' == Goto(s, t, Looking(pair))
    case Hit(name) => p.Looking? && Found(s, p.pair, name) && s' == Reply(s, t, p.pair, name)
    case Miss => p.Looking? && !Named(s, p.pair) && s' == Goto(s, t, Waiting(p.pair))
    case Acquire => p.Waiting? && s.lock == UNLOCKED && s' == Goto(s, t, Locked(p.pair)).(lock := t)
    case HitLocked(name) =>
      p.Locked? && Found(s, p.pair, name) && s' == Goto(s, t, Leaving(p.pair, name))
    case Unlock => p.Leaving? && s' == Reply(s, t, p.pair, p.name).(lock := UNLOCKED)
    case MissLocked => p.Locked? && !Named(s, p.pair) && s' == Goto(s, t, Issuing(p.pair))
    case Issue =>
      var id := NextId(s.lastId);
      p.Issuing? && s' == Goto(s, t, Naming(p.pair, Name(id))).(lastId := id + 1)
    case Bind =>
      p.Naming? && s' == Goto(s, t, Leaving(p.pair, p.name)).(edges := s.edges + {Edge(p.pair, p.name)})
    case AnyBond(pair) => s' == s.(edges := s.edges + {Edge(pair, ANY)})
  }

  ghost predicate Next(s: State, s': State) {
    exists t: nat, step: Step :: t < |s.threads| && Takes(s, s', t, step)
  }

  /** The name has been issued before. */
  ghost predicate Issued(name: string, lastId: nat) {
    Capitals(name) && Number(name) < lastId && name != ANY
  }

  /** Bonds other than "ANY" carry issued names, one to a pair. */
  ghost predicate EdgesOk(edges: set<Edge>, lastId: nat) {
    && (forall e :: e in edges && e.name != ANY ==> Issued(e.name, lastId))
    && (forall e, f :: e in edges && f in edges && e.name != ANY && f.name != ANY ==>
          (e.pair == f.pair <==> e.name == f.name))
  }

  /** A fresh session: nothing under way, and every name in the store, if there
      is one, below the last number. */
  ghost predicate Init(s: State) {
    && EdgesOk(s.edges, s.lastId)
    && s.lock == UNLOCKED
    && s.replies == {}
    && forall t: nat :: t < |s.threads| ==> s.threads[t] == Idle
  }

  predicate Holding(p: Phase) { p.Locked? || p.Issuing? || p.Naming? || p.Leaving? }

  /** What a thread in the critical section knows. */
  ghost predicate ThreadOk(s: State, t: nat)
    requires t < |s.threads|
  {
    var p := s.threads[t];
    && (Holding(p) <==> s.lock == t)
    && (p.Issuing? || p.Naming? ==> !Named(s, p.pair))
    && (p.Leaving? ==> Found(s, p.pair, p.name))
    && (p.Naming? ==> Issued(p.name, s.lastId) && forall e :: e in s.edges ==> e.name != p.name)
  }

  ghost predicate Inv(s: State) {
    && EdgesOk(s.edges, s.lastId)
    && (forall t: nat :: t < |s.threads| ==> ThreadOk(s, t))
    && (forall r :: r in s.replies ==> r in s.edges && r.name != ANY)
  }

  /** The number taken is new, and its name is not reserved. */
  lemma FreshName(s: State)
    requires EdgesOk(s.edges, s.lastId)
    ensures var id := NextId(s.lastId);
            Issued(Name(id), id + 1) && forall e :: e in s.edges ==> e.name != Name(id)
  {
    var id := NextId(s.lastId);
    NumberOfName(id);
    NamesExact(id, id);
  }

  lemma IssueKeeps(s: State, s': State, t: nat)
    requires Inv(s) && t < |s.threads| && Takes(s, s', t, Issue)
    ensures Inv(s')
  {
    FreshName(s);
    forall u: nat | u < |s'.threads|
      ensures ThreadOk(s', u)
    {
      assert ThreadOk(s, u) && ThreadOk(s, t);
    }
  }

  lemma BindKeeps(s: State, s': State, t: nat)
    requires Inv(s) && t < |s.threads| && Takes(s, s', t, Bind)
    ensures Inv(s')
  {
    assert ThreadOk(s, t);
    var p := s.threads[t];
    assert forall e :: e in s'.edges ==> e in s.edges || e == Edge(p.pair, p.name);
    forall u: nat | u < |s'.threads|
      ensures ThreadOk(s', u)
    {
      assert ThreadOk(s, u);
    }
  }

  lemma AnyBondKeeps(s: State, s': State, t: nat, pair: Pair)
    requires Inv(s) && t < |s.threads| && Takes(s, s', t, AnyBond(pair))
    ensures Inv(s')
  {
    assert forall e :: e in s'.edges && e.name != ANY ==> e in s.edges;
    forall u: nat | u < |s'.threads|
      ensures ThreadOk(s', u)
    {
      assert ThreadOk(s, u);
    }
  }

  lemma NextKeeps(s: State, s': State)
    requires Inv(s) && Next(s, s')
    ensures Inv(s')
  {
    var t: nat, step: Step :| t < |s.threads| && Takes(s, s', t, step);
    match step
    case Issue => IssueKeeps(s, s', t);
    case Bind => BindKeeps(s, s', t);
    case AnyBond(pair) => AnyBondKeeps(s, s', t, pair);
    case _ => PhaseKeeps(s, s', t, step);
  }

  /** The steps that change neither bonds nor numbers. */
  lemma PhaseKeeps(s: State, s': State, t: nat, step: Step)
    requires Inv(s) && t < |s.threads| && Takes(s, s', t, step)
    requires !step.Issue? && !step.Bind? && !step.AnyBond?
    ensures Inv(s')
  {
    assert ThreadOk(s, t);
    assert s'.edges == s.edges && s'.lastId == s.lastId;
    assert ThreadOk(s', t);
    forall u: nat | u < |s'.threads| && u != t
      ensures ThreadOk(s', u)
    {
      OtherThread(s, s', t, u, step);
    }
    RepliesKept(s, s', t, step);
  }

  lemma OtherThread(s: State, s': State, t: nat, u: nat, step: Step)
    requires Inv(s) && t < |s.threads| && u < |s.threads| && u != t && Takes(s, s', t, step)
    requires !step.Issue? && !step.Bind? && !step.AnyBond?
    ensures |s'.threads| == |s.threads| && ThreadOk(s', u)
  {
    assert ThreadOk(s, u) && ThreadOk(s, t);
  }

  lemma RepliesKept(s: State, s': State, t: nat, step: Step)
    requires Inv(s) && t < |s.threads| && Takes(s, s', t, step)
    requires !step.Issue? && !step.Bind? && !step.AnyBond?
    ensures forall r :: r in s'.replies ==> r in s'.edges && r.name != ANY
  {
    assert ThreadOk(s, t);
  }

  ghost predicate Run(run: seq<State>) {
    run != [] && Init(run[0]) && forall i: nat :: i + 1 < |run| ==> Next(run[i], run[i + 1])
  }

  lemma InitKeeps(s: State)
    requires Init(s)
    ensures Inv(s)
  {
    assert UNLOCKED < 0;
  }

  lemma {:induction false} RunKeeps(run: seq<State>, i: nat)
    requires Run(run) && i < |run|
    ensures Inv(run[i])
  {
    hide Inv, Init, Next;
    if i == 0 {
      InitKeeps(run[0]);
    } else {
      RunKeeps(run, i - 1);
      assert Next(run[i - 1], run[i - 1 + 1]);
      NextKeeps(run[i - 1], run[i]);
    }
  }

  ghost predicate ToldTo(s: State, t: nat, pair: Pair, name: string) {
    t < |s.threads| && s.threads[t] == Idle && Edge(pair, name) in s.replies
  }

  /** A thread that has found or bound a name tells it to its caller and is free
      again. */
  lemma CallersAreTold(s: State, s': State, t: nat, step: Step)
    requires t < |s.threads| && Takes(s, s', t, step)
    ensures step.Hit? ==> s.threads[t].Looking? && ToldTo(s', t, s.threads[t].pair, step.name)
    ensures step.Unlock? ==> s.threads[t].Leaving? && ToldTo(s', t, s.threads[t].pair, s.threads[t].name) && s'.lock == -1
    ensures s.replies <= s'.replies
  {
  }

  /** However threads interleave: what callers are told agrees for the same pair
      and differs for different pairs, and "ANY" is never told. */
  lemma AnswersUnique(run: seq<State>, i: nat, q: Edge, r: Edge)
    requires Run(run) && i < |run| && q in run[i].replies && r in run[i].replies
    ensures q.pair == r.pair <==> q.name == r.name
    ensures q.name != ANY
  {
    RunKeeps(run, i);
  }

  /** A pair never has two names, and no two pairs share one. */
  lemma BondsUnique(run: seq<State>, i: nat, e: Edge, f: Edge)
    requires Run(run) && i < |run| && e in run[i].edges && f in run[i].edges && e.name != ANY && f.name != ANY
    ensures e.pair == f.pair <==> e.name == f.name
  {
    RunKeeps(run, i);
  }

  // ---------- No number is wasted ----------

  /** A thread has taken the name and is about to bind it. */
  ghost predicate Binding(s: State, name: string) {
    exists t: nat :: t < |s.threads| && s.threads[t].Naming? && s.threads[t].name == name
  }

  predicate NamingAt(s: State, t: nat) { t < |s.threads| && s.threads[t].Naming? }

  ghost predicate Bound(s: State, name: string) {
    exists e :: e in s.edges && e.name == name
  }

  /** The name of the number is a bond's or about to be one. */
  ghost predicate InUse(s: State, n: nat) {
    Bound(s, Name(n)) || Binding(s, Name(n))
  }

  ghost predicate AllInUse(s: State, first: nat) {
    && first <= s.lastId
    && forall n: nat :: first <= n < s.lastId && n != 1064 ==> InUse(s, n)
  }

  lemma StaysInUse(s: State, s': State, t: nat, step: Step, n: nat)
    requires Inv(s) && t < |s.threads| && Takes(s, s', t, step) && InUse(s, n)
    ensures InUse(s', n)
  {
    hide Inv, Name;
    if Bound(s, Name(n)) {
      var e :| e in s.edges && e.name == Name(n);
      assert e in s'.edges;
    } else {
      var u: nat :| u < |s.threads| && s.threads[u].Naming? && s.threads[u].name == Name(n);
      if u == t && step.Bind? {
        assert Edge(s.threads[t].pair, s.threads[t].name) in s'.edges;
      } else {
        StaysNaming(s, s', t, u, step);
        assert s'.threads[u].Naming? && s'.threads[u].name == Name(n);
      }
    }
  }

  /** A thread about to bind does nothing else. */
  lemma StaysNaming(s: State, s': State, t: nat, u: nat, step: Step)
    requires t < |s.threads| && u < |s.threads| && Takes(s, s', t, step) && s.threads[u].Naming?
    requires u != t || !step.Bind?
    ensures |s'.threads| == |s.threads| && s'.threads[u] == s.threads[u]
  {
  }

  lemma NextInUse(s: State, s': State, first: nat)
    requires Inv(s) && Next(s, s') && AllInUse(s, first)
    ensures AllInUse(s', first)
  {
    hide Inv, Name, InUse;
    var t: nat, step: Step :| t < |s.threads| && Takes(s, s', t, step);
    assert s'.lastId >= s.lastId;
    forall n: nat | first <= n < s'.lastId && n != 1064
      ensures InUse(s', n)
    {
      if n < s.lastId {
        StaysInUse(s, s', t, step, n);
      } else {
        JustIssued(s, s', t, step, n);
      }
    }
  }

  lemma JustIssued(s: State, s': State, t: nat, step: Step, n: nat)
    requires t < |s.threads| && Takes(s, s', t, step) && s.lastId <= n < s'.lastId && n != 1064
    ensures InUse(s', n)
  {
    hide Name;
    assert step.Issue?;
    assert s'.threads[t].Naming? && s'.threads[t].name == Name(n);
  }

  lemma {:induction false} RunInUse(run: seq<State>, i: nat)
    requires Run(run) && i < |run|
    ensures AllInUse(run[i], run[0].lastId)
  {
    hide Inv, Init, Next, InUse;
    if i > 0 {
      RunInUse(run, i - 1);
      RunKeeps(run, i - 1);
      assert Next(run[i - 1], run[i - 1 + 1]);
      NextInUse(run[i - 1], run[i], run[0].lastId);
    }
  }

  /** Every number issued in a run, all from the first one on except that of
      "ANY", is the number of exactly one bond or of exactly one thread's name
      that is about to be bound. */
  lemma NumbersUsed(run: seq<State>, i: nat, n: nat)
    requires Run(run) && i < |run| && run[0].lastId <= n < run[i].lastId && n != 1064
    ensures Bound(run[i], Name(n)) <==> !Binding(run[i], Name(n))
    ensures forall e, f :: e in run[i].edges && f in run[i].edges && e.name == f.name == Name(n) ==> e == f
    ensures forall t: nat, u: nat :: NamingAt(run[i], t) && NamingAt(run[i], u) ==> t == u
  {
    hide Name;
    RunInUse(run, i);
    RunKeeps(run, i);
    NamesExact(n, n);
    var s := run[i];
    assert InUse(s, n);
    forall t: nat, u: nat | NamingAt(s, t) && NamingAt(s, u)
      ensures t == u
    {
      assert ThreadOk(s, t) && ThreadOk(s, u);
    }
    if t: nat :| t < |s.threads| && s.threads[t].Naming? && s.threads[t].name == Name(n) {
      assert ThreadOk(s, t);
    }
  }

  /** In a session that starts empty at zero, the names in use are those of the
      numbers up to the last one, without "ANY": "A", "B", and so on. */
  lemma NamesInUse(run: seq<State>, i: nat, name: string)
    requires Run(run) && i < |run| && run[0].edges == {} && run[0].lastId == 0 && name != "ANY"
    ensures Bound(run[i], name) || Binding(run[i], name)
       <==> exists n: nat :: n < run[i].lastId && Name(n) == name
  {
    hide Capitals;
    RunInUse(run, i);
    RunKeeps(run, i);
    var s := run[i];
    if Bound(s, name) || Binding(s, name) {
      assert Issued(name, s.lastId) by {
        if t: nat :| t < |s.threads| && s.threads[t].Naming? && s.threads[t].name == name { assert ThreadOk(s, t); }
      }
      NameOfNumber(name);
    }
    if n: nat :| n < s.lastId && Name(n) == name {
      NamesExact(n, n);
      assert InUse(s, n);
    }
  }

  /** The first names. */
  lemma FirstNames()
    ensures Name(0) == "A" && Name(1) == "B" && Name(25) == "Z" && Name(26) == "AA" && Name(27) == "AB"
    ensures Name(701) == "ZZ" && Name(702) == "AAA"
  {
    assert Name(0) == [Letter(0)];
    assert Name(25) == [Letter(25)];
    assert Name(26) == Name(0) + [Letter(0)];
    assert Name(27) == Name(0) + [Letter(1)];
    assert Name(701) == Name(25) + [Letter(25)];
    assert Name(702) == Name(26) + [Letter(0)];
  }

  /** At most one thread is in the critical section. */
  lemma OneHolder(run: seq<State>, i: nat, t: nat, u: nat)
    requires Run(run) && i < |run| && t < |run[i].threads| && u < |run[i].threads|
    requires Holding(run[i].threads[t]) && Holding(run[i].threads[u])
    ensures t == u
  {
    RunKeeps(run, i);
    assert ThreadOk(run[i], t) && ThreadOk(run[i], u);
  }
}
