/** Reading a cost: a decimal number with at most two integer digits, of which
    four fractional digits count. */
module CostParser {

  predicate Digit(c: char) { '0' <= c <= '9' }

  predicate Digits(s: string) { forall k: nat :: k < |s| ==> Digit(s[k]) }

  function DigitValue(c: char): (d: nat)
    requires Digit(c)
    ensures d < 10
  {
    (c - '0') as nat
  }

  function Zeros(z: nat): (s: string)
    ensures |s| == z && forall k: nat :: k < z ==> s[k] == '0'
  {
    seq(z, _ => '0')
  }

  // ---------- The language ----------

  /** An optional sign, zeros, at most two digits not starting with zero, and
      perhaps a point with digits after it; at least one digit in all. */
  ghost predicate Form(s: string, sign: string, z: nat, ip: string, tail: string) {
    && s == sign + Zeros(z) + ip + tail
    && (sign == "" || sign == "-" || sign == "+")
    && |ip| <= 2 && Digits(ip) && (ip != "" ==> ip[0] != '0')
    && (tail == "" || (tail[0] == '.' && Digits(tail[1..])))
    && (z > 0 || ip != "" || |tail| > 1)
  }

  function Number(ds: string): nat
    requires Digits(ds)
  {
    if ds == "" then 0 else 10 * Number(ds[..|ds| - 1]) + DigitValue(ds[|ds| - 1])
  }

  function Pow10(n: nat): nat {
    if n == 0 then 1 else 10 * Pow10(n - 1)
  }

  /** The first four of the fractional digits, as ten-thousandths. */
  function Fraction(ds: string): nat
    requires Digits(ds)
  {
    if |ds| <= 4 then Number(ds) * Pow10(4 - |ds|) else Number(ds[..4])
  }

  /** The value in ten-thousandths. */
  function Scaled(sign: string, ip: string, tail: string): int
    requires Digits(ip) && (tail != "" ==> Digits(tail[1..]))
  {
    var a := Number(ip) * 10000 + if tail == "" then 0 else Fraction(tail[1..]);
    if sign == "-" then -a else a
  }

  // ---------- The scan ----------

  /** The character at `i`, or the terminator. */
  function CharAt(s: string, i: nat): char {
    if i < |s| then s[i] else '\0'
  }

  function SignEnd(s: string): (i: nat)
    ensures i <= |s| && i <= 1
  {
    if CharAt(s, 0) == '-' || CharAt(s, 0) == '+' then 1 else 0
  }

  function ZeroEnd(s: string, i: nat): (j: nat)
    requires i <= |s|
    ensures i <= j <= |s|
    ensures forall k: nat :: i <= k < j ==> s[k] == '0'
    ensures CharAt(s, j) != '0'
    decreases |s| - i
  {
    if CharAt(s, i) == '0' then ZeroEnd(s, i + 1) else i
  }

  /** The place of the first point from `i` on, or the end. */
  function Point(t: string, i: nat): (p: nat)
    requires i <= |t|
    ensures i <= p <= |t| && (p < |t| ==> t[p] == '.')
    ensures forall k: nat :: i <= k < p ==> t[k] != '.'
    decreases |t| - i
  {
    if i == |t| || t[i] == '.' then i else Point(t, i + 1)
  }

  /** The table position used for the `k`th character, when the point is at `p`. */
  function Position(p: nat, k: nat): int {
    if k < p then 2 - p + k else 1 + k - p
  }

  /** What a digit adds at a table position, in ten-thousandths. */
  function Conv(pos: int, d: nat): nat
    requires 0 <= pos <= 5
  {
    d * Pow10(5 - pos)
  }

  /** All characters but the point are digits. */
  ghost predicate AllDigits(t: string, p: nat, n: nat) {
    forall k: nat :: k < n && k < |t| && k != p ==> Digit(t[k])
  }

  /** The sum over the first `n` characters. */
  ghost function Sum(t: string, p: nat, n: nat): nat
    requires n <= |t| && p <= 2 && AllDigits(t, p, n)
  {
    if n == 0 then 0
    else
      var k := n - 1;
      Sum(t, p, k) + if k == p || k > p + 4 then 0 else Conv(Position(p, k), DigitValue(t[k]))
  }

  /** What is accepted, in terms of the scan. */
  ghost predicate Accepted(s: string) {
    var i := SignEnd(s);
    var j := ZeroEnd(s, i);
    var t := s[j..];
    var p := Point(t, 0);
    && p <= 2
    && (t == "" || t == "." ==> j > i)
    && AllDigits(t, p, |t|)
  }

  ghost function Result(s: string): int
    requires Accepted(s)
  {
    var j := ZeroEnd(s, SignEnd(s));
    var t := s[j..];
    var total: int := Sum(t, Point(t, 0), |t|);
    if CharAt(s, 0) == '-' then -total else total
  }

  lemma NoDigits(t: string)
    requires t == "" || t == "."
    ensures Point(t, 0) == 0 && AllDigits(t, 0, |t|) && Sum(t, 0, |t|) == 0
  {
    if t == "." {
      assert Sum(t, 0, 0) == 0;
      assert Sum(t, 0, 1) == 0;
    }
  }

  /** strtofC(), over exact decimals: the result is in ten-thousandths. */
  method StrToCost(s: string) returns (ok: bool, r: int)
    requires forall k: nat :: k < |s| ==> s[k] != '\0'
    ensures ok <==> Accepted(s)
    ensures ok ==> r == Result(s)
  {
    r := 0;
    var i := 0;
    var minus := false;
    if CharAt(s, i) == '-' || CharAt(s, i) == '+' {
      if CharAt(s, i) == '-' { minus := true; }
      i := i + 1;
    }
    while CharAt(s, i) == '0'
      invariant SignEnd(s) <= i <= |s| && ZeroEnd(s, i) == ZeroEnd(s, SignEnd(s))
      decreases |s| - i
    {
      i := i + 1;
    }
    var t := s[i..];
    var point := Point(t, 0);
    if point < |t| && Point(t, point + 1) < |t| {
      assert !Digit(t[Point(t, point + 1)]);
      return false, 0;
    }
    var pos := 2 - point;
    if pos < 0 { return false, 0; }
    if t == "" || t == "." {
      NoDigits(t);
      return i > 0 && s[i - 1] == '0', 0;
    }
    var total: nat;
    ok, total := ScanDigits(t, point);
    r := if minus then -(total as int) else total;
  }

  method ScanDigits(t: string, point: nat) returns (ok: bool, total: nat)
    requires point == Point(t, 0) <= 2 && t != "" && t != "."
    requires forall k: nat :: k < |t| ==> t[k] != '\0' && (k > point ==> t[k] != '.')
    ensures ok <==> AllDigits(t, point, |t|)
    ensures ok ==> total == Sum(t, point, |t|)
  {
    var k, pos := 0, 2 - point;
    total := 0;
    var more := true;
    while more
      invariant k <= |t| && (more <==> k < |t|)
      invariant AllDigits(t, point, k) && total == Sum(t, point, k)
      invariant pos == if k <= point then 2 - point + k else 1 + k - point
      decreases |t| - k
    {
      if t[k] == '.' {
        k := k + 1;
        if k == |t| { return true, total; }
      }
      if !Digit(t[k]) { return false, total; }
      if point - k >= -4 { total := total + Conv(pos, DigitValue(t[k])); }
      pos := pos + 1;
      k := k + 1;
      more := k < |t|;
    }
    ok := true;
  }

  // ---------- The language is the one described ----------

  lemma {:induction false} ZeroEndIs(s: string, i: nat, j: nat)
    requires i <= j <= |s| && CharAt(s, j) != '0' && forall k: nat :: i <= k < j ==> s[k] == '0'
    ensures ZeroEnd(s, i) == j
    decreases j - i
  {
    if i < j { ZeroEndIs(s, i + 1, j); }
  }

  lemma {:induction false} PointIs(t: string, i: nat, p: nat)
    requires i <= p <= |t| && (p < |t| ==> t[p] == '.') && forall k: nat :: i <= k < p ==> t[k] != '.'
    ensures Point(t, i) == p
    decreases p - i
  {
    if i < p { PointIs(t, i + 1, p); }
  }

  /** How the scan sees a string of the form. */
  lemma FormScanned(s: string, sign: string, z: nat, ip: string, tail: string)
    requires Form(s, sign, z, ip, tail)
    ensures SignEnd(s) == |sign| && ZeroEnd(s, |sign|) == |sign| + z && s[|sign| + z..] == ip + tail
    ensures CharAt(s, 0) == '-' <==> sign == "-"
    ensures Point(ip + tail, 0) == |ip|
  {
    hide Digits;
    var t := ip + tail;
    assert s == sign + (Zeros(z) + t);
    FirstChar(ip, tail);
    StartOf(s, sign, z, t);
    ZerosSkipped(s, sign, z, t);
    PointFound(ip, tail);
  }

  lemma FirstChar(ip: string, tail: string)
    requires Digits(ip) && (ip != "" ==> ip[0] != '0') && (tail == "" || tail[0] == '.')
    ensures var t := ip + tail; t != "" ==> t[0] != '-' && t[0] != '+' && t[0] != '0'
  {
    if ip != "" {
      assert (ip + tail)[0] == ip[0] && Digit(ip[0]);
    } else {
      assert ip + tail == tail;
    }
  }

  lemma ZerosSkipped(s: string, sign: string, z: nat, t: string)
    requires s == sign + (Zeros(z) + t) && (t != "" ==> t[0] != '0')
    ensures s[|sign| + z..] == t && ZeroEnd(s, |sign|) == |sign| + z
  {
    var j := |sign| + z;
    assert forall k: nat :: |sign| <= k < j ==> s[k] == Zeros(z)[k - |sign|];
    assert s[j..] == t;
    assert CharAt(s, j) == CharAt(t, 0);
    ZeroEndIs(s, |sign|, j);
  }

  lemma PointFound(ip: string, tail: string)
    requires Digits(ip) && (tail == "" || tail[0] == '.')
    ensures Point(ip + tail, 0) == |ip|
  {
    var t := ip + tail;
    assert forall k: nat :: k < |ip| ==> t[k] == ip[k];
    PointIs(t, 0, |ip|);
  }

  lemma StartOf(s: string, sign: string, z: nat, t: string)
    requires s == sign + (Zeros(z) + t) && (sign == "" || sign == "-" || sign == "+")
    requires t != "" ==> t[0] != '-' && t[0] != '+'
    ensures SignEnd(s) == |sign| && (CharAt(s, 0) == '-' <==> sign == "-")
  {
    if sign == "" && s != "" {
      if z > 0 { assert s[0] == Zeros(z)[0]; } else { assert s == t; }
    }
  }

  lemma FormAccepted(s: string, sign: string, z: nat, ip: string, tail: string)
    requires Form(s, sign, z, ip, tail)
    ensures Accepted(s)
  {
    hide Digits, AllDigits;
    FormScanned(s, sign, z, ip, tail);
    FormDigits(ip, tail);
  }

  lemma FormDigits(ip: string, tail: string)
    requires Digits(ip) && (tail == "" || (tail[0] == '.' && Digits(tail[1..])))
    ensures AllDigits(ip + tail, |ip|, |ip + tail|)
    ensures ip != "" ==> ip + tail != "."
  {
    var t := ip + tail;
    forall k: nat | k < |t| && k != |ip|
      ensures Digit(t[k])
    {
      if k < |ip| { assert t[k] == ip[k]; } else { assert t[k] == tail[1..][k - |ip| - 1]; }
    }
    if ip != "" { assert t[0] == ip[0]; }
  }

  /** The parts of an accepted string. */
  lemma AcceptedForm(s: string) returns (sign: string, z: nat, ip: string, tail: string)
    requires Accepted(s)
    ensures Form(s, sign, z, ip, tail)
  {
    hide Digits, AllDigits;
    var i := SignEnd(s);
    var j := ZeroEnd(s, i);
    var t := s[j..];
    var p := Point(t, 0);
    sign, z, ip, tail := s[..i], j - i, t[..p], t[p..];
    CutUp(s, i, j, p);
    TailDigits(t, p);
    FirstAfterZeros(s, i, j, t, p);
  }

  /** What follows the zeros does not begin with one, and has a digit when it has
      a point. */
  lemma FirstAfterZeros(s: string, i: nat, j: nat, t: string, p: nat)
    requires i <= j <= |s| && j == ZeroEnd(s, i) && t == s[j..] && p == Point(t, 0)
    ensures p <= |t| && (t[..p] != "" ==> t[..p][0] != '0')
    ensures |t[p..]| == 1 && t[..p] == "" ==> t == t[p..]
  {
    assert t != "" ==> t[0] == CharAt(s, j);
  }

  lemma CutUp(s: string, i: nat, j: nat, p: nat)
    requires i <= j <= |s| && p <= |s| - j && forall k: nat :: i <= k < j ==> s[k] == '0'
    ensures s == s[..i] + Zeros(j - i) + s[j..][..p] + s[j..][p..]
  {
    assert s[i..j] == Zeros(j - i);
    assert s[j..] == s[j..][..p] + s[j..][p..];
    assert s == s[..i] + s[i..j] + s[j..];
  }

  lemma TailDigits(t: string, p: nat)
    requires p == Point(t, 0) && AllDigits(t, p, |t|)
    ensures Digits(t[..p]) && (t[p..] == "" || (t[p..][0] == '.' && Digits(t[p..][1..])))
  {
    if p < |t| {
      forall k: nat | k < |t[p..][1..]|
        ensures Digit(t[p..][1..][k])
      {
        assert t[p..][1..][k] == t[p + 1 + k];
      }
    }
  }

  /** A string is accepted exactly when it has the described form. */
  lemma AcceptsExactly(s: string)
    ensures Accepted(s) <==> exists sign: string, z: nat, ip: string, tail: string :: Form(s, sign, z, ip, tail)
  {
    if Accepted(s) {
      var sign, z, ip, tail := AcceptedForm(s);
    }
    if sign: string, z: nat, ip: string, tail: string :| Form(s, sign, z, ip, tail) {
      FormAccepted(s, sign, z, ip, tail);
    }
  }

  // ---------- The value ----------

  lemma Powers()
    ensures Pow10(0) == 1 && Pow10(1) == 10 && Pow10(2) == 100 && Pow10(3) == 1000 && Pow10(4) == 10000 && Pow10(5) == 100000
  {
    assert Pow10(1) == 10 * Pow10(0);
    assert Pow10(2) == 10 * Pow10(1);
    assert Pow10(3) == 10 * Pow10(2);
    assert Pow10(4) == 10 * Pow10(3);
    assert Pow10(5) == 10 * Pow10(4);
  }

  /** The integer part: one or two digits before the point. */
  lemma IntegerSum(t: string, ip: string)
    requires |ip| <= 2 && Digits(ip) && ip <= t && AllDigits(t, |ip|, |ip|)
    ensures Sum(t, |ip|, |ip|) == Number(ip) * 10000
  {
    Powers();
    var p := |ip|;
    assert Sum(t, p, 0) == 0;
    if p >= 1 {
      assert t[0] == ip[0];
      assert Sum(t, p, 1) == Conv(2 - p, DigitValue(t[0]));
    }
    if p == 2 {
      assert t[1] == ip[1];
      assert ip[..1] == [ip[0]];
      assert Number(ip[..1]) == DigitValue(ip[0]);
    }
  }

  /** The fractional part adds its digits one by one, up to the fourth. */
  lemma {:induction false} FractionSum(t: string, p: nat, ds: string, n: nat)
    requires p <= 2 && n <= |ds| && |t| == p + 1 + |ds| && t[p + 1..] == ds && Digits(ds) && AllDigits(t, p, |t|)
    ensures Digits(ds[..n]) && Sum(t, p, p + 1 + n) == Sum(t, p, p) + Fraction(ds[..n])
  {
    Powers();
    if n == 0 {
      assert Sum(t, p, p + 1) == Sum(t, p, p);
    } else {
      FractionSum(t, p, ds, n - 1);
      assert t[p + n] == ds[n - 1];
      FractionStep(ds, n);
    }
  }

  lemma FractionStep(ds: string, n: nat)
    requires 0 < n <= |ds| && Digits(ds)
    ensures Fraction(ds[..n]) == Fraction(ds[..n - 1]) + if n > 4 then 0 else Conv(1 + n, DigitValue(ds[n - 1]))
  {
    Powers();
    assert ds[..n][..n - 1] == ds[..n - 1];
    if n <= 4 {
      var a, d := Number(ds[..n - 1]), DigitValue(ds[n - 1]);
      assert Number(ds[..n]) == 10 * a + d;
      assert Pow10(4 - (n - 1)) == 10 * Pow10(4 - n);
      Regroup(a, d, Pow10(4 - n));
    } else {
      assert ds[..n][..4] == ds[..4];
      if n > 5 { assert ds[..n - 1][..4] == ds[..4]; } else { assert ds[..n - 1] == ds[..4]; }
    }
  }

  lemma Regroup(a: nat, d: nat, w: nat)
    ensures (10 * a + d) * w == a * (10 * w) + d * w
  {
  }

  /** The result is the number read, cut off after four fractional digits. */
  lemma ResultIsValue(s: string, sign: string, z: nat, ip: string, tail: string)
    requires Form(s, sign, z, ip, tail)
    ensures Accepted(s) && Result(s) == Scaled(sign, ip, tail)
  {
    hide Digits, AllDigits;
    FormScanned(s, sign, z, ip, tail);
    FormAccepted(s, sign, z, ip, tail);
    SumIsValue(ip, tail);
  }

  lemma SumIsValue(ip: string, tail: string)
    requires |ip| <= 2 && Digits(ip) && (tail == "" || (tail[0] == '.' && Digits(tail[1..])))
    requires AllDigits(ip + tail, |ip|, |ip + tail|)
    ensures Sum(ip + tail, |ip|, |ip + tail|) == Number(ip) * 10000 + if tail == "" then 0 else Fraction(tail[1..])
  {
    var t := ip + tail;
    IntegerSum(t, ip);
    if tail == "" {
      assert t == ip;
    } else {
      var ds := tail[1..];
      assert t[|ip| + 1..] == ds;
      FractionSum(t, |ip|, ds, |ds|);
      assert ds[..|ds|] == ds;
    }
  }

  // ---------- Printing and reading ----------

  function DigitChar(d: nat): (c: char)
    requires d < 10
    ensures Digit(c) && DigitValue(c) == d && (c == '0' <==> d == 0)
  {
    '0' + d as char
  }

  /** `a` ten-thousandths, with two integer and four fractional digits. */
  function Print(n: int): string
    requires -1000000 < n < 1000000
  {
    var a: nat := if n < 0 then -n else n;
    (if n < 0 then "-" else "") + IntDigits(a / 10000) + "." + FracDigits(a % 10000)
  }

  function IntDigits(a: nat): string
    requires a < 100
  {
    [DigitChar(a / 10), DigitChar(a % 10)]
  }

  function FracDigits(a: nat): (s: string)
    requires a < 10000
    ensures |s| == 4 && Digits(s)
  {
    var b := a / 10;
    var c := b / 10;
    [DigitChar(c / 10), DigitChar(c % 10), DigitChar(b % 10), DigitChar(a % 10)]
  }

  lemma FracNumber(a: nat)
    requires a < 10000
    ensures Fraction(FracDigits(a)) == a
  {
    hide Number;
    var b := a / 10;
    var c := b / 10;
    FourDigits(c / 10, c % 10, b % 10, a % 10);
    assert Pow10(0) == 1;
  }

  lemma FourDigits(a: nat, b: nat, c: nat, d: nat)
    requires a < 10 && b < 10 && c < 10 && d < 10
    ensures Number([DigitChar(a), DigitChar(b), DigitChar(c), DigitChar(d)]) == 1000 * a + 100 * b + 10 * c + d
  {
    hide DigitChar;
    var s1 := [DigitChar(a)];
    var s2 := s1 + [DigitChar(b)];
    var s3 := s2 + [DigitChar(c)];
    NumberSnoc("", DigitChar(a));
    NumberSnoc(s1, DigitChar(b));
    NumberSnoc(s2, DigitChar(c));
    NumberSnoc(s3, DigitChar(d));
    assert "" + [DigitChar(a)] == s1;
    assert s3 + [DigitChar(d)] == [DigitChar(a), DigitChar(b), DigitChar(c), DigitChar(d)];
  }

  lemma NumberSnoc(s: string, c: char)
    requires Digits(s) && Digit(c)
    ensures Digits(s + [c]) && Number(s + [c]) == 10 * Number(s) + DigitValue(c)
  {
    assert (s + [c])[..|s|] == s;
  }

  /** The integer digits without leading zeros. */
  lemma IntForm(a: nat) returns (z: nat, ip: string)
    requires a < 100
    ensures IntDigits(a) == Zeros(z) + ip && |ip| <= 2 && Digits(ip) && (ip != "" ==> ip[0] != '0') && (z > 0 || ip != "")
    ensures Number(ip) == a
  {
    if a >= 10 {
      z, ip := 0, IntDigits(a);
      assert ip[..1] == [ip[0]];
      assert Number(ip[..1]) == a / 10;
    } else if a > 0 {
      z, ip := 1, [DigitChar(a)];
      assert IntDigits(a) == Zeros(1) + ip;
      assert Number(ip[..0]) == 0;
    } else {
      z, ip := 2, "";
      assert IntDigits(a) == Zeros(2) + ip;
    }
  }

  /** Reading what was printed gives the number back, up to 99.9999 either way. */
  lemma ReadPrinted(n: int)
    requires -1000000 < n < 1000000
    ensures Accepted(Print(n)) && Result(Print(n)) == n
  {
    hide IntDigits, FracDigits, Fraction;
    var a: nat := if n < 0 then -n else n;
    var sign := if n < 0 then "-" else "";
    var z, ip := IntForm(a / 10000);
    var tail := "." + FracDigits(a % 10000);
    assert tail[1..] == FracDigits(a % 10000);
    assert Print(n) == sign + Zeros(z) + ip + tail;
    FracNumber(a % 10000);
    ResultIsValue(Print(n), sign, z, ip, tail);
  }
}
