/** Kernel version comparison and the reboot decision built on it
    (client/hostinfo/version.go, client/hostinfo/reboot.go). */
module Versions {
  import opened Text

  // ---------- character classes ----------

  predicate IsDigit(c: char) { '0' <= c <= '9' }

  predicate IsAlpha(c: char) { 'a' <= c <= 'z' || 'A' <= c <= 'Z' }

  predicate IsAlphaNum(c: char) { IsDigit(c) || IsAlpha(c) }

  predicate SameClass(c: char, numeric: bool) {
    if numeric then IsDigit(c) else IsAlpha(c)
  }

  // ---------- the order the scanner is meant to compute ----------

  /** A version is a list of runs: words, and numbers compared as numbers. */
  datatype Segment = Letters(text: string) | Number(value: nat)

  function NumberValue(digits: string): nat {
    if digits == [] then 0
    else
      var last := digits[|digits| - 1];
      NumberValue(digits[..|digits| - 1]) * 10 + if IsDigit(last) then last as int - '0' as int else 0
  }

  function SegmentOf(run: string, numeric: bool): Segment {
    if numeric then Number(NumberValue(run)) else Letters(run)
  }

  /** How far the run of one class goes from the start of `s`. */
  function RunLength(s: string, numeric: bool): (n: nat)
    ensures n <= |s|
    ensures forall k :: 0 <= k < n ==> SameClass(s[k], numeric)
    ensures n < |s| ==> !SameClass(s[n], numeric)
  {
    if s != [] && SameClass(s[0], numeric) then 1 + RunLength(s[1..], numeric) else 0
  }

  /** The maximal runs of `s` in order, separators dropped. */
  function Segments(s: string): seq<Segment>
    decreases |s|
  {
    if s == [] then []
    else if !IsAlphaNum(s[0]) then Segments(s[1..])
    else
      var numeric := IsDigit(s[0]);
      var n := RunLength(s, numeric);
      [SegmentOf(s[..n], numeric)] + Segments(s[n..])
  }

  /** Words come before numbers; numbers go by value, words by byte order. */
  function CompareSegment(a: Segment, b: Segment): int {
    match (a, b)
    case (Letters(_), Number(_)) => -1
    case (Number(_), Letters(_)) => 1
    case (Number(m), Number(n)) => if m < n then -1 else if m > n then 1 else 0
    case (Letters(s), Letters(t)) => if Less(s, t) then -1 else if Less(t, s) then 1 else 0
  }

  /** Lexicographic order on segment lists, a proper prefix first. */
  function Compare(xs: seq<Segment>, ys: seq<Segment>): int {
    if xs == [] then (if ys == [] then 0 else -1)
    else if ys == [] then 1
    else
      var c := CompareSegment(xs[0], ys[0]);
      if c != 0 then c else Compare(xs[1..], ys[1..])
  }

  function Order(a: string, b: string): int {
    Compare(Segments(a), Segments(b))
  }

  // ---------- it is a total preorder ----------

  lemma SegmentOrder(a: Segment, b: Segment, c: Segment)
    ensures CompareSegment(a, b) == -CompareSegment(b, a)
    ensures CompareSegment(a, b) == 0 <==> a == b
    ensures CompareSegment(a, b) == CompareSegment(b, c) == -1 ==> CompareSegment(a, c) == -1
  {
    if a.Letters? && b.Letters? {
      LessTrichotomy(a.text, b.text);
      if c.Letters? && Less(a.text, b.text) && Less(b.text, c.text) {
        LessTransitive(a.text, b.text, c.text);
      }
    }
  }

  lemma {:induction false} CompareAntisymmetric(xs: seq<Segment>, ys: seq<Segment>)
    ensures Compare(xs, ys) == -Compare(ys, xs)
    ensures Compare(xs, ys) in {-1, 0, 1}
    ensures Compare(xs, ys) == 0 <==> xs == ys
  {
    if xs != [] && ys != [] {
      SegmentOrder(xs[0], ys[0], xs[0]);
      CompareAntisymmetric(xs[1..], ys[1..]);
      assert xs == [xs[0]] + xs[1..] && ys == [ys[0]] + ys[1..];
    }
  }

  lemma {:induction false} CompareTransitive(xs: seq<Segment>, ys: seq<Segment>, zs: seq<Segment>)
    requires Compare(xs, ys) <= 0 && Compare(ys, zs) <= 0
    ensures Compare(xs, zs) <= 0
  {
    if xs != [] {
      SegmentOrder(xs[0], ys[0], zs[0]);
      SegmentOrder(ys[0], zs[0], xs[0]);
      if xs[0] == ys[0] == zs[0] {
        CompareTransitive(xs[1..], ys[1..], zs[1..]);
      }
    }
  }

  /** Antisymmetric, transitive and total on version strings, and equal exactly on those with
      the same segments. */
  lemma OrderIsTotalPreorder(a: string, b: string, c: string)
    ensures Order(a, b) == -Order(b, a) && Order(a, b) in {-1, 0, 1}
    ensures Order(a, b) == 0 <==> Segments(a) == Segments(b)
    ensures Order(a, b) <= 0 && Order(b, c) <= 0 ==> Order(a, c) <= 0
    ensures Order(a, b) < 0 && Order(b, c) <= 0 ==> Order(a, c) < 0
  {
    var xs, ys, zs := Segments(a), Segments(b), Segments(c);
    CompareAntisymmetric(xs, ys);
    CompareAntisymmetric(xs, zs);
    CompareAntisymmetric(ys, zs);
    if Order(a, b) <= 0 && Order(b, c) <= 0 {
      CompareTransitive(xs, ys, zs);
      if Order(a, c) == 0 {
        CompareAntisymmetric(zs, ys);
      }
    }
  }

  // ---------- what segments ignore ----------

  lemma {:induction false} RunLengthStops(s: string, c: char, t: string, numeric: bool)
    requires !SameClass(c, numeric)
    ensures RunLength(s + [c] + t, numeric) == RunLength(s, numeric)
  {
    if s != [] && SameClass(s[0], numeric) {
      assert (s + [c] + t)[1..] == s[1..] + [c] + t;
      RunLengthStops(s[1..], c, t, numeric);
    }
  }

  lemma RunFirst(s: string)
    requires s != [] && IsAlphaNum(s[0])
    ensures var n := RunLength(s, IsDigit(s[0]));
      0 < n <= |s| && Segments(s) == [SegmentOf(s[..n], IsDigit(s[0]))] + Segments(s[n..])
  {}

  /** A run at the front stays the same run when what follows does not lengthen it. */
  lemma FrontRun(s: string, u: string, more: seq<Segment>)
    requires s != [] && IsAlphaNum(s[0])
    requires RunLength(s + u, IsDigit(s[0])) == RunLength(s, IsDigit(s[0]))
    requires var n := RunLength(s, IsDigit(s[0])); Segments(s[n..] + u) == Segments(s[n..]) + more
    ensures Segments(s + u) == Segments(s) + more
  {
    var n := RunLength(s, IsDigit(s[0]));
    RunFirst(s);
    RunFirst(s + u);
    assert (s + u)[n..] == s[n..] + u && (s + u)[..n] == s[..n] && (s + u)[0] == s[0];
  }

  /** A separator only separates: it adds no segment and joins none. */
  lemma {:induction false} SeparatorSplits(s: string, c: char, t: string)
    requires !IsAlphaNum(c)
    ensures Segments(s + [c] + t) == Segments(s) + Segments(t)
    decreases |s|
  {
    var whole := s + [c] + t;
    if s == [] {
      assert whole[1..] == t;
    } else if !IsAlphaNum(s[0]) {
      assert whole[1..] == s[1..] + [c] + t;
      SeparatorSplits(s[1..], c, t);
    } else {
      var n := RunLength(s, IsDigit(s[0]));
      RunLengthStops(s, c, t, IsDigit(s[0]));
      SeparatorSplits(s[n..], c, t);
      assert whole == s + ([c] + t) && s[n..] + ([c] + t) == s[n..] + [c] + t;
      FrontRun(s, [c] + t, Segments(t));
    }
  }

  /** Where a run of one class ends for want of more of it, the segments part too. */
  lemma {:induction false} RunsPart(s: string, t: string, numeric: bool)
    requires s != [] && t != [] && SameClass(s[|s| - 1], numeric) && !SameClass(t[0], numeric)
    ensures Segments(s + t) == Segments(s) + Segments(t)
    decreases |s|
  {
    if !IsAlphaNum(s[0]) {
      assert (s + t)[1..] == s[1..] + t;
      RunsPart(s[1..], t, numeric);
    } else {
      var n := RunLength(s, IsDigit(s[0]));
      if n == |s| {
        LastOfRun(s, numeric);
      }
      RunLengthBefore(s, t, IsDigit(s[0]));
      if n < |s| {
        assert s[n..][|s| - n - 1] == s[|s| - 1];
        RunsPart(s[n..], t, numeric);
      } else {
        assert s[n..] == [] && [] + t == t && Segments([]) == [];
      }
      FrontRun(s, t, Segments(t));
    }
  }

  lemma LastOfRun(s: string, numeric: bool)
    requires s != [] && IsAlphaNum(s[0]) && SameClass(s[|s| - 1], numeric)
    requires RunLength(s, IsDigit(s[0])) == |s|
    ensures numeric == IsDigit(s[0])
  {
    assert SameClass(s[|s| - 1], IsDigit(s[0]));
  }

  lemma {:induction false} RunLengthBefore(s: string, t: string, numeric: bool)
    requires t != [] && (RunLength(s, numeric) < |s| || !SameClass(t[0], numeric))
    ensures RunLength(s + t, numeric) == RunLength(s, numeric)
  {
    if s != [] && SameClass(s[0], numeric) {
      assert (s + t)[1..] == s[1..] + t;
      RunLengthBefore(s[1..], t, numeric);
    } else if s == [] {
      assert s + t == t;
    }
  }

  // ---------- which way the order goes ----------

  ghost predicate AllLetters(s: string) {
    forall k :: 0 <= k < |s| ==> IsAlpha(s[k])
  }

  lemma OneRun(s: string, numeric: bool)
    requires s != [] && if numeric then AllDigits(s) else AllLetters(s)
    ensures Segments(s) == [if numeric then Number(NumberValue(s)) else Letters(s)]
  {
    assert SameClass(s[0], numeric);
    assert RunLength(s, numeric) == |s|;
    assert s[..|s|] == s && s[|s|..] == [];
  }

  lemma CompareOne(a: Segment, b: Segment)
    ensures Compare([a], [b]) == CompareSegment(a, b)
  {
    assert [a][1..] == [] && [b][1..] == [];
  }

  /** Digit runs go by the numbers they stand for. */
  lemma NumbersGoByValue(x: string, y: string)
    requires x != [] && y != [] && AllDigits(x) && AllDigits(y)
    ensures Order(x, y) < 0 <==> NumberValue(x) < NumberValue(y)
    ensures Order(x, y) == 0 <==> NumberValue(x) == NumberValue(y)
  {
    OneRun(x, true);
    OneRun(y, true);
    CompareOne(Number(NumberValue(x)), Number(NumberValue(y)));
  }

  /** Letter runs go by byte order, and every one of them is below every number. */
  lemma WordsGoByBytes(s: string, t: string, x: string)
    requires s != [] && t != [] && x != [] && AllLetters(s) && AllLetters(t) && AllDigits(x)
    ensures Order(s, t) < 0 <==> Less(s, t)
    ensures Order(s, x) < 0
  {
    OneRun(s, false);
    OneRun(t, false);
    OneRun(x, true);
    CompareOne(Letters(s), Letters(t));
    CompareOne(Letters(s), Number(NumberValue(x)));
    LessTrichotomy(s, t);
  }

  lemma {:induction false} HasSegments(s: string)
    ensures Segments(s) != [] <==> exists k :: 0 <= k < |s| && IsAlphaNum(s[k])
  {
    if s != [] && !IsAlphaNum(s[0]) {
      HasSegments(s[1..]);
      if k :| 0 <= k < |s[1..]| && IsAlphaNum(s[1..][k]) {
        assert IsAlphaNum(s[k + 1]);
      }
      forall k | 0 <= k < |s| && IsAlphaNum(s[k]) ensures Segments(s) != [] {
        assert IsAlphaNum(s[1..][k - 1]);
      }
    }
  }

  lemma {:induction false} CompareAfter(ps: seq<Segment>, xs: seq<Segment>, ys: seq<Segment>)
    ensures Compare(ps + xs, ps + ys) == Compare(xs, ys)
  {
    if ps == [] {
      assert ps + xs == xs && ps + ys == ys;
    } else {
      assert (ps + xs)[1..] == ps[1..] + xs && (ps + ys)[1..] == ps[1..] + ys;
      SegmentOrder(ps[0], ps[0], ps[0]);
      CompareAfter(ps[1..], xs, ys);
    }
  }

  /** What two versions share up to a separator does not matter: what follows decides. And a version
      that goes on after a separator with a letter or a digit anywhere is newer than one that
      stops there. */
  lemma RestDecides(a: string, c: char, x: string, y: string)
    requires !IsAlphaNum(c)
    ensures Order(a + [c] + x, a + [c] + y) == Order(x, y)
    ensures (exists k :: 0 <= k < |x| && IsAlphaNum(x[k])) ==> Order(a, a + [c] + x) < 0
  {
    SeparatorSplits(a, c, x);
    SeparatorSplits(a, c, y);
    CompareAfter(Segments(a), Segments(x), Segments(y));
    HasSegments(x);
    CompareAfter(Segments(a), [], Segments(x));
    assert Segments(a) + [] == Segments(a);
  }

  /** The same where a digit run meets a letter run without a separator. */
  lemma RestDecidesAtRun(a: string, x: string, y: string, numeric: bool)
    requires a != [] && x != [] && y != [] && SameClass(a[|a| - 1], numeric)
    requires !SameClass(x[0], numeric) && !SameClass(y[0], numeric)
    ensures Order(a + x, a + y) == Order(x, y)
  {
    RunsPart(a, x, numeric);
    RunsPart(a, y, numeric);
    CompareAfter(Segments(a), Segments(x), Segments(y));
  }

  // ---------- digit runs as numbers ----------

  /** `strings.TrimLeft(s, "0")`. */
  function TrimZeros(s: string): string {
    if s != [] && s[0] == '0' then TrimZeros(s[1..]) else s
  }

  ghost predicate AllDigits(s: string) {
    forall k :: 0 <= k < |s| ==> IsDigit(s[k])
  }

  function Pow10(n: nat): nat {
    if n == 0 then 1 else 10 * Pow10(n - 1)
  }

  lemma {:induction false} LeadingZero(s: string)
    requires s != [] && s[0] == '0'
    ensures NumberValue(s) == NumberValue(s[1..])
  {
    if |s| > 1 {
      assert s[1..][..|s| - 2] == s[..|s| - 1][1..];
      LeadingZero(s[..|s| - 1]);
    } else {
      assert s[..0] == [] && s[1..] == [];
    }
  }

  lemma {:induction false} TrimZerosKeepsValue(s: string)
    requires AllDigits(s)
    ensures var t := TrimZeros(s);
      NumberValue(t) == NumberValue(s) && AllDigits(t) && (t == [] || t[0] != '0')
  {
    if s != [] && s[0] == '0' {
      LeadingZero(s);
      TrimZerosKeepsValue(s[1..]);
    }
  }

  lemma {:induction false} NumberBounds(s: string)
    requires AllDigits(s)
    ensures NumberValue(s) < Pow10(|s|)
    ensures s != [] && s[0] != '0' ==> NumberValue(s) >= Pow10(|s| - 1)
  {
    if |s| > 1 {
      NumberBounds(s[..|s| - 1]);
    } else if |s| == 1 {
      assert NumberValue(s) == NumberValue(s[..0]) * 10 + (s[0] as int - '0' as int);
    }
  }

  lemma {:induction false} Pow10Grows(m: nat, n: nat)
    requires m <= n
    ensures Pow10(m) <= Pow10(n)
  {
    if m < n { Pow10Grows(m, n - 1); }
  }

  lemma {:induction false} EqualLengthDigits(s: string, t: string)
    requires AllDigits(s) && AllDigits(t) && |s| == |t|
    ensures Less(s, t) <==> NumberValue(s) < NumberValue(t)
    ensures s == t <==> NumberValue(s) == NumberValue(t)
  {
    if s != [] {
      var n := |s| - 1;
      EqualLengthDigits(s[..n], t[..n]);
      LessAppend(s[..n], t[..n], s[n], t[n]);
      assert s == s[..n] + [s[n]] && t == t[..n] + [t[n]];
    }
  }

  lemma ShorterIsSmaller(x: string, y: string)
    requires AllDigits(x) && AllDigits(y) && |x| < |y| && y[0] != '0'
    ensures NumberValue(x) < NumberValue(y)
  {
    NumberBounds(x);
    NumberBounds(y);
    Pow10Grows(|x|, |y| - 1);
  }

  /** Stripped of leading zeros, a longer digit run is a larger number, and among runs of one
      length byte order is numeric order. */
  lemma StrippedDigitsCompare(x: string, y: string)
    requires AllDigits(x) && AllDigits(y)
    requires (x == [] || x[0] != '0') && (y == [] || y[0] != '0')
    ensures NumberValue(x) < NumberValue(y) <==> |x| < |y| || (|x| == |y| && Less(x, y))
    ensures NumberValue(x) == NumberValue(y) <==> x == y
  {
    if |x| < |y| {
      ShorterIsSmaller(x, y);
    } else if |x| > |y| {
      ShorterIsSmaller(y, x);
    } else {
      EqualLengthDigits(x, y);
    }
  }

  // ---------- the scanner ----------

  method SkipSeparators(s: string, start: nat) returns (i: nat)
    requires start <= |s|
    ensures start <= i <= |s| && (i < |s| ==> IsAlphaNum(s[i]))
    ensures Segments(s[i..]) == Segments(s[start..])
  {
    i := start;
    while i < |s| && !IsAlphaNum(s[i])
      invariant start <= i <= |s|
      invariant Segments(s[i..]) == Segments(s[start..])
    {
      assert s[i..][1..] == s[i + 1..];
      i := i + 1;
    }
  }

  method EndOfRun(s: string, start: nat, numeric: bool) returns (i: nat)
    requires start <= |s|
    ensures i == start + RunLength(s[start..], numeric)
  {
    i := start;
    while i < |s| && SameClass(s[i], numeric)
      invariant start <= i <= |s|
      invariant i + RunLength(s[i..], numeric) == start + RunLength(s[start..], numeric)
    {
      assert s[i..][1..] == s[i + 1..];
      i := i + 1;
    }
  }

  /** Two runs of one class, numbers by length after their leading zeros and then byte by byte. */
  method CompareRuns(a: string, b: string, numeric: bool) returns (r: int)
    requires numeric ==> AllDigits(a) && AllDigits(b)
    ensures r == CompareSegment(SegmentOf(a, numeric), SegmentOf(b, numeric))
  {
    var segA, segB := a, b;
    if numeric {
      segA, segB := TrimZeros(a), TrimZeros(b);
      TrimZerosKeepsValue(a);
      TrimZerosKeepsValue(b);
      StrippedDigitsCompare(segA, segB);
      StrippedDigitsCompare(segB, segA);
      if |segA| != |segB| {
        return if |segA| > |segB| then 1 else -1;
      }
    }
    LessTrichotomy(segA, segB);
    if segA != segB {
      return if Less(segB, segA) then 1 else -1;
    }
    return 0;
  }

  method HasAlphaNum(s: string) returns (has: bool)
    ensures has <==> Segments(s) != []
  {
    var i := 0;
    while i < |s|
      invariant 0 <= i <= |s|
      invariant Segments(s) == Segments(s[i..])
    {
      if IsAlphaNum(s[i]) {
        return true;
      }
      assert s[i..][1..] == s[i + 1..];
      i := i + 1;
    }
    return false;
  }

  /** The two-index scanner computes the order on segment lists. */
  method CompareVersions(a: string, b: string) returns (r: int)
    ensures r == Order(a, b)
  {
    if a == b {
      CompareAntisymmetric(Segments(a), Segments(b));
      return 0;
    }
    var i: nat, j: nat := 0, 0;
    assert a[0..] == a && b[0..] == b;
    while i < |a| && j < |b|
      invariant i <= |a| && j <= |b|
      invariant Order(a, b) == Order(a[i..], b[j..])
    {
      i := SkipSeparators(a, i);
      j := SkipSeparators(b, j);
      if i >= |a| || j >= |b| {
        break;
      }
      var numeric := IsDigit(a[i]);
      var startA, startB := i, j;
      i := EndOfRun(a, i, numeric);
      j := EndOfRun(b, j, numeric);
      var segA, segB := a[startA..i], b[startB..j];
      FirstSegment(a, startA, i, numeric);
      if segB == "" {
        return if numeric then 1 else -1;
      }
      FirstSegment(b, startB, j, numeric);
      r := CompareRuns(segA, segB, numeric);
      if r != 0 {
        return r;
      }
    }
    var remainingA := HasAlphaNum(a[i..]);
    var remainingB := HasAlphaNum(b[j..]);
    return if remainingA && !remainingB then 1 else if !remainingA && remainingB then -1 else 0;
  }

  lemma FirstSegment(s: string, start: nat, end: nat, numeric: bool)
    requires start < |s| && SameClass(s[start], numeric)
    requires end == start + RunLength(s[start..], numeric)
    ensures start < end <= |s| && (numeric ==> AllDigits(s[start..end]))
    ensures Segments(s[start..]) == [SegmentOf(s[start..end], numeric)] + Segments(s[end..])
  {
    var n := RunLength(s[start..], numeric);
    assert s[start..][..n] == s[start..end] && s[start..][n..] == s[end..];
  }

  // ---------- newest version and the reboot decision ----------

  method NewestVersion(versions: seq<string>) returns (newest: string)
    ensures versions == [] ==> newest == ""
    ensures versions != [] ==> newest in versions
    ensures forall v :: v in versions ==> Order(v, newest) <= 0
  {
    newest := "";
    var n := 0;
    while n < |versions|
      invariant 0 <= n <= |versions|
      invariant n == 0 ==> newest == ""
      invariant n > 0 ==> newest in versions[..n]
      invariant forall v :: v in versions[..n] ==> Order(v, newest) <= 0
    {
      var v := versions[n];
      var c := CompareVersions(v, newest);
      OrderIsTotalPreorder(v, newest, v);
      if newest == "" || c > 0 {
        forall u | u in versions[..n] ensures Order(u, v) <= 0 {
          OrderIsTotalPreorder(u, newest, v);
        }
        newest := v;
      }
      OrderIsTotalPreorder(newest, newest, newest);
      assert versions[..n + 1] == versions[..n] + [v];
      n := n + 1;
    }
  }

  /** A reboot is needed exactly when the running kernel is known and some installed one is
      newer. */
  method KernelRebootNeeded(running: string, installed: seq<string>) returns (needed: bool)
    ensures needed <==> running != "" && exists v :: v in installed && Order(v, running) > 0
  {
    if running == "" || |installed| == 0 {
      return false;
    }
    var newest := NewestVersion(installed);
    var c := CompareVersions(newest, running);
    forall v | v in installed ensures Order(v, running) > 0 ==> c > 0 {
      OrderIsTotalPreorder(v, newest, running);
    }
    return newest != "" && c > 0;
  }

  /** Running 9 with 10 installed needs a reboot, and the other way round does not. */
  method TenAfterNine() returns (older: bool, newer: bool)
    ensures older && !newer
  {
    assert NumberValue("9") == 9 && NumberValue("10") == 10 by {
      assert "9"[..0] == [] && "10"[..1] == "1" && "1"[..0] == [];
    }
    NumbersGoByValue("9", "10");
    OrderIsTotalPreorder("9", "10", "9");
    assert "10" in ["10"] && "9" in ["9"];
    older := KernelRebootNeeded("9", ["10"]);
    newer := KernelRebootNeeded("10", ["9"]);
  }
}
