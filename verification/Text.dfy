/** Optional values, used where the program has a nil pointer or a second "ok" result. */
module Options {
  datatype Option<+T> = None | Some(value: T)
}

/** `sort.Slice` and `sort.Strings`: sorting by a strict weak order. */
module Sorting {
  ghost predicate WeakOrder<T(!new)>(less: (T, T) -> bool) {
    && (forall a, b :: less(a, b) ==> !less(b, a))
    && (forall a, b, c :: !less(b, a) && !less(c, b) ==> !less(c, a))
  }

  ghost predicate AscendingBy<T(!new)>(less: (T, T) -> bool, xs: seq<T>) {
    forall i, j :: 0 <= i < j < |xs| ==> !less(xs[j], xs[i])
  }

  function InsertBy<T(!new)>(less: (T, T) -> bool, x: T, xs: seq<T>): (ys: seq<T>)
    requires WeakOrder(less) && AscendingBy(less, xs)
    ensures AscendingBy(less, ys)
    ensures multiset(ys) == multiset(xs) + multiset{x}
  {
    if xs == [] || less(x, xs[0]) then
      InsertFirst(less, x, xs);
      [x] + xs
    else
      var rest := InsertBy(less, x, xs[1..]);
      InsertLater(less, x, xs, rest);
      [xs[0]] + rest
  }

  lemma InsertFirst<T(!new)>(less: (T, T) -> bool, x: T, xs: seq<T>)
    requires WeakOrder(less) && AscendingBy(less, xs) && (xs == [] || less(x, xs[0]))
    ensures AscendingBy(less, [x] + xs)
  {
    forall j | 0 <= j < |xs| ensures !less(xs[j], x) {
      assert !less(xs[0], x) && (j == 0 || !less(xs[j], xs[0]));
    }
  }

  lemma InsertLater<T(!new)>(less: (T, T) -> bool, x: T, xs: seq<T>, rest: seq<T>)
    requires WeakOrder(less) && AscendingBy(less, xs) && xs != [] && !less(x, xs[0])
    requires AscendingBy(less, rest) && multiset(rest) == multiset(xs[1..]) + multiset{x}
    ensures AscendingBy(less, [xs[0]] + rest)
    ensures multiset([xs[0]] + rest) == multiset(xs) + multiset{x}
  {
    assert xs == [xs[0]] + xs[1..];
    forall j | 0 <= j < |rest| ensures !less(rest[j], xs[0]) {
      assert rest[j] in multiset(rest);
      assert rest[j] == x || rest[j] in xs[1..];
    }
  }

  function SortBy<T(!new)>(less: (T, T) -> bool, xs: seq<T>): (ys: seq<T>)
    requires WeakOrder(less)
    ensures AscendingBy(less, ys)
    ensures multiset(ys) == multiset(xs)
  {
    if xs == [] then []
    else
      assert xs == [xs[0]] + xs[1..];
      InsertBy(less, xs[0], SortBy(less, xs[1..]))
  }

  lemma SameElements<T>(xs: seq<T>, ys: seq<T>)
    requires multiset(xs) == multiset(ys)
    ensures forall x :: x in xs <==> x in ys
    ensures |xs| == |ys|
  {
    assert |multiset(xs)| == |multiset(ys)|;
    forall x ensures x in xs <==> x in ys {
      assert x in multiset(xs) <==> x in multiset(ys);
    }
  }
}

/** The string operations the program takes from its standard library, over ASCII text:
    byte order, trimming, case folding, substring search and sorting. */
module Text {
  import opened Sorting

  /** A byte is a character below 256, so that strings and byte keys share one order. */
  type Byte = c: char | c as int < 256

  // ---------- byte order ----------

  /** `a < b` as the program compares strings and bucket keys: byte by byte, a proper prefix first. */
  predicate Less(a: string, b: string) {
    b != [] && (a == [] || a[0] < b[0] || (a[0] == b[0] && Less(a[1..], b[1..])))
  }

  lemma {:induction false} LessTransitive(a: string, b: string, c: string)
    requires Less(a, b) && Less(b, c)
    ensures Less(a, c)
  {
    if a != [] && a[0] == b[0] == c[0] {
      LessTransitive(a[1..], b[1..], c[1..]);
    }
  }

  /** Exactly one of `a < b`, `a == b`, `b < a` holds. */
  lemma {:induction false} LessTrichotomy(a: string, b: string)
    ensures Less(a, b) || Less(b, a) || a == b
    ensures !(Less(a, b) && Less(b, a))
    ensures a == b ==> !Less(a, b)
  {
    if a != [] && b != [] && a[0] == b[0] {
      LessTrichotomy(a[1..], b[1..]);
      assert a == [a[0]] + a[1..] && b == [b[0]] + b[1..];
    }
  }

  /** Among strings of one length, the last character decides only a tie. */
  lemma {:induction false} LessAppend(a: string, b: string, x: char, y: char)
    requires |a| == |b|
    ensures Less(a + [x], b + [y]) <==> Less(a, b) || (a == b && x < y)
  {
    if a != [] {
      assert (a + [x])[1..] == a[1..] + [x] && (b + [y])[1..] == b[1..] + [y];
      LessAppend(a[1..], b[1..], x, y);
      assert a == [a[0]] + a[1..] && b == [b[0]] + b[1..];
    } else {
      assert a + [x] == [x] && b + [y] == [y];
    }
  }

  /** `k` is where two strings part: one ends there and the other goes on, or they differ. */
  ghost predicate PartsAt(a: string, b: string, k: nat) {
    && k <= |a| && k < |b| && a[..k] == b[..k]
    && (k == |a| || a[k] < b[k])
  }

  lemma {:induction false} PartsLess(a: string, b: string, k: nat)
    requires PartsAt(a, b, k)
    ensures Less(a, b)
  {
    if k > 0 {
      assert a[..k][0] == b[..k][0];
      assert a[1..][..k - 1] == a[..k][1..] && b[1..][..k - 1] == b[..k][1..];
      PartsLess(a[1..], b[1..], k - 1);
    }
  }

  lemma {:induction false} LessParts(a: string, b: string) returns (k: nat)
    requires Less(a, b)
    ensures PartsAt(a, b, k)
  {
    k := 0;
    if a != [] && a[0] == b[0] {
      var n: nat := LessParts(a[1..], b[1..]);
      k := n + 1;
      assert a[..k] == [a[0]] + a[1..][..n] && b[..k] == [b[0]] + b[1..][..n];
    }
  }

  /** `a < b` exactly when, after what they share, `a` is over or goes on with a smaller character. */
  lemma LessExact(a: string, b: string)
    ensures Less(a, b) <==> exists k: nat :: PartsAt(a, b, k)
  {
    if Less(a, b) {
      var k: nat := LessParts(a, b);
    }
    forall k: nat | PartsAt(a, b, k) ensures Less(a, b) {
      PartsLess(a, b, k);
    }
  }

  // ---------- sorting ----------

  ghost predicate StrictlyAscending(xs: seq<string>) {
    forall i, j :: 0 <= i < j < |xs| ==> Less(xs[i], xs[j])
  }

  ghost function Elements<T>(xs: seq<T>): set<T> {
    set x | x in xs
  }

  lemma LessWeakOrder()
    ensures WeakOrder(Less)
  {
    forall a, b ensures Less(a, b) ==> !Less(b, a) {
      LessTrichotomy(a, b);
    }
    forall a, b, c | !Less(b, a) && !Less(c, b) ensures !Less(c, a) {
      LessTrichotomy(a, b);
      LessTrichotomy(b, c);
      LessTrichotomy(a, c);
      if Less(a, b) && Less(b, c) {
        LessTransitive(a, b, c);
      }
    }
  }

  /** `sort.Strings`. */
  function Sort(xs: seq<string>): (ys: seq<string>)
    ensures AscendingBy(Less, ys)
    ensures multiset(ys) == multiset(xs)
  {
    LessWeakOrder();
    SortBy(Less, xs)
  }

  lemma SortKeepsElements(xs: seq<string>)
    ensures Elements(Sort(xs)) == Elements(xs)
    ensures |Sort(xs)| == |xs|
  {
    SameElements(Sort(xs), xs);
  }

  ghost predicate Distinct<T>(xs: seq<T>) {
    forall i, j :: 0 <= i < j < |xs| ==> xs[i] != xs[j]
  }

  lemma DistinctCounts<T>(xs: seq<T>)
    ensures Distinct(xs) <==> forall x :: multiset(xs)[x] <= 1
  {
    if Distinct(xs) {
      if xs != [] {
        var init, last := xs[..|xs| - 1], xs[|xs| - 1];
        assert xs == init + [last];
        DistinctCounts(init);
        assert last !in init;
      }
    } else {
      var i, j :| 0 <= i < j < |xs| && xs[i] == xs[j];
      assert xs == xs[..j] + [xs[j]] + xs[j + 1..];
      assert xs[..j][i] == xs[j];
      assert multiset(xs[..j])[xs[j]] >= 1;
      assert multiset(xs)[xs[j]] >= 2;
    }
  }

  /** Sorting a list without repeats gives a strictly ascending one. */
  lemma SortDistinct(xs: seq<string>)
    requires Distinct(xs)
    ensures StrictlyAscending(Sort(xs))
  {
    var ys := Sort(xs);
    DistinctCounts(xs);
    DistinctCounts(ys);
    forall i, j | 0 <= i < j < |ys| ensures Less(ys[i], ys[j]) {
      LessTrichotomy(ys[i], ys[j]);
    }
  }

  /** A strictly ascending list is determined by its elements. */
  lemma {:induction false} AscendingUnique(xs: seq<string>, ys: seq<string>)
    requires StrictlyAscending(xs) && StrictlyAscending(ys)
    requires Elements(xs) == Elements(ys)
    ensures xs == ys
  {
    assert xs != [] ==> xs[0] in Elements(xs);
    assert ys != [] ==> ys[0] in Elements(ys);
    if xs != [] {
      var i :| 0 <= i < |ys| && ys[i] == xs[0];
      var j :| 0 <= j < |xs| && xs[j] == ys[0];
      LessTrichotomy(xs[0], ys[0]);
      assert i == 0;
      forall x ensures x in Elements(xs[1..]) <==> x in Elements(ys[1..]) {
        TailElements(xs, x);
        TailElements(ys, x);
        assert x in Elements(xs) <==> x in Elements(ys);
      }
      AscendingUnique(xs[1..], ys[1..]);
      assert xs == [xs[0]] + xs[1..] && ys == [ys[0]] + ys[1..];
    }
  }

  lemma TailElements(xs: seq<string>, x: string)
    requires xs != [] && StrictlyAscending(xs)
    ensures x in xs[1..] <==> x in xs && x != xs[0]
  {
    LessTrichotomy(xs[0], xs[0]);
    assert xs == [xs[0]] + xs[1..];
  }

  // ---------- case folding and trimming ----------

  function LowerChar(c: char): char {
    if 'A' <= c <= 'Z' then (c as int + 32) as char else c
  }

  /** `strings.ToLower` on ASCII text. */
  function Lower(s: string): string {
    seq(|s|, i requires 0 <= i < |s| => LowerChar(s[i]))
  }

  /** `strings.EqualFold` on ASCII text. */
  predicate EqualFold(a: string, b: string) {
    Lower(a) == Lower(b)
  }

  predicate IsSpace(c: char) {
    c == ' ' || c == '\t' || c == '\n' || c == '\r' || c as int == 11 || c as int == 12
  }

  function TrimLeft(s: string): string {
    if s != [] && IsSpace(s[0]) then TrimLeft(s[1..]) else s
  }

  function TrimRight(s: string): string {
    if s != [] && IsSpace(s[|s| - 1]) then TrimRight(s[..|s| - 1]) else s
  }

  /** `strings.TrimSpace` on ASCII text. */
  function Trim(s: string): string {
    TrimRight(TrimLeft(s))
  }

  predicate Trimmed(s: string) {
    s == [] || (!IsSpace(s[0]) && !IsSpace(s[|s| - 1]))
  }

  lemma {:induction false} TrimLeftStart(s: string)
    ensures var t := TrimLeft(s); t == [] || !IsSpace(t[0])
  {
    if s != [] && IsSpace(s[0]) { TrimLeftStart(s[1..]); }
  }

  lemma {:induction false} TrimRightEnds(s: string)
    ensures var t := TrimRight(s); (t == [] || !IsSpace(t[|t| - 1])) && t <= s
  {
    if s != [] && IsSpace(s[|s| - 1]) { TrimRightEnds(s[..|s| - 1]); }
  }

  /** Trimming leaves a string with no space at either end, and such a string is left alone. */
  lemma TrimTrims(s: string)
    ensures Trimmed(Trim(s))
    ensures Trimmed(s) ==> Trim(s) == s
  {
    TrimLeftStart(s);
    TrimRightEnds(TrimLeft(s));
  }

  /** One character is the other, in whatever case. */
  predicate SameLetter(c: char, d: char) {
    || c == d
    || ('A' <= c <= 'Z' && d as int == c as int + 32)
    || ('A' <= d <= 'Z' && c as int == d as int + 32)
  }

  predicate SameLetters(a: string, b: string) {
    |a| == |b| && forall i :: 0 <= i < |a| ==> SameLetter(a[i], b[i])
  }

  /** Folding leaves no capital, changes nothing but capitals, and makes two strings one exactly when
      they have the same letters. */
  lemma LowerExact(a: string, b: string)
    ensures |Lower(a)| == |a| && SameLetters(a, Lower(a))
    ensures forall i :: 0 <= i < |a| ==> !('A' <= Lower(a)[i] <= 'Z')
    ensures Lower(a) == Lower(b) <==> SameLetters(a, b)
  {
    if Lower(a) == Lower(b) {
      forall i | 0 <= i < |a| ensures SameLetter(a[i], b[i]) {
        assert Lower(a)[i] == Lower(b)[i];
      }
    }
  }

  /** `t` is what is left of `s` from `i` to `j`: around it lies nothing but white space, and it has
      none at either end. */
  ghost predicate Strips(s: string, t: string, i: nat, j: nat) {
    && i <= j <= |s| && t == s[i..j]
    && (forall k :: 0 <= k < i || j <= k < |s| ==> s[k] in WHITE_SPACE)
    && (t != [] ==> t[0] !in WHITE_SPACE && t[|t| - 1] !in WHITE_SPACE)
  }

  const WHITE_SPACE: set<char> := {' ', '\t', '\n', '\r', 11 as char, 12 as char}

  lemma {:induction false} TrimLeftStrips(s: string) returns (i: nat)
    ensures i <= |s| && TrimLeft(s) == s[i..] && forall k :: 0 <= k < i ==> s[k] in WHITE_SPACE
  {
    i := 0;
    if s != [] && IsSpace(s[0]) {
      var n: nat := TrimLeftStrips(s[1..]);
      i := n + 1;
      forall k | 0 <= k < i ensures s[k] in WHITE_SPACE {
        assert k > 0 ==> s[k] == s[1..][k - 1];
      }
    }
  }

  lemma {:induction false} TrimRightStrips(s: string) returns (j: nat)
    ensures j <= |s| && TrimRight(s) == s[..j] && forall k :: j <= k < |s| ==> s[k] in WHITE_SPACE
  {
    j := |s|;
    if s != [] && IsSpace(s[|s| - 1]) {
      j := TrimRightStrips(s[..|s| - 1]);
      assert s[..|s| - 1][..j] == s[..j];
    }
  }

  /** Trimming takes the white space off both ends and nothing else. */
  lemma TrimExact(s: string)
    ensures exists i: nat, j: nat :: Strips(s, Trim(s), i, j)
  {
    TrimTrims(s);
    var i: nat := TrimLeftStrips(s);
    var j: nat := TrimRightStrips(s[i..]);
    assert s[i..][..j] == s[i..i + j];
    forall k | i + j <= k < |s| ensures s[k] in WHITE_SPACE {
      assert s[k] == s[i..][k - i];
    }
    assert Strips(s, Trim(s), i, i + j);
  }

  lemma LowerIdempotent(s: string)
    ensures Lower(Lower(s)) == Lower(s)
  {}

  lemma {:induction false} LowerTrimLeft(s: string)
    ensures Lower(TrimLeft(s)) == TrimLeft(Lower(s))
  {
    if s != [] && IsSpace(s[0]) {
      LowerTrimLeft(s[1..]);
      assert Lower(s)[1..] == Lower(s[1..]);
    }
  }

  lemma {:induction false} LowerTrimRight(s: string)
    ensures Lower(TrimRight(s)) == TrimRight(Lower(s))
  {
    if s != [] && IsSpace(s[|s| - 1]) {
      LowerTrimRight(s[..|s| - 1]);
      assert Lower(s)[..|s| - 1] == Lower(s[..|s| - 1]);
    }
  }

  /** Folding and trimming commute, so it does not matter which a name meets first. */
  lemma LowerTrim(s: string)
    ensures Lower(Trim(s)) == Trim(Lower(s))
  {
    LowerTrimLeft(s);
    LowerTrimRight(TrimLeft(s));
  }

  // ---------- substrings ----------

  /** `strings.Contains`. */
  predicate Contains(s: string, sub: string) {
    sub <= s || (s != [] && Contains(s[1..], sub))
  }

  ghost predicate OccursAt(s: string, sub: string, i: nat) {
    i + |sub| <= |s| && s[i..i + |sub|] == sub
  }

  lemma {:induction false} OccursContains(s: string, sub: string, i: nat)
    requires OccursAt(s, sub, i)
    ensures Contains(s, sub)
  {
    if i > 0 {
      assert s[1..][i - 1..i - 1 + |sub|] == s[i..i + |sub|];
      OccursContains(s[1..], sub, i - 1);
    }
  }

  lemma {:induction false} ContainsOccurs(s: string, sub: string) returns (i: nat)
    requires Contains(s, sub)
    ensures OccursAt(s, sub, i)
  {
    i := 0;
    if !(sub <= s) {
      var n: nat := ContainsOccurs(s[1..], sub);
      i := n + 1;
      assert s[1..][n..n + |sub|] == s[i..i + |sub|];
    }
  }

  /** A string contains another exactly when it occurs somewhere in it. */
  lemma ContainsExact(s: string, sub: string)
    ensures Contains(s, sub) <==> exists i: nat :: OccursAt(s, sub, i)
  {
    if Contains(s, sub) {
      var i: nat := ContainsOccurs(s, sub);
    }
    forall i: nat | OccursAt(s, sub, i) ensures Contains(s, sub) {
      OccursContains(s, sub, i);
    }
  }

  // ---------- numbers ----------

  /** `%d`. */
  function Decimal(n: int): string {
    if n < 0 then "-" + Digits(-n) else Digits(n)
  }

  function Digits(n: nat): string {
    (if n < 10 then [] else Digits(n / 10)) + [('0' as int + n % 10) as char]
  }
}
