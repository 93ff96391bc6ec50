/** The parts of Python's `str` and sequence semantics the modelled code
    relies on: `isspace`/`strip`, slicing and `rfind` with Python's index
    normalisation, `in`, `split`/`join`, ASCII case mapping, decimal
    rendering of integers, and the code-point order `sorted` uses. */
module PyStrings {

  // ---------------------------------------------------------------------
  // Whitespace and strip()

  /** `str.isspace()` for one character; `\s` in a `re` pattern on `str`
      matches the same characters. */
  predicate IsSpace(c: char) {
    c in SpaceChars
  }

  const SpaceChars: set<char> := {
    '\U{9}', '\U{A}', '\U{B}', '\U{C}', '\U{D}',
    '\U{1C}', '\U{1D}', '\U{1E}', '\U{1F}', '\U{20}',
    '\U{85}', '\U{A0}', '\U{1680}',
    '\U{2000}', '\U{2001}', '\U{2002}', '\U{2003}', '\U{2004}', '\U{2005}',
    '\U{2006}', '\U{2007}', '\U{2008}', '\U{2009}', '\U{200A}',
    '\U{2028}', '\U{2029}', '\U{202F}', '\U{205F}', '\U{3000}'
  }

  predicate AllSpace(s: string) {
    forall i :: 0 <= i < |s| ==> IsSpace(s[i])
  }

  /** No leading and no trailing whitespace: what `strip()` guarantees. */
  predicate Stripped(s: string) {
    s == [] || (!IsSpace(s[0]) && !IsSpace(s[|s| - 1]))
  }

  /** A stretch `[lo, hi)` of a string. */
  datatype Span = Span(lo: nat, hi: nat)

  /** The first index in `[i, hi)` that is not whitespace, or `hi`. */
  function SkipSpace(s: string, i: nat, hi: nat): (k: nat)
    requires i <= hi <= |s|
    ensures i <= k <= hi
    ensures forall j :: i <= j < k ==> IsSpace(s[j])
    ensures k < hi ==> !IsSpace(s[k])
    decreases hi - i
  {
    if i == hi || !IsSpace(s[i]) then i else SkipSpace(s, i + 1, hi)
  }

  /** The end of `[lo, j)` once its trailing whitespace is dropped. */
  function SkipSpaceBack(s: string, lo: nat, j: nat): (k: nat)
    requires lo <= j <= |s|
    ensures lo <= k <= j
    ensures forall m :: k <= m < j ==> IsSpace(s[m])
    ensures lo < k ==> !IsSpace(s[k - 1])
    decreases j - lo
  {
    if j == lo || !IsSpace(s[j - 1]) then j else SkipSpaceBack(s, lo, j - 1)
  }

  /** The part of `s[a..b]` that `strip()` keeps, as a span of `s`: all
      that is cut on either side is whitespace, and what is kept starts and
      ends with a visible character. */
  function StripSpan(s: string, a: nat, b: nat): (sp: Span)
    requires a <= b <= |s|
    ensures a <= sp.lo <= sp.hi <= b
    ensures sp.lo < sp.hi ==> !IsSpace(s[sp.lo]) && !IsSpace(s[sp.hi - 1])
  {
    var lo := SkipSpace(s, a, b);
    Span(lo, SkipSpaceBack(s, lo, b))
  }

  /** All that `strip()` cuts from `s[a..b]` is whitespace; when it keeps
      nothing, the whole stretch was whitespace. */
  lemma StripSpanCuts(s: string, a: nat, b: nat)
    requires a <= b <= |s|
    ensures var sp := StripSpan(s, a, b);
            && (forall j :: a <= j < sp.lo ==> IsSpace(s[j]))
            && (forall j :: sp.hi <= j < b ==> IsSpace(s[j]))
            && (sp.lo == sp.hi ==> forall j :: a <= j < b ==> IsSpace(s[j]))
  {
  }

  /** `str.strip()`. */
  function Strip(s: string): (r: string)
    ensures Stripped(r)
    ensures r == s[StripSpan(s, 0, |s|).lo..StripSpan(s, 0, |s|).hi]
  {
    var sp := StripSpan(s, 0, |s|);
    s[sp.lo..sp.hi]
  }

  /** Skipping whitespace in a slice is skipping it in the whole string,
      shifted by the slice's start. */
  lemma {:induction false} SkipSpaceShift(s: string, a: nat, b: nat, i: nat, hi: nat)
    requires a <= b <= |s| && i <= hi <= b - a
    ensures SkipSpace(s[a..b], i, hi) + a == SkipSpace(s, i + a, hi + a)
    decreases hi - i
  {
    if i < hi {
      assert s[a..b][i] == s[a + i];
      SkipSpaceShift(s, a, b, i + 1, hi);
    }
  }

  lemma {:induction false} SkipSpaceBackShift(s: string, a: nat, b: nat, lo: nat, j: nat)
    requires a <= b <= |s| && lo <= j <= b - a
    ensures SkipSpaceBack(s[a..b], lo, j) + a == SkipSpaceBack(s, lo + a, j + a)
    decreases j - lo
  {
    if lo < j {
      assert s[a..b][j - 1] == s[a + j - 1];
      SkipSpaceBackShift(s, a, b, lo, j - 1);
    }
  }

  lemma SliceOfSlice<T>(s: seq<T>, a: nat, b: nat, i: nat, j: nat)
    requires a <= b <= |s| && i <= j <= b - a
    ensures s[a..b][i..j] == s[a + i..a + j]
  {
    forall k | 0 <= k < j - i
      ensures s[a..b][i..j][k] == s[a + i + k]
    {
      assert s[a..b][i..j][k] == s[a..b][i + k];
    }
  }

  /** The stripped span of a slice is the stripped span of the same
      stretch of the whole string, shifted. */
  lemma StripSpanShift(s: string, a: nat, b: nat)
    requires a <= b <= |s|
    ensures StripSpan(s[a..b], 0, b - a).lo + a == StripSpan(s, a, b).lo
    ensures StripSpan(s[a..b], 0, b - a).hi + a == StripSpan(s, a, b).hi
  {
    var u := s[a..b];
    SkipSpaceShift(s, a, b, 0, b - a);
    SkipSpaceBackShift(s, a, b, SkipSpace(u, 0, |u|), b - a);
  }

  /** Stripping a slice is taking the stripped span of the whole string. */
  lemma StripOfSlice(s: string, a: nat, b: nat)
    requires a <= b <= |s|
    ensures Strip(s[a..b]) == s[StripSpan(s, a, b).lo..StripSpan(s, a, b).hi]
  {
    var u := s[a..b];
    var su := StripSpan(u, 0, |u|);
    var ss := StripSpan(s, a, b);
    assert Strip(u) == u[su.lo..su.hi];
    assert u[su.lo..su.hi] == s[ss.lo..ss.hi] by {
      StripSpanShift(s, a, b);
      SliceOfSlice(s, a, b, su.lo, su.hi);
    }
  }

  /** Every non-whitespace character survives `strip()`, at its place. */
  lemma StripKeeps(s: string, a: nat, b: nat, p: int)
    requires a <= b <= |s|
    requires a <= p < b && !IsSpace(s[p])
    ensures StripSpan(s, a, b).lo <= p < StripSpan(s, a, b).hi
  {
    StripSpanCuts(s, a, b);
  }

  lemma StrippedStrip(s: string)
    requires Stripped(s)
    ensures Strip(s) == s
  {
  }

  lemma StripEmptyIff(s: string)
    ensures Strip(s) == [] <==> AllSpace(s)
  {
    StripSpanCuts(s, 0, |s|);
  }

  // ---------------------------------------------------------------------
  // Slicing and rfind with Python's index normalisation

  /** A slice bound as Python reads it against a sequence of length `n`:
      negative bounds count from the end, and both ends are clamped. */
  function SliceIndex(i: int, n: nat): (r: nat)
    ensures r <= n
    ensures 0 <= i <= n ==> r == i
    ensures i < 0 ==> r == if i + n < 0 then 0 else i + n
    ensures i > n ==> r == n
  {
    if i < 0 then (if i + n < 0 then 0 else i + n) else if i > n then n else i
  }

  /** `s[a:b]`. */
  function Slice<T>(s: seq<T>, a: int, b: int): (r: seq<T>)
    ensures a <= b ==> |r| <= b - a
    ensures 0 <= a <= b <= |s| ==> r == s[a..b]
    ensures 0 <= a <= |s| <= b ==> r == s[a..]
  {
    var lo := SliceIndex(a, |s|);
    var hi := SliceIndex(b, |s|);
    if lo < hi then s[lo..hi] else []
  }

  predicate OccursAt(s: string, sub: string, i: int) {
    0 <= i && i + |sub| <= |s| && s[i..i + |sub|] == sub
  }

  /** The last occurrence of `sub` starting in `[lo, i]`, or -1. */
  function RFindDown(s: string, sub: string, lo: nat, i: int): (r: int)
    requires i + |sub| <= |s|
    ensures r == -1 || (lo <= r <= i && OccursAt(s, sub, r))
    ensures forall k :: r < k <= i && lo <= k ==> !OccursAt(s, sub, k)
    decreases i + 1 - lo
  {
    if i < lo then -1
    else if s[i..i + |sub|] == sub then i
    else RFindDown(s, sub, lo, i - 1)
  }

  /** Where `str.rfind` starts looking: a negative start counts from the
      end and is clamped at 0; a start past the end is left as is. */
  function FindStart(start: int, n: nat): nat {
    if start < 0 then (if start + n < 0 then 0 else start + n) else start
  }

  /** `s.rfind(sub, start, end)`: the highest index at which `sub` lies
      wholly inside `s[start:end]`, or -1 when there is none. */
  function RFind(s: string, sub: string, start: int, end: int): (r: int)
    ensures r == -1 || OccursAt(s, sub, r)
    ensures r != -1 ==> FindStart(start, |s|) <= r && r + |sub| <= SliceIndex(end, |s|)
    ensures forall k :: r < k && FindStart(start, |s|) <= k && k + |sub| <= SliceIndex(end, |s|)
                        ==> !OccursAt(s, sub, k)
  {
    var lo := FindStart(start, |s|);
    var hi := SliceIndex(end, |s|);
    if hi - lo < |sub| then -1 else RFindDown(s, sub, lo, hi - |sub|)
  }

  /** `sub in s`. */
  predicate Contains(s: string, sub: string)
    ensures Contains(s, sub) <==> exists i :: OccursAt(s, sub, i)
  {
    RFind(s, sub, 0, |s|) != -1
  }

  // ---------------------------------------------------------------------
  // Case mapping (ASCII letters only)

  function UpperChar(c: char): char {
    if 'a' <= c <= 'z' then (c as int - 32) as char else c
  }

  function LowerChar(c: char): char {
    if 'A' <= c <= 'Z' then (c as int + 32) as char else c
  }

  function Upper(s: string): (r: string)
    ensures |r| == |s| && forall i :: 0 <= i < |s| ==> r[i] == UpperChar(s[i])
  {
    seq(|s|, i requires 0 <= i < |s| => UpperChar(s[i]))
  }

  function Lower(s: string): (r: string)
    ensures |r| == |s| && forall i :: 0 <= i < |s| ==> r[i] == LowerChar(s[i])
  {
    seq(|s|, i requires 0 <= i < |s| => LowerChar(s[i]))
  }

  // ---------------------------------------------------------------------
  // split(sep) and sep.join(parts)

  function Count(s: string, c: char): nat {
    if |s| == 0 then 0 else (if s[0] == c then 1 else 0) + Count(s[1..], c)
  }

  /** `s.split(sep)` for a one-character separator: one field per
      separator plus one, none of them holding the separator. */
  function Split(s: string, sep: char): (r: seq<string>)
    ensures |r| == Count(s, sep) + 1
    ensures forall i :: 0 <= i < |r| ==> sep !in r[i]
  {
    if |s| == 0 then [""]
    else
      var rest := Split(s[1..], sep);
      if s[0] == sep then [""] + rest
      else [[s[0]] + rest[0]] + rest[1..]
  }

  /** `sep.join(parts)`. */
  function Join(parts: seq<string>, sep: string): string {
    if |parts| == 0 then ""
    else if |parts| == 1 then parts[0]
    else parts[0] + sep + Join(parts[1..], sep)
  }

  lemma {:induction false} JoinAppend(parts: seq<string>, x: string, sep: string)
    ensures Join(parts + [x], sep) == if parts == [] then x else Join(parts, sep) + sep + x
  {
    if |parts| > 1 {
      assert (parts + [x])[1..] == parts[1..] + [x];
      JoinAppend(parts[1..], x, sep);
    } else if |parts| == 1 {
      assert (parts + [x])[1..] == [x];
    }
  }

  /** Splitting and joining again give back the text. */
  lemma {:induction false} JoinSplit(s: string, sep: char)
    ensures Join(Split(s, sep), [sep]) == s
  {
    if |s| > 0 {
      var rest := Split(s[1..], sep);
      JoinSplit(s[1..], sep);
      if s[0] == sep {
        assert Split(s, sep) == [""] + rest;
        assert ([""] + rest)[1..] == rest;
      } else {
        var r := Split(s, sep);
        assert r == [[s[0]] + rest[0]] + rest[1..];
        if |rest| == 1 {
          assert s == [s[0]] + s[1..];
        } else {
          assert r[1..] == rest[1..];
          assert Join(rest, [sep]) == rest[0] + [sep] + Join(rest[1..], [sep]);
          assert s == [s[0]] + s[1..];
        }
      }
    }
  }

  lemma {:induction false} SplitNoSep(a: string, sep: char)
    requires sep !in a
    ensures Split(a, sep) == [a]
  {
    if |a| > 0 {
      assert sep !in a[1..] by { assert forall i :: 0 <= i < |a[1..]| ==> a[1..][i] == a[i + 1]; }
      SplitNoSep(a[1..], sep);
      assert a == [a[0]] + a[1..];
    }
  }

  lemma {:induction false} SplitAfterField(a: string, sep: char, b: string)
    requires sep !in a
    ensures Split(a + [sep] + b, sep) == [a] + Split(b, sep)
  {
    if |a| == 0 {
      assert a + [sep] + b == [sep] + b;
      assert ([sep] + b)[1..] == b;
    } else {
      assert (a + [sep] + b)[1..] == a[1..] + [sep] + b;
      assert sep !in a[1..] by { assert forall i :: 0 <= i < |a[1..]| ==> a[1..][i] == a[i + 1]; }
      SplitAfterField(a[1..], sep, b);
      assert a == [a[0]] + a[1..];
    }
  }

  /** Joining fields free of the separator and splitting again give back
      the fields. */
  lemma {:induction false} SplitJoin(parts: seq<string>, sep: char)
    requires |parts| >= 1
    requires forall i :: 0 <= i < |parts| ==> sep !in parts[i]
    ensures Split(Join(parts, [sep]), sep) == parts
  {
    if |parts| == 1 {
      SplitNoSep(parts[0], sep);
    } else {
      SplitJoin(parts[1..], sep);
      assert Join(parts, [sep]) == parts[0] + [sep] + Join(parts[1..], [sep]);
      SplitAfterField(parts[0], sep, Join(parts[1..], [sep]));
      assert parts == [parts[0]] + parts[1..];
    }
  }

  // ---------------------------------------------------------------------
  // Decimal rendering of a non-negative int (`str(n)`, `f"{n}"`)

  function Digit(d: nat): char
    requires d < 10
  {
    ('0' as int + d) as char
  }

  function DigitValue(c: char): int {
    c as int - '0' as int
  }

  function Decimal(n: nat): (r: string)
    ensures |r| >= 1
    ensures forall i :: 0 <= i < |r| ==> '0' <= r[i] <= '9'
    ensures r[0] == '0' ==> n == 0
  {
    if n < 10 then [Digit(n)] else Decimal(n / 10) + [Digit(n % 10)]
  }

  /** The value a string of decimal digits denotes. */
  function DecimalValue(s: string): int {
    if |s| == 0 then 0 else DecimalValue(s[..|s| - 1]) * 10 + DigitValue(s[|s| - 1])
  }

  /** `Decimal` renders `n` faithfully: reading the digits back gives `n`. */
  lemma {:induction false} DecimalRoundTrip(n: nat)
    ensures DecimalValue(Decimal(n)) == n
  {
    if n >= 10 {
      DecimalRoundTrip(n / 10);
      var r := Decimal(n);
      assert r[..|r| - 1] == Decimal(n / 10);
    }
  }

  // ---------------------------------------------------------------------
  // The order `sorted` puts strings in: lexicographic by code point

  predicate Less(a: string, b: string) {
    if |b| == 0 then false
    else if |a| == 0 then true
    else if a[0] != b[0] then a[0] < b[0]
    else Less(a[1..], b[1..])
  }

  lemma {:induction false} LessIrreflexive(a: string)
    ensures !Less(a, a)
  {
    if |a| > 0 {
      LessIrreflexive(a[1..]);
    }
  }

  lemma {:induction false} LessTotal(a: string, b: string)
    requires a != b
    ensures Less(a, b) || Less(b, a)
  {
    if |a| > 0 && |b| > 0 && a[0] == b[0] {
      assert a == [a[0]] + a[1..] && b == [b[0]] + b[1..];
      LessTotal(a[1..], b[1..]);
    }
  }

  lemma {:induction false} LessAsymmetric(a: string, b: string)
    requires Less(a, b)
    ensures !Less(b, a)
  {
    if |a| > 0 && |b| > 0 && a[0] == b[0] {
      LessAsymmetric(a[1..], b[1..]);
    }
  }

  predicate StrictlySorted(xs: seq<string>) {
    forall i, j :: 0 <= i < j < |xs| ==> Less(xs[i], xs[j])
  }

  /** Inserting into a strictly sorted list keeps it strictly sorted and
      adds exactly `x`. */
  function Insert(x: string, xs: seq<string>): (r: seq<string>)
    requires StrictlySorted(xs)
    ensures StrictlySorted(r)
    ensures forall y :: y in r <==> y == x || y in xs
  {
    if |xs| == 0 then [x]
    else if x == xs[0] then xs
    else if Less(x, xs[0]) then
      assert forall j :: 0 <= j < |xs| ==> Less(x, xs[j]) by {
        forall j | 0 < j < |xs| ensures Less(x, xs[j]) {
          LessTransitive(x, xs[0], xs[j]);
        }
      }
      [x] + xs
    else
      LessTotal(x, xs[0]);
      var rest := Insert(x, xs[1..]);
      assert forall j :: 0 <= j < |rest| ==> Less(xs[0], rest[j]) by {
        forall j | 0 <= j < |rest| ensures Less(xs[0], rest[j]) {
          if rest[j] != x {
            assert rest[j] in rest;
            assert rest[j] in xs[1..];
            var k :| 0 <= k < |xs[1..]| && xs[1..][k] == rest[j];
            assert xs[k + 1] == rest[j];
          }
        }
      }
      [xs[0]] + rest
  }

  lemma {:induction false} LessTransitive(a: string, b: string, c: string)
    requires Less(a, b) && Less(b, c)
    ensures Less(a, c)
  {
    if |a| > 0 && a[0] == b[0] && b[0] == c[0] {
      LessTransitive(a[1..], b[1..], c[1..]);
    }
  }

  /** A strictly sorted list has no duplicates. */
  lemma SortedDistinct(xs: seq<string>, i: int, j: int)
    requires StrictlySorted(xs)
    requires 0 <= i < |xs| && 0 <= j < |xs| && i != j
    ensures xs[i] != xs[j]
  {
    if i < j {
      LessIrreflexive(xs[i]);
    } else {
      LessIrreflexive(xs[j]);
    }
  }
  lemma SortedTail(xs: seq<string>)
    requires StrictlySorted(xs) && |xs| > 0
    ensures StrictlySorted(xs[1..])
    ensures forall x :: x in xs[1..] <==> x in xs && x != xs[0]
  {
    forall x | x in xs[1..] ensures x != xs[0] {
      var k :| 0 <= k < |xs[1..]| && xs[1..][k] == x;
      assert Less(xs[0], xs[k + 1]);
      LessIrreflexive(x);
    }
    forall x | x in xs && x != xs[0] ensures x in xs[1..] {
      var k :| 0 <= k < |xs| && xs[k] == x;
      assert xs[1..][k - 1] == x;
    }
  }

  lemma Trichotomy(a: string, b: string)
    ensures a == b || Less(a, b) || Less(b, a)
  {
    if a != b {
      LessTotal(a, b);
    }
  }

  /** Nothing in a strictly sorted list is below its head. */
  lemma HeadIsLeast(ys: seq<string>, x: string)
    requires StrictlySorted(ys) && x in ys
    ensures !Less(x, ys[0])
  {
    var k :| 0 <= k < |ys| && ys[k] == x;
    if k == 0 {
      LessIrreflexive(x);
    } else {
      LessAsymmetric(ys[0], ys[k]);
    }
  }

  lemma SameElementsEmpty(xs: seq<string>, ys: seq<string>)
    requires forall x :: x in xs <==> x in ys
    ensures |xs| == 0 <==> |ys| == 0
  {
    if |xs| > 0 {
      assert xs[0] in xs;
    }
    if |ys| > 0 {
      assert ys[0] in ys;
    }
  }

  /** A strictly sorted list is determined by its elements: this is the
      list `sorted` makes of a set. */
  lemma {:induction false} SortedUnique(xs: seq<string>, ys: seq<string>)
    requires StrictlySorted(xs) && StrictlySorted(ys)
    requires forall x :: x in xs <==> x in ys
    ensures xs == ys
  {
    SameElementsEmpty(xs, ys);
    if |xs| > 0 {
      HeadIsLeast(ys, xs[0]);
      HeadIsLeast(xs, ys[0]);
      Trichotomy(xs[0], ys[0]);
      SortedTail(xs);
      SortedTail(ys);
      SortedUnique(xs[1..], ys[1..]);
      assert xs == [xs[0]] + xs[1..] && ys == [ys[0]] + ys[1..];
    }
  }

  /** An occurrence inside a slice is one in the whole sequence, shifted
      by the start of the slice. */
  lemma OccursInSlice(s: string, sub: string, lo: nat, hi: nat, i: int)
    requires lo <= hi <= |s| && 0 <= i && i + |sub| <= hi - lo
    ensures OccursAt(s[lo..hi], sub, i) <==> OccursAt(s, sub, lo + i)
  {
    var a, b := s[lo..hi][i..i + |sub|], s[lo + i..lo + i + |sub|];
    assert forall k :: 0 <= k < |a| ==> a[k] == b[k];
    assert a == b;
  }

  // ---------------------------------------------------------------------
  // rfind of a single character

  lemma OccursAtChar(s: string, c: char, k: int)
    ensures OccursAt(s, [c], k) <==> 0 <= k < |s| && s[k] == c
  {
    if 0 <= k < |s| {
      assert s[k..k + 1][0] == s[k];
    }
  }

  /** The last `c` of `s` is the one `rfind` reports. */
  lemma RFindLast(s: string, c: char, k: int)
    requires 0 <= k < |s| && s[k] == c
    requires forall j :: k < j < |s| ==> s[j] != c
    ensures RFind(s, [c], 0, |s|) == k
  {
    var r := RFind(s, [c], 0, |s|);
    OccursAtChar(s, c, k);
    OccursAtChar(s, c, r);
  }

  /** Without a `c` from position `k` on, `rfind` reports a position
      before `k`, or -1. */
  lemma RFindBefore(s: string, c: char, k: nat)
    requires forall j :: k <= j < |s| ==> s[j] != c
    ensures RFind(s, [c], 0, |s|) < k
  {
    var r := RFind(s, [c], 0, |s|);
    OccursAtChar(s, c, r);
  }
}
