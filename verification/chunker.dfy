/** `RAGEngine._chunk_text` (rag_engine.py): blank-line normalisation,
    `strip()`, then a window of `chunk_size` characters slid over the text,
    cut preferably at the last paragraph break, else just after the last
    sentence break, stepping back by `chunk_overlap` between windows.

    The loop is modelled twice. `Step`/`RunFrom` follow the source as
    written, with Python's negative-index slicing and `rfind`, driven by a
    fuel bound because the source loop does not always terminate (see the
    module `ChunkerStall`). `FixedStep`/`Pieces`/`ChunkText` are the
    corrected loop, which always advances; document construction uses it. */
module Chunker {
  import opened PyStrings

  // ---------------------------------------------------------------------
  // re.sub(r'\n\s*\n', '\n\n', text)

  /** The first index at or after `i` that is not whitespace (or `|s|`). */
  function SpaceRunEnd(s: string, i: nat): (k: nat)
    requires i <= |s|
    ensures i <= k <= |s|
    ensures forall j :: i <= j < k ==> IsSpace(s[j])
    ensures k == |s| || !IsSpace(s[k])
    decreases |s| - i
  {
    if i == |s| || !IsSpace(s[i]) then i else SpaceRunEnd(s, i + 1)
  }

  /** The last index in `[lo, hi)` holding a newline, or -1. */
  function LastNewline(s: string, lo: nat, hi: nat): (j: int)
    requires lo <= hi <= |s|
    ensures j == -1 || (lo <= j < hi && s[j] == '\n')
    ensures forall k :: lo <= k < hi && j < k ==> s[k] != '\n'
    decreases hi - lo
  {
    if hi == lo then -1 else if s[hi - 1] == '\n' then hi - 1 else LastNewline(s, lo, hi - 1)
  }

  /** The visible characters of `s`: `s` with its whitespace removed. */
  function Visible(s: string): string {
    if |s| == 0 then [] else (if IsSpace(s[0]) then [] else [s[0]]) + Visible(s[1..])
  }

  lemma {:induction false} VisibleConcat(a: string, b: string)
    ensures Visible(a + b) == Visible(a) + Visible(b)
  {
    if |a| > 0 {
      assert (a + b)[0] == a[0] && (a + b)[1..] == a[1..] + b;
      VisibleConcat(a[1..], b);
    } else {
      assert a + b == b;
    }
  }

  lemma {:induction false} VisibleOfSpaces(s: string)
    requires forall j :: 0 <= j < |s| ==> IsSpace(s[j])
    ensures Visible(s) == []
  {
    if |s| > 0 {
      VisibleOfSpaces(s[1..]);
    }
  }

  /** The regular-expression substitution at rag_engine.py:129. A match
      starts at a newline, runs greedily over whitespace and backs off to
      the last newline of that run; it is replaced by one blank line. */
  function CollapseBlankLines(s: string): string
    decreases |s|
  {
    if |s| == 0 then []
    else
      var j := if s[0] == '\n' then LastNewline(s, 1, SpaceRunEnd(s, 1)) else -1;
      if j >= 1 then "\n\n" + CollapseBlankLines(s[j + 1..])
      else [s[0]] + CollapseBlankLines(s[1..])
  }

  /** A leading run of whitespace is invisible. */
  lemma {:induction false} SpaceRunInvisible(s: string, n: nat)
    requires n <= |s|
    requires forall k :: 0 <= k < n ==> IsSpace(s[k])
    ensures Visible(s) == Visible(s[n..])
  {
    assert s == s[..n] + s[n..];
    VisibleConcat(s[..n], s[n..]);
    VisibleOfSpaces(s[..n]);
  }

  /** The substitution only rewrites whitespace: the visible text is
      unchanged. */
  lemma {:induction false} CollapseKeepsVisible(s: string)
    ensures Visible(CollapseBlankLines(s)) == Visible(s)
    decreases |s|
  {
    if |s| > 0 {
      var j := if s[0] == '\n' then LastNewline(s, 1, SpaceRunEnd(s, 1)) else -1;
      if j >= 1 {
        var rest := CollapseBlankLines(s[j + 1..]);
        assert CollapseBlankLines(s) == "\n\n" + rest;
        SpaceRunInvisible(s, j + 1);
        CollapseKeepsVisible(s[j + 1..]);
        VisibleConcat("\n\n", rest);
        VisibleOfSpaces("\n\n");
      } else {
        var rest := CollapseBlankLines(s[1..]);
        assert CollapseBlankLines(s) == [s[0]] + rest;
        CollapseKeepsVisible(s[1..]);
        VisibleConcat([s[0]], rest);
      }
    }
  }

  /** A leading character other than a newline is copied through. */
  lemma CollapseHead(s: string)
    requires |s| > 0 && s[0] != '\n'
    ensures CollapseBlankLines(s) == [s[0]] + CollapseBlankLines(s[1..])
  {
  }

  /** `s` holds no newline. */
  predicate NoNewline(s: string) {
    |s| == 0 || (s[0] != '\n' && NoNewline(s[1..]))
  }

  /** Text without newlines is left alone by the substitution. */
  lemma {:induction false} CollapseNoNewline(a: string, b: string)
    requires NoNewline(a)
    ensures CollapseBlankLines(a + b) == a + CollapseBlankLines(b)
  {
    if |a| > 0 {
      var ab := a + b;
      assert ab[0] == a[0] && ab[1..] == a[1..] + b;
      CollapseHead(ab);
      CollapseNoNewline(a[1..], b);
      assert a == [a[0]] + a[1..];
    } else {
      assert a + b == b;
    }
  }

  lemma StripKeepsVisible(s: string)
    ensures Visible(Strip(s)) == Visible(s)
  {
    var t := Strip(s);
    var sp := StripSpan(s, 0, |s|);
    StripSpanCuts(s, 0, |s|);
    var left, right := s[..sp.lo], s[sp.hi..];
    assert s == left + (t + right);
    VisibleConcat(left, t + right);
    VisibleConcat(t, right);
    VisibleOfSpaces(left);
    VisibleOfSpaces(right);
  }

  /** The text the window slides over: normalised, then stripped. */
  function Prepare(text: string): (t: string)
    ensures Stripped(t)
  {
    Strip(CollapseBlankLines(text))
  }

  /** Preparing the text loses no visible character. */
  lemma PrepareKeepsVisible(text: string)
    ensures Visible(Prepare(text)) == Visible(text)
  {
    CollapseKeepsVisible(text);
    StripKeepsVisible(CollapseBlankLines(text));
  }

  // ---------------------------------------------------------------------
  // Break points

  predicate ParagraphAt(t: string, i: int) {
    OccursAt(t, "\n\n", i)
  }

  predicate SentenceAt(t: string, i: int) {
    OccursAt(t, ". ", i) || OccursAt(t, "! ", i) || OccursAt(t, "? ", i)
  }

  /** A paragraph break strictly after `start` that lies inside the window
      `[start, start + size)`. */
  predicate ParagraphIn(t: string, start: int, size: int, i: int) {
    start < i && i + 2 <= start + size && ParagraphAt(t, i)
  }

  /** A sentence break strictly after `start` inside the window. */
  predicate SentenceIn(t: string, start: int, size: int, i: int) {
    start < i && i + 2 <= start + size && SentenceAt(t, i)
  }

  function Max(a: int, b: int): int {
    if a < b then b else a
  }

  /** `max(rfind('. '), rfind('! '), rfind('? '))` over `text[start:end]`:
      the last sentence break inside the normalised range, or -1. */
  function LastSentenceBreak(t: string, start: int, end: int): (sb: int)
    ensures sb == -1 || (SentenceAt(t, sb) && FindStart(start, |t|) <= sb && sb + 2 <= SliceIndex(end, |t|))
    ensures forall k :: sb < k && FindStart(start, |t|) <= k && k + 2 <= SliceIndex(end, |t|) ==> !SentenceAt(t, k)
  {
    Max(Max(RFind(t, ". ", start, end), RFind(t, "! ", start, end)), RFind(t, "? ", start, end))
  }

  // ---------------------------------------------------------------------
  // One pass of the loop, as written

  /** One iteration: the chunk it emits (possibly empty, then dropped),
      where the window was cut, and the next `start`. */
  datatype Window = Window(piece: string, stop: int, next: int)

  function Cut(t: string, size: int, start: int): (stop: int)
    ensures 0 <= size ==> start <= stop
    ensures size > 0 ==> start < stop
    ensures 0 <= start + size ==> stop <= start + size
  {
    var end := start + size;
    if end < |t| then
      var pb := RFind(t, "\n\n", start, end);
      if pb != -1 && pb > start then pb
      else
        var sb := LastSentenceBreak(t, start, end);
        if sb != -1 && sb > start then sb + 1 else end
    else end
  }

  /** `rfind('\n\n')` over a window inside the text at a non-negative
      start finds the last paragraph break of the window, if any. */
  lemma ParagraphSearch(t: string, size: int, start: int, i: int)
    requires 0 <= start && 0 <= size && start + size < |t|
    ensures var pb := RFind(t, "\n\n", start, start + size);
            && (pb > start ==> ParagraphIn(t, start, size, pb))
            && (ParagraphIn(t, start, size, i) ==> i <= pb)
  {
    assert FindStart(start, |t|) == start && SliceIndex(start + size, |t|) == start + size;
  }

  /** Likewise for the last sentence break of the window. */
  lemma SentenceSearch(t: string, size: int, start: int, i: int)
    requires 0 <= start && 0 <= size && start + size < |t|
    ensures var sb := LastSentenceBreak(t, start, start + size);
            && (sb > start ==> SentenceIn(t, start, size, sb))
            && (SentenceIn(t, start, size, i) ==> i <= sb)
  {
    assert FindStart(start, |t|) == start && SliceIndex(start + size, |t|) == start + size;
  }

  /** Where the window is cut, stated over the text rather than through
      `rfind` (for a window inside the text at a non-negative start): a
      paragraph break strictly after `start` wins, and the last one is
      taken. */
  lemma CutAtParagraph(t: string, size: int, start: int, i: int)
    requires 0 <= start && 0 <= size && start + size < |t|
    requires ParagraphIn(t, start, size, i)
    ensures ParagraphIn(t, start, size, Cut(t, size, start))
    ensures i <= Cut(t, size, start)
  {
    ParagraphSearch(t, size, start, i);
  }

  /** Without a paragraph break the cut goes just after the last sentence
      break, keeping its punctuation in the chunk. */
  lemma CutAtSentence(t: string, size: int, start: int, i: int)
    requires 0 <= start && 0 <= size && start + size < |t|
    requires forall k :: !ParagraphIn(t, start, size, k)
    requires SentenceIn(t, start, size, i)
    ensures SentenceIn(t, start, size, Cut(t, size, start) - 1)
    ensures i <= Cut(t, size, start) - 1
  {
    var pb := RFind(t, "\n\n", start, start + size);
    ParagraphSearch(t, size, start, i);
    assert !ParagraphIn(t, start, size, pb);
    SentenceSearch(t, size, start, i);
  }

  /** With neither kind of break the whole window is taken. */
  lemma CutAtWindowEnd(t: string, size: int, start: int)
    requires 0 <= start && 0 <= size && start + size < |t|
    requires forall k :: !ParagraphIn(t, start, size, k) && !SentenceIn(t, start, size, k)
    ensures Cut(t, size, start) == start + size
  {
    var pb := RFind(t, "\n\n", start, start + size);
    ParagraphSearch(t, size, start, start);
    assert !ParagraphIn(t, start, size, pb);
    var sb := LastSentenceBreak(t, start, start + size);
    SentenceSearch(t, size, start, start);
    assert !SentenceIn(t, start, size, sb);
  }

  /** The text a window covers is never longer than the window, even when
      a negative `start` makes Python read the bounds from the end. */
  lemma SliceWithinWindow(t: string, size: int, start: int)
    ensures size >= 0 ==> |Slice(t, start, Cut(t, size, start))| <= size
  {
    var end := start + size;
    var stop := Cut(t, size, start);
    if size >= 0 && end < 0 {
      var lo, hi := FindStart(start, |t|), SliceIndex(end, |t|);
      assert SliceIndex(start, |t|) == lo;
      assert hi - lo <= size;
      if stop != end {
        assert lo <= stop && stop + 1 <= hi;
        assert SliceIndex(stop, |t|) == stop;
      }
    }
  }

  /** `start = end - chunk_overlap if end < len(text) else end`, where
      `end` is the cut. */
  function NextStart(t: string, size: int, overlap: int, start: int): (next: int) {
    var stop := Cut(t, size, start);
    if stop < |t| then stop - overlap else stop
  }

  /** A chunk the loop emits: non-empty, stripped, and no longer than the
      window when the window size is not negative. */
  predicate GoodChunk(c: string, size: int) {
    c != [] && Stripped(c) && (size >= 0 ==> |c| <= size)
  }

  function Step(t: string, size: int, overlap: int, start: int): (w: Window)
    ensures w.stop == Cut(t, size, start)
    ensures size >= 0 ==> start <= w.stop
    ensures 0 <= start + size ==> w.stop <= start + size
    ensures size > 0 ==> start < w.stop
    ensures start + size >= |t| ==> w.stop == start + size && w.next == w.stop
    ensures w.piece == [] || GoodChunk(w.piece, size)
    ensures w.stop < |t| ==> w.next == w.stop - overlap
  {
    var stop := Cut(t, size, start);
    var slice := Slice(t, start, stop);
    SliceWithinWindow(t, size, start);
    Window(Strip(slice), stop, NextStart(t, size, overlap, start))
  }

  /** What the loop produced, and whether it got to the end of the text
      within the fuel. */
  datatype Run = Run(chunks: seq<string>, finished: bool)

  /** Whether the loop as written gets from `start` to the end of the text
      within `fuel` iterations; only where each window is cut matters. */
  predicate Finishes(t: string, size: int, overlap: int, start: int, fuel: nat)
    decreases fuel
  {
    start >= |t| || (fuel > 0 && Finishes(t, size, overlap, NextStart(t, size, overlap, start), fuel - 1))
  }

  /** The `while start < len(text)` loop as written, for at most `fuel`
      iterations. */
  function RunFrom(t: string, size: int, overlap: int, start: int, fuel: nat): (r: Run)
    ensures AllGood(r.chunks, size)
    ensures r.finished == Finishes(t, size, overlap, start, fuel)
    ensures start >= |t| ==> r == Run([], true)
    decreases fuel
  {
    if start >= |t| then Run([], true)
    else if fuel == 0 then Run([], false)
    else
      var w := Step(t, size, overlap, start);
      var rest := RunFrom(t, size, overlap, w.next, fuel - 1);
      var first := if w.piece != [] then [w.piece] else [];
      AllGoodConcat(first, rest.chunks, size);
      Run(first + rest.chunks, rest.finished)
  }

  predicate AllGood(cs: seq<string>, size: int) {
    forall i :: 0 <= i < |cs| ==> GoodChunk(cs[i], size)
  }

  lemma AllGoodConcat(a: seq<string>, b: seq<string>, size: int)
    requires AllGood(a, size) && AllGood(b, size)
    ensures AllGood(a + b, size)
  {
    forall i | 0 <= i < |a + b|
      ensures GoodChunk((a + b)[i], size)
    {
      if i < |a| {
        assert (a + b)[i] == a[i];
      } else {
        assert (a + b)[i] == b[i - |a|];
      }
    }
  }

  /** `_chunk_text` as written, for at most `fuel` loop iterations. */
  function ChunkTextAsWritten(text: string, size: int, overlap: int, fuel: nat): (r: Run)
    ensures |Prepare(text)| <= size ==> r == Run([Prepare(text)], true)
    ensures |Prepare(text)| > size ==> AllGood(r.chunks, size)
    ensures |Prepare(text)| > size ==> r.finished == Finishes(Prepare(text), size, overlap, 0, fuel)
  {
    var t := Prepare(text);
    if |t| <= size then Run([t], true) else RunFrom(t, size, overlap, 0, fuel)
  }

  // ---------------------------------------------------------------------
  // The corrected loop

  /** As `Step`, except that a step which would not move `start` forward
      continues from the cut itself, without overlap. */
  function FixedStep(t: string, size: int, overlap: int, start: int): (w: Window)
    ensures w.piece == Step(t, size, overlap, start).piece && w.stop == Step(t, size, overlap, start).stop
    ensures size > 0 ==> start < w.next
    ensures overlap >= 0 ==> w.next <= w.stop
  {
    var w := Step(t, size, overlap, start);
    if w.stop < |t| && w.stop - overlap <= start then w.(next := w.stop) else w
  }

  /** Wherever the source's step already advances, the corrected step is
      the same step. */
  lemma FixedStepAgrees(t: string, size: int, overlap: int, start: int)
    requires Step(t, size, overlap, start).next > start
    ensures FixedStep(t, size, overlap, start) == Step(t, size, overlap, start)
  {
  }

  /** The end of the text a window at a non-negative `start` covers. */
  function WindowEnd(t: string, size: int, start: nat): (hi: nat)
    requires size > 0 && start < |t|
    ensures start < hi <= |t|
    ensures hi == if Cut(t, size, start) < |t| then Cut(t, size, start) else |t|
  {
    var stop := Cut(t, size, start);
    if stop < |t| then stop else |t|
  }

  /** The chunk the corrected loop emits at a non-negative `start`, as a
      span of `t` (empty when the window holds only whitespace), and where
      the loop goes on. */
  datatype Advance = Advance(span: Span, next: nat)

  function FixedAdvance(t: string, size: int, overlap: int, start: nat): (a: Advance)
    requires size > 0 && start < |t|
    ensures start <= a.span.lo <= a.span.hi <= |t|
    ensures a.span.lo < a.span.hi ==> GoodChunk(t[a.span.lo..a.span.hi], size)
    ensures start < a.next
  {
    var stop := Cut(t, size, start);
    var hi := WindowEnd(t, size, start);
    var sp := StripSpan(t, start, hi);
    assert hi - start <= size;
    assert sp.lo < sp.hi ==> Stripped(t[sp.lo..sp.hi]) by {
      if sp.lo < sp.hi {
        assert t[sp.lo..sp.hi][0] == t[sp.lo] && t[sp.lo..sp.hi][sp.hi - sp.lo - 1] == t[sp.hi - 1];
      }
    }
    Advance(sp, if stop < |t| && start < stop - overlap then stop - overlap else stop)
  }

  /** `FixedAdvance` is `FixedStep` read over `t`: the emitted chunk is
      `strip()` of the text under the window, and the next start agrees. */
  lemma FixedAdvanceAgrees(t: string, size: int, overlap: int, start: nat)
    requires size > 0 && start < |t|
    ensures var a := FixedAdvance(t, size, overlap, start);
            var w := FixedStep(t, size, overlap, start);
            w.piece == t[a.span.lo..a.span.hi] && w.next == a.next
  {
    var hi := WindowEnd(t, size, start);
    assert Slice(t, start, Cut(t, size, start)) == t[start..hi];
    StripOfSlice(t, start, hi);
  }

  /** A visible character under the window is inside the emitted chunk;
      when the overlap is not negative, the next window starts no later
      than this one ends, so nothing between them is skipped. */
  lemma FixedAdvanceCovers(t: string, size: int, overlap: int, start: nat, p: int)
    requires size > 0 && start <= p < |t| && !IsSpace(t[p])
    ensures var a := FixedAdvance(t, size, overlap, start);
            && (p < WindowEnd(t, size, start) ==> a.span.lo <= p < a.span.hi)
            && (overlap >= 0 && WindowEnd(t, size, start) <= p ==> a.next <= p)
  {
    var hi := WindowEnd(t, size, start);
    assert FixedAdvance(t, size, overlap, start).span == StripSpan(t, start, hi);
    if p < hi {
      StripKeeps(t, start, hi, p);
    }
  }

  /** Every span lies in `t` at or after `lo` and holds a good chunk. */
  predicate GoodSpans(t: string, ps: seq<Span>, size: int, lo: int) {
    forall i :: 0 <= i < |ps| ==>
      lo <= ps[i].lo < ps[i].hi <= |t| && GoodChunk(t[ps[i].lo..ps[i].hi], size)
  }

  lemma GoodSpansConcat(t: string, xs: seq<Span>, ys: seq<Span>, size: int, lo: int, lo2: int)
    requires GoodSpans(t, xs, size, lo) && GoodSpans(t, ys, size, lo2) && lo <= lo2
    ensures GoodSpans(t, xs + ys, size, lo)
  {
    forall i | 0 <= i < |xs + ys|
      ensures lo <= (xs + ys)[i].lo < (xs + ys)[i].hi <= |t|
      ensures GoodChunk(t[(xs + ys)[i].lo..(xs + ys)[i].hi], size)
    {
      if i < |xs| {
        assert (xs + ys)[i] == xs[i];
      } else {
        assert (xs + ys)[i] == ys[i - |xs|];
      }
    }
  }

  /** The stretches of `t` the corrected loop emits, from `start` on. */
  function Pieces(t: string, size: int, overlap: int, start: nat): (ps: seq<Span>)
    requires size > 0
    ensures GoodSpans(t, ps, size, start)
    decreases |t| - start
  {
    if start >= |t| then []
    else
      var a := FixedAdvance(t, size, overlap, start);
      var rest := Pieces(t, size, overlap, a.next);
      var first := if a.span.lo < a.span.hi then [a.span] else [];
      GoodSpansConcat(t, first, rest, size, start, a.next);
      first + rest
  }

  /** Position `p` lies inside one of the spans. */
  predicate InSome(ps: seq<Span>, p: int) {
    exists i :: 0 <= i < |ps| && ps[i].lo <= p < ps[i].hi
  }

  lemma InSomeConcat(xs: seq<Span>, ys: seq<Span>, p: int)
    requires InSome(xs, p) || InSome(ys, p)
    ensures InSome(xs + ys, p)
  {
    if InSome(xs, p) {
      var i :| 0 <= i < |xs| && xs[i].lo <= p < xs[i].hi;
      assert (xs + ys)[i] == xs[i];
    } else {
      var i :| 0 <= i < |ys| && ys[i].lo <= p < ys[i].hi;
      assert (xs + ys)[|xs| + i] == ys[i];
    }
  }

  /** The corrected loop never drops text: when windows overlap (or
      touch), every visible character from `start` on lies inside some
      emitted chunk. */
  lemma {:induction false} PiecesCover(t: string, size: int, overlap: int, start: nat, p: int)
    requires size > 0 && overlap >= 0
    requires start <= p < |t| && !IsSpace(t[p])
    ensures InSome(Pieces(t, size, overlap, start), p)
    decreases |t| - start
  {
    var a := FixedAdvance(t, size, overlap, start);
    var first: seq<Span> := if a.span.lo < a.span.hi then [a.span] else [];
    var rest := Pieces(t, size, overlap, a.next);
    assert Pieces(t, size, overlap, start) == first + rest;
    FixedAdvanceCovers(t, size, overlap, start, p);
    if a.span.lo <= p < a.span.hi {
      assert first[0] == a.span;
      InSomeConcat(first, rest, p);
    } else {
      PiecesCover(t, size, overlap, a.next, p);
      InSomeConcat(first, rest, p);
    }
  }

  /** `_chunk_text` with the corrected loop. */
  function ChunkText(text: string, size: int, overlap: int): (r: seq<string>)
    requires size > 0
    ensures |Prepare(text)| <= size ==> r == [Prepare(text)]
    ensures |Prepare(text)| > size ==> AllGood(r, size)
    ensures |r| >= 1
  {
    var t := Prepare(text);
    if |t| <= size then [t]
    else
      var ps := Pieces(t, size, overlap, 0);
      FixedAdvanceCovers(t, size, overlap, 0, 0);
      var cs := Spelled(t, ps);
      forall i | 0 <= i < |cs| ensures GoodChunk(cs[i], size) {
        SpelledAt(t, ps, i);
      }
      cs
  }

  /** Every span lies inside `t`. */
  predicate InText(t: string, ps: seq<Span>) {
    forall i :: 0 <= i < |ps| ==> 0 <= ps[i].lo <= ps[i].hi <= |t|
  }

  /** The text under each span. */
  function Spelled(t: string, ps: seq<Span>): (cs: seq<string>)
    requires InText(t, ps)
    ensures |cs| == |ps|
  {
    if |ps| == 0 then [] else [t[ps[0].lo..ps[0].hi]] + Spelled(t, ps[1..])
  }

  lemma {:induction false} SpelledAt(t: string, ps: seq<Span>, i: int)
    requires InText(t, ps) && 0 <= i < |ps|
    ensures Spelled(t, ps)[i] == t[ps[i].lo..ps[i].hi]
  {
    if i > 0 {
      SpelledAt(t, ps[1..], i - 1);
    }
  }

  // ---------------------------------------------------------------------
  // Where the two loops agree

  /** Every iteration of the loop as written from `start` on moves `start`
      forward, and the loop gets to the end of the text within `fuel`
      iterations. */
  predicate Advances(t: string, size: int, overlap: int, start: int, fuel: nat)
    decreases fuel
  {
    start >= |t|
    || (fuel > 0 && NextStart(t, size, overlap, start) > start
        && Advances(t, size, overlap, NextStart(t, size, overlap, start), fuel - 1))
  }

  /** A step that moves forward emits the corrected step's chunk and
      goes on where the corrected step does. */
  lemma {:induction false} StepAgrees(t: string, size: int, overlap: int, start: nat)
    requires size > 0 && start < |t| && NextStart(t, size, overlap, start) > start
    ensures var w := Step(t, size, overlap, start);
            var a := FixedAdvance(t, size, overlap, start);
            w.piece == t[a.span.lo..a.span.hi] && w.next == a.next == NextStart(t, size, overlap, start)
            && (w.piece != [] <==> a.span.lo < a.span.hi)
  {
    FixedStepAgrees(t, size, overlap, start);
    FixedAdvanceAgrees(t, size, overlap, start);
  }

  /** One iteration of the loop as written, unfolded. */
  lemma {:induction false} RunFromStep(t: string, size: int, overlap: int, start: int, fuel: nat)
    requires start < |t| && fuel > 0
    ensures var w := Step(t, size, overlap, start);
            var rest := RunFrom(t, size, overlap, NextStart(t, size, overlap, start), fuel - 1);
            RunFrom(t, size, overlap, start, fuel)
            == Run((if w.piece != [] then [w.piece] else []) + rest.chunks, rest.finished)
  {
  }

  /** One iteration of the corrected loop, unfolded. */
  lemma {:induction false} PiecesStep(t: string, size: int, overlap: int, start: nat)
    requires size > 0 && start < |t|
    ensures var a := FixedAdvance(t, size, overlap, start);
            Pieces(t, size, overlap, start)
            == (if a.span.lo < a.span.hi then [a.span] else []) + Pieces(t, size, overlap, a.next)
  {
  }

  /** The chunk of one step, put in front of the text of the later spans,
      is the text of all the spans. */
  lemma {:induction false} SpelledCons(t: string, whole: Run, rest: Run, ps: seq<Span>, later: seq<Span>,
                                       piece: string, sp: Span)
    requires InText(t, later) && 0 <= sp.lo <= sp.hi <= |t|
    requires rest == Run(Spelled(t, later), true)
    requires whole == Run((if piece != [] then [piece] else []) + rest.chunks, rest.finished)
    requires ps == (if sp.lo < sp.hi then [sp] else []) + later
    requires piece == t[sp.lo..sp.hi]
    ensures InText(t, ps) && whole == Run(Spelled(t, ps), true)
  {
    if sp.lo < sp.hi {
      assert ps[0] == sp && ps[1..] == later;
    } else {
      assert ps == later;
    }
  }

  /** If the loop as written agrees with the corrected loop from the next
      start on, and this step moves forward, they agree from here. */
  lemma {:induction false} RunAgreesStep(t: string, size: int, overlap: int, start: nat, fuel: nat)
    requires size > 0 && start < |t| && fuel > 0 && NextStart(t, size, overlap, start) > start
    requires RunFrom(t, size, overlap, NextStart(t, size, overlap, start), fuel - 1)
             == Run(Spelled(t, Pieces(t, size, overlap, NextStart(t, size, overlap, start))), true)
    ensures RunFrom(t, size, overlap, start, fuel) == Run(Spelled(t, Pieces(t, size, overlap, start)), true)
  {
    var next := NextStart(t, size, overlap, start);
    StepAgrees(t, size, overlap, start);
    RunFromStep(t, size, overlap, start, fuel);
    PiecesStep(t, size, overlap, start);
    SpelledCons(t, RunFrom(t, size, overlap, start, fuel), RunFrom(t, size, overlap, next, fuel - 1),
                Pieces(t, size, overlap, start), Pieces(t, size, overlap, next),
                Step(t, size, overlap, start).piece, FixedAdvance(t, size, overlap, start).span);
  }

  /** On a run that always moves forward, the loop as written and the
      corrected loop emit the same chunks, and the former finishes. */
  lemma {:induction false} RunAgrees(t: string, size: int, overlap: int, start: nat, fuel: nat)
    requires size > 0 && Advances(t, size, overlap, start, fuel)
    ensures RunFrom(t, size, overlap, start, fuel) == Run(Spelled(t, Pieces(t, size, overlap, start)), true)
    decreases fuel
  {
    if start < |t| {
      var next := NextStart(t, size, overlap, start);
      assert next > start && Advances(t, size, overlap, next, fuel - 1);
      RunAgrees(t, size, overlap, next, fuel - 1);
      RunAgreesStep(t, size, overlap, start, fuel);
    }
  }

  /** Wherever the source's loop moves forward at every iteration, the
      corrected `_chunk_text` returns exactly what the source returns. */
  lemma ChunkTextAgrees(text: string, size: int, overlap: int, fuel: nat)
    requires size > 0 && Advances(Prepare(text), size, overlap, 0, fuel)
    ensures ChunkTextAsWritten(text, size, overlap, fuel) == Run(ChunkText(text, size, overlap), true)
  {
    if |Prepare(text)| > size {
      RunAgrees(Prepare(text), size, overlap, 0, fuel);
    }
  }

  /** Without overlap the loop as written always moves forward, one
      character at least per iteration. */
  lemma {:induction false} NoOverlapAdvances(t: string, size: int, overlap: int, start: nat, fuel: nat)
    requires size > 0 && overlap <= 0 && |t| - start <= fuel
    ensures Advances(t, size, overlap, start, fuel)
    decreases fuel
  {
    if start < |t| {
      var next := NextStart(t, size, overlap, start);
      assert start < next;
      NoOverlapAdvances(t, size, overlap, next, fuel - 1);
    }
  }

  /** Hence with an overlap of 0 the corrected chunker is the source's,
      given one iteration per character. */
  lemma NoOverlapAgrees(text: string, size: int, overlap: int)
    requires size > 0 && overlap <= 0
    ensures ChunkTextAsWritten(text, size, overlap, |Prepare(text)|) == Run(ChunkText(text, size, overlap), true)
  {
    NoOverlapAdvances(Prepare(text), size, overlap, 0, |Prepare(text)|);
    ChunkTextAgrees(text, size, overlap, |Prepare(text)|);
  }
}
