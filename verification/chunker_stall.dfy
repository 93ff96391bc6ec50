/** The chunking loop at rag_engine.py:136-162 does not always move
    forward. When the last paragraph break of a window lies within
    `chunk_overlap` characters after the window's `start`, the next `start`
    (`end - chunk_overlap`) is not beyond the current one. If it equals the
    current one, the same window is cut again forever: with the default
    settings (1000 / 200) a text of 400 visible characters, a blank line
    and 799 more characters shows it. If it lies before the current one the
    loop may still end, but a start below 0 loses text (module
    `ChunkerLoss`). A chunk size of 0 stalls as well. The corrected loop in
    `Chunker` (`FixedStep`, `Pieces`) always moves on. */
module ChunkerStall {
  import opened PyStrings
  import opened Chunker

  /** `n` copies of `c`. */
  function Repeat(c: char, n: nat): (s: string)
    ensures |s| == n
    ensures forall i :: 0 <= i < n ==> s[i] == c
  {
    seq(n, _ => c)
  }

  lemma {:induction false} RepeatNoNewline(c: char, n: nat)
    requires c != '\n'
    ensures NoNewline(Repeat(c, n))
  {
    if n > 0 {
      assert Repeat(c, n)[1..] == Repeat(c, n - 1);
      RepeatNoNewline(c, n - 1);
    }
  }

  /** A document of 400 characters, a blank line, then 799 characters. */
  const Head: string := Repeat('a', 400)
  const Tail: string := Repeat('a', 799)
  const Text: string := Head + "\n\n" + Tail

  lemma TextLength()
    ensures |Text| == 1201
  {
  }

  lemma TextShape()
    ensures |Text| == 1201
    ensures Text[400] == '\n' && Text[401] == '\n'
    ensures forall i :: 0 <= i < |Text| && i != 400 && i != 401 ==> Text[i] == 'a'
  {
    forall i | 0 <= i < |Text| && i != 400 && i != 401
      ensures Text[i] == 'a'
    {
      if i < 400 {
        assert Text[i] == Head[i];
      } else {
        assert Text[i] == Tail[i - 402];
      }
    }
  }

  lemma SpaceFacts()
    ensures IsSpace('\n') && !IsSpace('a')
  {
  }

  /** The blank line is a single match of the substitution, replaced by
      itself. */
  lemma CollapseBlankLine(rest: string)
    requires rest == "\n\n" + Tail
    ensures CollapseBlankLines(rest) == "\n\n" + CollapseBlankLines(Tail)
  {
    SpaceFacts();
    assert |Tail| == 799 && Tail[0] == 'a';
    assert rest[1] == '\n' && rest[2] == 'a';
    assert SpaceRunEnd(rest, 1) == 2;
    assert LastNewline(rest, 1, 2) == 1;
    assert rest[2..] == Tail;
  }

  /** The document is already normalised. */
  lemma CollapseText()
    ensures CollapseBlankLines(Text) == Text
  {
    var rest := "\n\n" + Tail;
    assert Text == Head + rest;
    RepeatNoNewline('a', 400);
    CollapseNoNewline(Head, rest);
    CollapseBlankLine(rest);
    RepeatNoNewline('a', 799);
    CollapseNoNewline(Tail, []);
    assert Tail + [] == Tail;
  }

  /** The document is already normalised and stripped. */
  lemma PrepareText()
    ensures Prepare(Text) == Text
  {
    CollapseText();
    TextShape();
    SpaceFacts();
    assert Stripped(Text);
    StrippedStrip(Text);
  }

  /** The only paragraph break of the document is at 400. */
  lemma OnlyParagraphBreak(i: int)
    requires OccursAt(Text, "\n\n", i)
    ensures i == 400
  {
    TextShape();
    assert Text[i..i + 2][0] == Text[i] && Text[i..i + 2][1] == Text[i + 1];
  }

  lemma ParagraphAt400()
    ensures OccursAt(Text, "\n\n", 400)
  {
    TextShape();
    assert Text[400..402] == "\n\n";
  }

  /** The window at `start` (0 or 200) is cut at the paragraph break at
      400, and the loop goes back to 400 - 200 = 200. */
  lemma StepStaysAt200(start: int)
    requires start == 0 || start == 200
    ensures Cut(Text, 1000, start) == 400
    ensures NextStart(Text, 1000, 200, start) == 200
  {
    TextShape();
    ParagraphAt400();
    var pb := RFind(Text, "\n\n", start, start + 1000);
    assert FindStart(start, |Text|) == start && SliceIndex(start + 1000, |Text|) == start + 1000;
    assert pb != -1;
    OnlyParagraphBreak(pb);
  }

  /** A window whose step leads back to its own `start` is cut again and
      again: from there the loop as written never reaches the end of the
      text, however many iterations it is given. */
  lemma {:induction false} FixedPointStalls(t: string, size: int, overlap: int, start: int, fuel: nat)
    requires start < |t| && NextStart(t, size, overlap, start) == start
    ensures !Finishes(t, size, overlap, start, fuel)
  {
    if fuel > 0 {
      FixedPointStalls(t, size, overlap, start, fuel - 1);
    }
  }

  /** `_chunk_text` as written, with the default chunk size and overlap,
      never finishes on this document: the first window is cut at 400 and
      the loop goes to 200, whose window is cut at 400 again. */
  lemma AsWrittenStalls(fuel: nat)
    ensures !ChunkTextAsWritten(Text, 1000, 200, fuel).finished
  {
    PrepareText();
    TextLength();
    StepStaysAt200(0);
    StepStaysAt200(200);
    if fuel > 0 {
      FixedPointStalls(Text, 1000, 200, 200, fuel - 1);
    }
  }

  /** The corrected loop leaves the stalled window at its cut, and its
      chunks cover every visible character of the document. */
  lemma CorrectedMovesOn(p: int)
    requires 0 <= p < |Text| && !IsSpace(Text[p])
    ensures FixedStep(Text, 1000, 200, 200).next == 400
    ensures InSome(Pieces(Text, 1000, 200, 0), p)
  {
    StepStaysAt200(200);
    PiecesCover(Text, 1000, 200, 0, p);
  }

  /** With a chunk size of 0 the window is empty and the cut is `start`
      itself, so the loop steps back by the overlap. */
  lemma ZeroSizeStep(t: string, overlap: int, start: int)
    requires |t| > 0 && start <= 0
    ensures NextStart(t, 0, overlap, start) == start - overlap
  {
    assert FindStart(start, |t|) == SliceIndex(start, |t|);
    assert RFind(t, "\n\n", start, start) == -1;
    assert LastSentenceBreak(t, start, start) == -1;
  }

  /** Hence with a chunk size of 0 and an overlap that is not negative
      `start` never grows, and the loop as written does not end on any
      non-empty text. */
  lemma {:induction false} ZeroSizeStalls(t: string, overlap: int, start: int, fuel: nat)
    requires |t| > 0 && overlap >= 0 && start <= 0
    ensures !Finishes(t, 0, overlap, start, fuel)
    decreases fuel
  {
    if fuel > 0 {
      ZeroSizeStep(t, overlap, start);
      ZeroSizeStalls(t, overlap, start - overlap, fuel - 1);
    }
  }
}

/** The loop at rag_engine.py:136-162 can also step back before the start
    of the text. When the cut lies within `chunk_overlap` characters after
    `start`, the next `start` (`end - chunk_overlap`) may be negative. From
    there Python reads the slice bounds from the end of the text, the
    window is empty, and the loop jumps ahead: it can finish having lost
    text. With a chunk size of 10 and an overlap of 2 the document
    `"a\n\nbcdefghijklmnop"` shows it: `start` goes 0, -1, 7, 15, 25 and
    `"bcde"` is in no chunk. */
module ChunkerLoss {
  import opened PyStrings
  import opened Chunker

  /** The letters b to p. */
  const Letters: string := seq(15, i requires 0 <= i < 15 => (98 + i) as char)
  const Short: string := "a" + "\n\n" + Letters

  lemma LettersAt(i: int)
    requires 0 <= i < 15
    ensures Letters[i] == (98 + i) as char && Letters[i] != '\n' && !IsSpace(Letters[i])
    ensures Letters[i] != '.' && Letters[i] != '!' && Letters[i] != '?'
  {
  }

  lemma ShortShape()
    ensures |Short| == 18 && Short[0] == 'a' && Short[1] == '\n' && Short[2] == '\n'
    ensures forall i :: 3 <= i < 18 ==> Short[i] == Letters[i - 3]
    ensures forall i :: 0 <= i < 18 && i != 1 && i != 2 ==>
              Short[i] != '\n' && Short[i] != '.' && Short[i] != '!' && Short[i] != '?' && !IsSpace(Short[i])
  {
    forall i | 3 <= i < 18
      ensures Short[i] == Letters[i - 3]
      ensures Short[i] != '\n' && Short[i] != '.' && Short[i] != '!' && Short[i] != '?' && !IsSpace(Short[i])
    {
      LettersAt(i - 3);
    }
  }

  lemma {:induction false} NoNewlineOf(s: string)
    requires forall i :: 0 <= i < |s| ==> s[i] != '\n'
    ensures NoNewline(s)
  {
    if |s| > 0 {
      NoNewlineOf(s[1..]);
    }
  }

  /** The blank line is a single match of the substitution, replaced by
      itself. */
  lemma CollapseShortBreak(rest: string)
    requires rest == "\n\n" + Letters
    ensures CollapseBlankLines(rest) == "\n\n" + CollapseBlankLines(Letters)
  {
    LettersAt(0);
    assert IsSpace('\n');
    assert rest[1] == '\n' && rest[2] == Letters[0];
    assert SpaceRunEnd(rest, 1) == 2;
    assert LastNewline(rest, 1, 2) == 1;
    assert rest[2..] == Letters;
  }

  /** The document is already normalised and stripped. */
  lemma PrepareShort()
    ensures Prepare(Short) == Short
  {
    var rest := "\n\n" + Letters;
    assert Short == "a" + rest;
    assert NoNewline("a");
    CollapseNoNewline("a", rest);
    CollapseShortBreak(rest);
    forall i | 0 <= i < |Letters| ensures Letters[i] != '\n' {
      LettersAt(i);
    }
    NoNewlineOf(Letters);
    CollapseNoNewline(Letters, []);
    assert Letters + [] == Letters;
    assert CollapseBlankLines(Short) == Short;
    ShortShape();
    assert Stripped(Short);
    StrippedStrip(Short);
  }

  /** The only paragraph break is at 1. */
  lemma OnlyBreakAt1(k: int)
    requires OccursAt(Short, "\n\n", k)
    ensures k == 1
  {
    ShortShape();
    assert Short[k..k + 2][0] == Short[k] && Short[k..k + 2][1] == Short[k + 1];
  }

  /** There is no sentence break. */
  lemma NoSentenceBreak(k: int)
    ensures !SentenceAt(Short, k)
  {
    ShortShape();
    if 0 <= k && k + 2 <= |Short| {
      assert Short[k..k + 2][0] == Short[k];
    }
  }

  /** At 0 the window is cut at the blank line after "a", and the loop
      steps back to 1 - 2 = -1. */
  lemma StepAt0()
    ensures Step(Short, 10, 2, 0) == Window("a", 1, -1)
  {
    ShortShape();
    assert Short[1..3] == "\n\n";
    assert OccursAt(Short, "\n\n", 1);
    assert FindStart(0, 18) == 0 && SliceIndex(10, 18) == 10;
    var pb := RFind(Short, "\n\n", 0, 10);
    assert pb != -1;
    OnlyBreakAt1(pb);
    assert Slice(Short, 0, 1) == "a";
    assert !IsSpace('a');
    StrippedStrip("a");
  }

  /** At -1 Python reads `text[17:9]`: an empty window, searched in vain,
      after which the loop goes to 9 - 2 = 7. */
  lemma StepAtMinus1()
    ensures Step(Short, 10, 2, -1) == Window([], 9, 7)
  {
    ShortShape();
    assert RFind(Short, "\n\n", -1, 9) == -1;
    assert RFind(Short, ". ", -1, 9) == -1;
    assert RFind(Short, "! ", -1, 9) == -1;
    assert RFind(Short, "? ", -1, 9) == -1;
    assert Slice(Short, -1, 9) == [];
  }

  /** At 7 the window `text[7:17]` has no break and is taken whole. */
  lemma CutAt7()
    ensures Cut(Short, 10, 7) == 17
  {
    ShortShape();
    var pb := RFind(Short, "\n\n", 7, 17);
    if pb != -1 {
      OnlyBreakAt1(pb);
    }
    var sb := LastSentenceBreak(Short, 7, 17);
    if sb != -1 {
      NoSentenceBreak(sb);
    }
  }

  /** The text of the window at 7 is the letters f to o. */
  lemma SliceAt7()
    ensures Slice(Short, 7, 17) == Letters[4..14]
  {
    ShortShape();
    assert FindStart(7, 18) == 7 && SliceIndex(17, 18) == 17;
  }

  lemma StepAt7()
    ensures Step(Short, 10, 2, 7) == Window(Letters[4..14], 17, 15)
  {
    CutAt7();
    SliceAt7();
    LettersAt(4);
    LettersAt(13);
    StrippedStrip(Letters[4..14]);
  }

  /** At 15 the last window reaches past the end. */
  lemma StepAt15()
    ensures Step(Short, 10, 2, 15) == Window(Letters[12..], 25, 25)
  {
    ShortShape();
    assert Slice(Short, 15, 25) == Letters[12..];
    StrippedStrip(Letters[12..]);
  }

  lemma Spelling()
    ensures Letters[4..14] == "fghijklmno" && Letters[12..] == "nop"
  {
  }

  lemma {:induction false} RunFrom15(fuel: nat)
    requires fuel >= 1
    ensures RunFrom(Short, 10, 2, 15, fuel) == Run([Letters[12..]], true)
  {
    StepAt15();
    RunFromStep(Short, 10, 2, 15, fuel);
    assert RunFrom(Short, 10, 2, 25, fuel - 1) == Run([], true);
  }

  lemma {:induction false} RunFrom7(fuel: nat)
    requires fuel >= 2
    ensures RunFrom(Short, 10, 2, 7, fuel) == Run([Letters[4..14], Letters[12..]], true)
  {
    StepAt7();
    RunFromStep(Short, 10, 2, 7, fuel);
    RunFrom15(fuel - 1);
  }

  /** From -1 the empty window emits nothing. */
  lemma {:induction false} RunFromMinus1(fuel: nat)
    requires fuel >= 3
    ensures RunFrom(Short, 10, 2, -1, fuel) == Run([Letters[4..14], Letters[12..]], true)
  {
    StepAtMinus1();
    RunFromStep(Short, 10, 2, -1, fuel);
    RunFrom7(fuel - 1);
  }

  lemma {:induction false} RunFrom0(fuel: nat)
    requires fuel >= 4
    ensures RunFrom(Short, 10, 2, 0, fuel) == Run(["a", Letters[4..14], Letters[12..]], true)
  {
    StepAt0();
    RunFromStep(Short, 10, 2, 0, fuel);
    RunFromMinus1(fuel - 1);
  }

  /** `_chunk_text` as written finishes on this document, with three
      chunks that leave out "bcde". */
  lemma {:induction false} AsWrittenDropsText(fuel: nat)
    requires fuel >= 4
    ensures ChunkTextAsWritten(Short, 10, 2, fuel) == Run(["a", "fghijklmno", "nop"], true)
  {
    PrepareShort();
    ShortShape();
    RunFrom0(fuel);
    Spelling();
  }

  /** The corrected loop keeps "b", the first of the lost characters, in
      one of its chunks. */
  lemma CorrectedKeepsText()
    ensures Short[3] == 'b'
    ensures InSome(Pieces(Short, 10, 2, 0), 3)
  {
    ShortShape();
    LettersAt(0);
    PiecesCover(Short, 10, 2, 0, 3);
  }
}
