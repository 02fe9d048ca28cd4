/**
 * Which OCR renderings of a label the fuzzy matcher accepts: every letter
 * repeated one or more times, blanks inserted after letters, and the label's
 * own spaces found among those blanks.
 */
module FuzzyVariants {
  import opened Wrappers
  import opened Chars
  import opened FuzzyLabel

  /** `n` copies of `c`. */
  function Copies(c: char, n: nat): (r: string)
    ensures |r| == n && forall k :: 0 <= k < n ==> r[k] == c
  {
    if n == 0 then "" else [c] + Copies(c, n - 1)
  }

  /**
   * The phrase from its `i`-th character on, as OCR may render it: letter `j`
   * written `counts[j]` times and followed by `gaps[j]` blanks. The phrase's
   * own spaces add nothing: they are found among the blanks before them.
   */
  function VariantFrom(phrase: string, counts: seq<nat>, gaps: seq<nat>, i: nat): (v: string)
    requires |counts| == |phrase| && |gaps| == |phrase| && i <= |phrase|
    decreases |phrase| - i
  {
    if i == |phrase| then ""
    else if IsLetter(phrase[i]) then
      Copies(phrase[i], counts[i]) + Copies(' ', gaps[i]) + VariantFrom(phrase, counts, gaps, i + 1)
    else VariantFrom(phrase, counts, gaps, i + 1)
  }

  /**
   * Repetition counts and blank runs that make a variant of a fuzzy label:
   * every letter written at least once, and at least one blank wherever the
   * phrase has a space.
   */
  predicate IsVariantShape(phrase: string, counts: seq<nat>, gaps: seq<nat>) {
    && IsFuzzyLabel(phrase) && |counts| == |phrase| && |gaps| == |phrase|
    && (forall i :: 0 <= i < |phrase| && IsLetter(phrase[i]) ==> counts[i] >= 1)
    && (forall i :: 0 <= i < |phrase| - 1 && phrase[i + 1] == ' ' ==> gaps[i] >= 1)
  }

  /** A variant from a letter position starts with that letter. */
  lemma VariantHead(phrase: string, counts: seq<nat>, gaps: seq<nat>, i: nat)
    requires IsVariantShape(phrase, counts, gaps) && i < |phrase| && IsLetter(phrase[i])
    ensures |VariantFrom(phrase, counts, gaps, i)| > 0 && VariantFrom(phrase, counts, gaps, i)[0] == phrase[i]
  {
  }

  /** Before the phrase is used up, what is left of a variant starts with a letter. */
  lemma VariantRest(phrase: string, counts: seq<nat>, gaps: seq<nat>, i: nat)
    requires IsVariantShape(phrase, counts, gaps) && i < |phrase|
    ensures |VariantFrom(phrase, counts, gaps, i)| > 0 && IsLetter(VariantFrom(phrase, counts, gaps, i)[0])
    ensures !IsLetter(phrase[i]) ==> i + 1 < |phrase| && IsLetter(phrase[i + 1])
  {
    if IsLetter(phrase[i]) {
      VariantHead(phrase, counts, gaps, i);
    } else {
      assert i + 1 < |phrase| && IsLetter(phrase[i + 1]);
      VariantHead(phrase, counts, gaps, i + 1);
      assert VariantFrom(phrase, counts, gaps, i) == VariantFrom(phrase, counts, gaps, i + 1);
    }
  }

  /**
   * The text from `pos` to `e` is laid out as the phrase from its `i`-th
   * character on: each letter's run of `counts[i]` copies stops where the
   * next piece starts, followed by exactly `gaps[i]` whitespace characters,
   * and each space of the phrase sits just after such whitespace.
   */
  predicate Laid(s: string, phrase: string, counts: seq<nat>, gaps: seq<nat>, i: nat, pos: nat, e: nat)
    requires |counts| == |phrase| && |gaps| == |phrase| && i <= |phrase|
    decreases |phrase| - i
  {
    if i == |phrase| then pos == e <= |s|
    else if IsLetter(phrase[i]) then
      && pos + counts[i] <= |s| && counts[i] >= 1
      && CaseRun(s, pos, phrase[i]) == counts[i]
      && SpaceRun(s, pos + counts[i]) == gaps[i]
      && (i + 1 < |phrase| && !IsLetter(phrase[i + 1]) ==> gaps[i] >= 1)
      && Laid(s, phrase, counts, gaps, i + 1, pos + counts[i] + gaps[i], e)
    else
      && 0 < pos <= |s| && s[pos - 1] == phrase[i]
      && (i + 1 < |phrase| ==> IsLetter(phrase[i + 1]))
      && Laid(s, phrase, counts, gaps, i + 1, pos, e)
  }

  /** The walk over a laid-out phrase consumes exactly the layout. */
  lemma {:induction false} WalkAcceptsLaid(s: string, phrase: string, counts: seq<nat>, gaps: seq<nat>,
                                           i: nat, pos: nat, spaceFrom: nat, runStart: nat, e: nat)
    requires |counts| == |phrase| && |gaps| == |phrase| && i <= |phrase|
    requires spaceFrom <= pos <= |s| && runStart <= pos
    requires Laid(s, phrase, counts, gaps, i, pos, e)
    requires i < |phrase| && !IsLetter(phrase[i]) ==> spaceFrom < pos
    ensures Walk(s, phrase, i, pos, spaceFrom, runStart).Some?
    ensures Walk(s, phrase, i, pos, spaceFrom, runStart).value.1 == e
    decreases |phrase| - i
  {
    if i < |phrase| {
      if IsLetter(phrase[i]) {
        LaidLetterStep(s, phrase, counts, gaps, i, pos, spaceFrom, runStart, e);
        WalkAcceptsLaid(s, phrase, counts, gaps, i + 1, pos + counts[i] + gaps[i], pos + counts[i], pos, e);
      } else {
        LaidSpaceStep(s, phrase, counts, gaps, i, pos, spaceFrom, runStart, e);
        WalkAcceptsLaid(s, phrase, counts, gaps, i + 1, pos, pos, runStart, e);
      }
    }
  }

  /** A letter of a laid-out phrase: the walk takes its run and the whitespace after it. */
  lemma LaidLetterStep(s: string, phrase: string, counts: seq<nat>, gaps: seq<nat>,
                       i: nat, pos: nat, spaceFrom: nat, runStart: nat, e: nat)
    requires |counts| == |phrase| && |gaps| == |phrase| && i < |phrase| && IsLetter(phrase[i])
    requires spaceFrom <= pos <= |s| && runStart <= pos
    requires Laid(s, phrase, counts, gaps, i, pos, e)
    ensures pos + counts[i] + gaps[i] <= |s|
    ensures Laid(s, phrase, counts, gaps, i + 1, pos + counts[i] + gaps[i], e)
    ensures i + 1 < |phrase| && !IsLetter(phrase[i + 1]) ==> pos + counts[i] < pos + counts[i] + gaps[i]
    ensures Walk(s, phrase, i, pos, spaceFrom, runStart) ==
            Walk(s, phrase, i + 1, pos + counts[i] + gaps[i], pos + counts[i], pos)
  {
  }

  /** A space of a laid-out phrase: the walk finds it in the whitespace just taken. */
  lemma LaidSpaceStep(s: string, phrase: string, counts: seq<nat>, gaps: seq<nat>,
                      i: nat, pos: nat, spaceFrom: nat, runStart: nat, e: nat)
    requires |counts| == |phrase| && |gaps| == |phrase| && i < |phrase| && !IsLetter(phrase[i])
    requires spaceFrom < pos <= |s| && runStart <= pos
    requires Laid(s, phrase, counts, gaps, i, pos, e)
    ensures Laid(s, phrase, counts, gaps, i + 1, pos, e)
    ensures i + 1 < |phrase| ==> IsLetter(phrase[i + 1])
    ensures Walk(s, phrase, i, pos, spaceFrom, runStart) == Walk(s, phrase, i + 1, pos, pos, runStart)
  {
    OccursAtEnd(s, phrase[i], spaceFrom, pos);
  }

  /** A character just before `to` occurs in `s[from..to]`. */
  lemma {:induction false} OccursAtEnd(s: string, c: char, from: nat, to: nat)
    requires from < to <= |s| && s[to - 1] == c
    ensures OccursIn(s, c, from, to)
    decreases |s| - from
  {
    if s[from] != c {
      OccursAtEnd(s, c, from + 1, to);
    }
  }

  /** A variant written at `pos` and ending cleanly is laid out as the phrase. */
  lemma {:induction false} VariantIsLaid(s: string, phrase: string, counts: seq<nat>, gaps: seq<nat>, i: nat, pos: nat)
    requires IsVariantShape(phrase, counts, gaps) && i <= |phrase|
    requires LiteralAt(s, pos, VariantFrom(phrase, counts, gaps, i))
    requires i < |phrase| && phrase[i] == ' ' ==> 0 < pos && s[pos - 1] == ' '
    requires EndsCleanly(s, pos + |VariantFrom(phrase, counts, gaps, i)|, phrase)
    ensures Laid(s, phrase, counts, gaps, i, pos, pos + |VariantFrom(phrase, counts, gaps, i)|)
    decreases |phrase| - i
  {
    if i < |phrase| {
      if IsLetter(phrase[i]) {
        VariantTail(s, phrase, counts, gaps, i, pos);
        VariantIsLaid(s, phrase, counts, gaps, i + 1, pos + counts[i] + gaps[i]);
        LetterPiece(s, phrase, counts, gaps, i, pos);
      } else {
        VariantRest(phrase, counts, gaps, i);
        assert VariantFrom(phrase, counts, gaps, i) == VariantFrom(phrase, counts, gaps, i + 1);
        VariantIsLaid(s, phrase, counts, gaps, i + 1, pos);
        LaidSpace(s, phrase, counts, gaps, i, pos, pos + |VariantFrom(phrase, counts, gaps, i)|);
      }
    }
  }

  /** A letter's run and blanks, in front of a laid-out rest, lay out the phrase from that letter. */
  lemma LaidLetter(s: string, phrase: string, counts: seq<nat>, gaps: seq<nat>, i: nat, pos: nat, e: nat)
    requires |counts| == |phrase| && |gaps| == |phrase| && i < |phrase| && IsLetter(phrase[i])
    requires pos + counts[i] + gaps[i] <= |s| && counts[i] >= 1
    requires CaseRun(s, pos, phrase[i]) == counts[i] && SpaceRun(s, pos + counts[i]) == gaps[i]
    requires i + 1 < |phrase| && !IsLetter(phrase[i + 1]) ==> gaps[i] >= 1
    requires Laid(s, phrase, counts, gaps, i + 1, pos + counts[i] + gaps[i], e)
    ensures Laid(s, phrase, counts, gaps, i, pos, e)
  {
  }

  /** A space found just before `pos`, in front of a laid-out rest, lays out the phrase from that space. */
  lemma LaidSpace(s: string, phrase: string, counts: seq<nat>, gaps: seq<nat>, i: nat, pos: nat, e: nat)
    requires |counts| == |phrase| && |gaps| == |phrase| && i < |phrase| && !IsLetter(phrase[i])
    requires 0 < pos <= |s| && s[pos - 1] == phrase[i]
    requires i + 1 < |phrase| ==> IsLetter(phrase[i + 1])
    requires Laid(s, phrase, counts, gaps, i + 1, pos, e)
    ensures Laid(s, phrase, counts, gaps, i, pos, e)
  {
  }

  /** Letter `i` of a variant, in front of a laid-out rest: the layout extends over the letter. */
  lemma LetterPiece(s: string, phrase: string, counts: seq<nat>, gaps: seq<nat>, i: nat, pos: nat)
    requires IsVariantShape(phrase, counts, gaps) && i < |phrase| && IsLetter(phrase[i])
    requires LiteralAt(s, pos, VariantFrom(phrase, counts, gaps, i))
    requires EndsCleanly(s, pos + |VariantFrom(phrase, counts, gaps, i)|, phrase)
    requires Laid(s, phrase, counts, gaps, i + 1, pos + counts[i] + gaps[i], pos + |VariantFrom(phrase, counts, gaps, i)|)
    ensures Laid(s, phrase, counts, gaps, i, pos, pos + |VariantFrom(phrase, counts, gaps, i)|)
  {
    LetterRun(s, phrase, counts, gaps, i, pos);
    SkipGap(s, phrase, counts, gaps, i, pos);
    VariantTail(s, phrase, counts, gaps, i, pos);
    LaidLetter(s, phrase, counts, gaps, i, pos, pos + |VariantFrom(phrase, counts, gaps, i)|);
  }

  /** A variant from letter `i` written at `pos`: the letter's copies, its blanks, then the rest. */
  lemma VariantSplit(s: string, phrase: string, counts: seq<nat>, gaps: seq<nat>, i: nat, pos: nat)
    requires |counts| == |phrase| && |gaps| == |phrase| && i < |phrase| && IsLetter(phrase[i])
    requires LiteralAt(s, pos, VariantFrom(phrase, counts, gaps, i))
    ensures |VariantFrom(phrase, counts, gaps, i)| == counts[i] + gaps[i] + |VariantFrom(phrase, counts, gaps, i + 1)|
    ensures forall j :: pos <= j < pos + counts[i] ==> s[j] == phrase[i]
    ensures forall j :: pos + counts[i] <= j < pos + counts[i] + gaps[i] ==> s[j] == ' '
    ensures LiteralAt(s, pos + counts[i] + gaps[i], VariantFrom(phrase, counts, gaps, i + 1))
  {
    var c, k, g := phrase[i], counts[i], gaps[i];
    var v := VariantFrom(phrase, counts, gaps, i);
    var rest := VariantFrom(phrase, counts, gaps, i + 1);
    assert v == Copies(c, k) + Copies(' ', g) + rest;
    assert s[pos..pos + |v|] == v;
    forall j | pos <= j < pos + k + g
      ensures s[j] == v[j - pos]
    {
    }
    assert s[pos + k + g..pos + k + g + |rest|] == v[k + g..] == rest;
  }

  /** The first character of a literal occurrence. */
  lemma LiteralHead(s: string, i: nat, w: string)
    requires LiteralAt(s, i, w) && |w| > 0
    ensures s[i] == w[0]
  {
    assert s[i..i + |w|][0] == w[0];
  }

  /** After letter `i` and its blanks, the text holds the rest of the variant. */
  lemma VariantTail(s: string, phrase: string, counts: seq<nat>, gaps: seq<nat>, i: nat, pos: nat)
    requires IsVariantShape(phrase, counts, gaps) && i < |phrase| && IsLetter(phrase[i])
    requires LiteralAt(s, pos, VariantFrom(phrase, counts, gaps, i))
    ensures LiteralAt(s, pos + counts[i] + gaps[i], VariantFrom(phrase, counts, gaps, i + 1))
    ensures pos + counts[i] + gaps[i] + |VariantFrom(phrase, counts, gaps, i + 1)| == pos + |VariantFrom(phrase, counts, gaps, i)|
    ensures i + 1 < |phrase| && phrase[i + 1] == ' ' ==> gaps[i] >= 1 && s[pos + counts[i] + gaps[i] - 1] == ' '
  {
    VariantSplit(s, phrase, counts, gaps, i, pos);
  }

  /** Letters are not whitespace. */
  lemma LetterIsNotSpace(c: char)
    requires IsLetter(c)
    ensures !IsSpace(c)
  {
  }

  /** After the variant: the end of the text, or a character that neither extends the last letter run nor is blank. */
  predicate EndsCleanly(s: string, e: nat, phrase: string)
    requires EndsInLetter(phrase)
  {
    e <= |s| && (e < |s| ==> !IsSpace(s[e]) && !SameIgnoringCase(s[e], phrase[|phrase| - 1]))
  }

  /** The run of letter `i` in a variant is exactly its `counts[i]` copies. */
  lemma LetterRun(s: string, phrase: string, counts: seq<nat>, gaps: seq<nat>, i: nat, pos: nat)
    requires IsVariantShape(phrase, counts, gaps) && i < |phrase| && IsLetter(phrase[i])
    requires LiteralAt(s, pos, VariantFrom(phrase, counts, gaps, i))
    requires EndsCleanly(s, pos + |VariantFrom(phrase, counts, gaps, i)|, phrase)
    ensures CaseRun(s, pos, phrase[i]) == counts[i]
  {
    var c, k, g := phrase[i], counts[i], gaps[i];
    var rest := VariantFrom(phrase, counts, gaps, i + 1);
    VariantSplit(s, phrase, counts, gaps, i, pos);
    if pos + k < |s| {
      if g > 0 {
        assert s[pos + k] == ' ';
      } else if i + 1 < |phrase| {
        VariantRest(phrase, counts, gaps, i + 1);
        VariantHead(phrase, counts, gaps, i + 1);
        LiteralHead(s, pos + k, rest);
        assert s[pos + k] == phrase[i + 1];
      }
    }
    CaseRunIs(s, pos, c, k);
  }

  /** The blanks after letter `i` in a variant are exactly its `gaps[i]` blanks. */
  lemma SkipGap(s: string, phrase: string, counts: seq<nat>, gaps: seq<nat>, i: nat, pos: nat)
    requires IsVariantShape(phrase, counts, gaps) && i < |phrase| && IsLetter(phrase[i])
    requires LiteralAt(s, pos, VariantFrom(phrase, counts, gaps, i))
    requires EndsCleanly(s, pos + |VariantFrom(phrase, counts, gaps, i)|, phrase)
    ensures pos + counts[i] + gaps[i] <= |s|
    ensures SpaceRun(s, pos + counts[i]) == gaps[i]
  {
    var k, g := counts[i], gaps[i];
    var rest := VariantFrom(phrase, counts, gaps, i + 1);
    VariantSplit(s, phrase, counts, gaps, i, pos);
    if pos + k + g < |s| && i + 1 < |phrase| {
      VariantRest(phrase, counts, gaps, i + 1);
      LiteralHead(s, pos + k + g, rest);
      LetterIsNotSpace(rest[0]);
    }
    SpaceRunIs(s, pos + k, g);
  }

  /**
   * The OCR tolerance of the label pattern: a variant of a fuzzy label, letters
   * repeated and blanks inserted as `IsVariantShape` allows, matches at the
   * place it is written, and the match covers the whole variant.
   */
  lemma VariantMatches(s: string, p: nat, phrase: string, counts: seq<nat>, gaps: seq<nat>)
    requires IsVariantShape(phrase, counts, gaps)
    requires LiteralAt(s, p, VariantFrom(phrase, counts, gaps, 0))
    requires EndsCleanly(s, p + |VariantFrom(phrase, counts, gaps, 0)|, phrase)
    ensures MatchAt(s, p, phrase).Some?
    ensures MatchAt(s, p, phrase).value.1 == p + |VariantFrom(phrase, counts, gaps, 0)|
  {
    VariantIsLaid(s, phrase, counts, gaps, 0, p);
    WalkAcceptsLaid(s, phrase, counts, gaps, 0, p, p, p, p + |VariantFrom(phrase, counts, gaps, 0)|);
  }

  /** "PAY BY" written with a doubled P, a doubled Y and two blanks: the whole rendering matches. */
  lemma DoubledLettersExample()
    ensures MatchAt("PPAYY  BY", 0, "PAY BY").Some?
    ensures MatchAt("PPAYY  BY", 0, "PAY BY").value.1 == 9
  {
    var s, phrase, counts, gaps := "PPAYY  BY", "PAY BY", [2, 1, 2, 0, 1, 1], [0, 0, 2, 0, 0, 0];
    PayByShape();
    PayByVariant();
    assert LiteralAt(s, 0, VariantFrom(phrase, counts, gaps, 0)) by {
      assert s[0..9] == s;
    }
    VariantMatches(s, 0, phrase, counts, gaps);
  }

  /** The shape used by `DoubledLettersExample`. */
  lemma PayByShape()
    ensures IsVariantShape("PAY BY", [2, 1, 2, 0, 1, 1], [0, 0, 2, 0, 0, 0])
  {
    var phrase := "PAY BY";
    assert phrase[0] == 'P' && phrase[1] == 'A' && phrase[2] == 'Y';
    assert phrase[3] == ' ' && phrase[4] == 'B' && phrase[5] == 'Y';
  }

  /** The rendering used by `DoubledLettersExample`. */
  lemma PayByVariant()
    ensures VariantFrom("PAY BY", [2, 1, 2, 0, 1, 1], [0, 0, 2, 0, 0, 0], 0) == "PPAYY  BY"
  {
    var phrase, counts, gaps := "PAY BY", [2, 1, 2, 0, 1, 1], [0, 0, 2, 0, 0, 0];
    assert VariantFrom(phrase, counts, gaps, 5) == "Y" by {
      assert Copies('Y', 1) == "Y";
    }
    assert VariantFrom(phrase, counts, gaps, 3) == "BY" by {
      assert Copies('B', 1) == "B";
    }
    assert VariantFrom(phrase, counts, gaps, 2) == "YY  BY" by {
      assert Copies('Y', 2) == "YY" && Copies(' ', 2) == "  ";
    }
    assert VariantFrom(phrase, counts, gaps, 1) == "AYY  BY" by {
      assert Copies('A', 1) == "A";
    }
    assert Copies('P', 2) == "PP";
  }
}
