/**
 * Text normalisation run before every label and token search: a pipeline of
 * character rewrites (utils/text_utils.py, normalize_text).
 */
module TextUtils {
  import opened Chars

  const Nbsp: char := '\U{a0}'
  const Rupee: char := '\U{20b9}'

  /** En dash, em dash and the minus sign. */
  predicate IsDashVariant(c: char) {
    c == '\U{2013}' || c == '\U{2014}' || c == '\U{2212}'
  }

  /** No dash variant occurs. */
  predicate NoDash(s: string) {
    forall c :: c in s ==> !IsDashVariant(c)
  }

  /** No whitespace character directly follows a rupee sign. */
  predicate NoSpaceAfterRupee(s: string) {
    forall i :: 0 <= i < |s| - 1 && s[i] == Rupee ==> !IsSpace(s[i + 1])
  }

  /** No two spaces stand next to each other. */
  predicate NoDoubleSpace(s: string) {
    forall i :: 0 <= i < |s| - 1 && s[i] == ' ' ==> s[i + 1] != ' '
  }

  /** Rewrites every character through `f`, leaving the length alone. */
  function MapChars(s: string, f: char -> char): (r: string)
    ensures |r| == |s|
    ensures forall i :: 0 <= i < |s| ==> r[i] == f(s[i])
  {
    if |s| == 0 then "" else [f(s[0])] + MapChars(s[1..], f)
  }

  function NbspToSpace(c: char): char { if c == Nbsp then ' ' else c }

  function DashToHyphen(c: char): char { if IsDashVariant(c) then '-' else c }

  /**
   * `\r\n` and a lone `\r` each become one `\n`; every other character,
   * `\n` included, is kept in order.
   */
  function JoinLineEndings(s: string): (r: string)
    ensures '\r' !in r
    ensures |r| <= |s|
    ensures forall c :: c in r ==> c in s || c == '\n'
    ensures Remove(r, '\n') == Remove(Remove(s, '\r'), '\n')
  {
    if |s| == 0 then ""
    else if s[0] == '\r' then
      var rest := if |s| > 1 && s[1] == '\n' then s[2..] else s[1..];
      var r := "\n" + JoinLineEndings(rest);
      assert r[1..] == JoinLineEndings(rest);
      if |s| > 1 && s[1] == '\n' then
        assert s[1..][1..] == rest;
        r
      else
        r
    else
      var r := [s[0]] + JoinLineEndings(s[1..]);
      assert r[1..] == JoinLineEndings(s[1..]);
      r
  }

  /**
   * `(?i)\bRs\.?\s*` replaced by the rupee sign, scanning left to right;
   * `afterWord` says whether the character before `s` is a word character,
   * which rules out the word boundary.
   */
  function RsToRupee(s: string, afterWord: bool): (r: string)
    ensures |r| <= |s|
    ensures forall c :: c in r ==> c in s || c == Rupee
    ensures 'r' !in s && 'R' !in s ==> r == s
    decreases |s|
  {
    if |s| == 0 then ""
    else if !afterWord && |s| >= 2 && (s[0] == 'R' || s[0] == 'r') && (s[1] == 's' || s[1] == 'S') then
      var k := if |s| > 2 && s[2] == '.' then 3 else 2;
      var j := SkipSpace(s, k);
      var r := [Rupee] + RsToRupee(s[j..], IsWordChar(s[j - 1]));
      assert forall c :: c in r[1..] ==> c in s[j..] || c == Rupee;
      r
    else
      var r := [s[0]] + RsToRupee(s[1..], IsWordChar(s[0]));
      assert r[1..] == RsToRupee(s[1..], IsWordChar(s[0]));
      r
  }

  /** `\u20b9\s*` replaced by `\u20b9`: whitespace after a rupee sign is dropped. */
  function DropSpaceAfterRupee(s: string): (r: string)
    ensures NoSpaceAfterRupee(r)
    ensures |r| <= |s|
    ensures |r| > 0 <==> |s| > 0
    ensures |r| > 0 ==> r[0] == s[0]
    ensures forall c :: c in r ==> c in s
    ensures NoSpaceAfterRupee(s) ==> r == s
  {
    if |s| == 0 then ""
    else if s[0] == Rupee then
      var j := SkipSpace(s, 1);
      var r := [Rupee] + DropSpaceAfterRupee(s[j..]);
      assert r[1..] == DropSpaceAfterRupee(s[j..]);
      assert NoSpaceAfterRupee(s) ==> j == 1;
      r
    else
      var r := [s[0]] + DropSpaceAfterRupee(s[1..]);
      assert r[1..] == DropSpaceAfterRupee(s[1..]);
      r
  }

  /** `[ \t]+` replaced by one space. */
  function CollapseBlanks(s: string): (r: string)
    ensures '\t' !in r
    ensures NoDoubleSpace(r)
    ensures |r| <= |s|
    ensures |r| > 0 <==> |s| > 0
    ensures |r| > 0 ==> if IsBlank(s[0]) then r[0] == ' ' else r[0] == s[0]
  {
    if |s| == 0 then ""
    else if IsBlank(s[0]) then
      var r := [' '] + CollapseBlanks(s[Run(s, 0, IsBlank)..]);
      r
    else
      [s[0]] + CollapseBlanks(s[1..])
  }

  /** Collapsing blanks introduces no character but the space. */
  lemma {:induction false} CollapseBlanksChars(s: string)
    ensures forall c :: c in CollapseBlanks(s) ==> c in s || c == ' '
  {
    if |s| > 0 {
      if IsBlank(s[0]) {
        var j := Run(s, 0, IsBlank);
        CollapseBlanksChars(s[j..]);
        assert CollapseBlanks(s) == [' '] + CollapseBlanks(s[j..]);
      } else {
        CollapseBlanksChars(s[1..]);
        assert CollapseBlanks(s) == [s[0]] + CollapseBlanks(s[1..]);
      }
    }
  }

  /** Collapsing blanks puts no whitespace after a rupee sign that had none. */
  lemma {:induction false} CollapseBlanksKeepsRupee(s: string)
    requires NoSpaceAfterRupee(s)
    ensures NoSpaceAfterRupee(CollapseBlanks(s))
  {
    if |s| > 0 {
      if IsBlank(s[0]) {
        var j := Run(s, 0, IsBlank);
        assert NoSpaceAfterRupee(s[j..]) by {
          forall i | 0 <= i < |s[j..]| - 1 && s[j..][i] == Rupee ensures !IsSpace(s[j..][i + 1]) {
            assert s[j + i] == Rupee;
          }
        }
        CollapseBlanksKeepsRupee(s[j..]);
        assert CollapseBlanks(s) == [' '] + CollapseBlanks(s[j..]);
      } else {
        assert NoSpaceAfterRupee(s[1..]) by {
          forall i | 0 <= i < |s[1..]| - 1 && s[1..][i] == Rupee ensures !IsSpace(s[1..][i + 1]) {
            assert s[1 + i] == Rupee;
          }
        }
        CollapseBlanksKeepsRupee(s[1..]);
        var r := CollapseBlanks(s);
        assert r == [s[0]] + CollapseBlanks(s[1..]);
        if s[0] == Rupee && |r| > 1 {
          assert |s| > 1;
          assert !IsSpace(s[1]);
          assert r[1] == s[1];
        }
      }
    }
  }

  /** Text without tabs or double spaces is left as it is. */
  lemma {:induction false} CollapseBlanksFixpoint(s: string)
    requires '\t' !in s && NoDoubleSpace(s)
    ensures CollapseBlanks(s) == s
  {
    if |s| > 0 {
      assert NoDoubleSpace(s[1..]) by {
        forall i | 0 <= i < |s[1..]| - 1 && s[1..][i] == ' ' ensures s[1..][i + 1] != ' ' {
          assert s[1 + i] == ' ';
        }
      }
      CollapseBlanksFixpoint(s[1..]);
      if IsBlank(s[0]) {
        assert |s| > 1 ==> !IsBlank(s[1]);
        assert Run(s, 0, IsBlank) == 1;
      }
    }
  }

  /** The whole normalisation pipeline, `normalize_text`. */
  function NormalizeText(t: string): (r: string)
    ensures t == "" ==> r == ""
    ensures Nbsp !in r && '\r' !in r
    ensures NoDash(r)
    ensures NoSpaceAfterRupee(r)
    ensures '\t' !in r && NoDoubleSpace(r)
    ensures |r| > 0 ==> !IsSpace(r[0]) && !IsSpace(r[|r| - 1])
  {
    if t == "" then ""
    else
      var s1 := MapChars(t, NbspToSpace);
      assert Nbsp !in s1 by {
        forall i | 0 <= i < |s1| ensures s1[i] != Nbsp { }
      }
      var s2 := JoinLineEndings(s1);
      var s3 := MapChars(s2, DashToHyphen);
      assert Nbsp !in s3 && '\r' !in s3 && NoDash(s3) by {
        forall i | 0 <= i < |s3| ensures s3[i] != Nbsp && s3[i] != '\r' && !IsDashVariant(s3[i]) {
          assert s2[i] in s2;
        }
      }
      var s4 := RsToRupee(s3, false);
      assert Nbsp !in s4 && '\r' !in s4 && NoDash(s4);
      var s5 := DropSpaceAfterRupee(s4);
      assert Nbsp !in s5 && '\r' !in s5 && NoDash(s5);
      var s6 := CollapseBlanks(s5);
      CollapseBlanksChars(s5);
      CollapseBlanksKeepsRupee(s5);
      assert Nbsp !in s6 && '\r' !in s6 && NoDash(s6);
      var r := Strip(s6);
      SliceKeeps(s6, r);
      r
  }

  /** A slice of a normalised-so-far string keeps its character-level guarantees. */
  lemma SliceKeeps(s: string, r: string)
    requires exists a, b :: 0 <= a <= b <= |s| && r == s[a..b]
    ensures forall c :: c in r ==> c in s
    ensures NoSpaceAfterRupee(s) ==> NoSpaceAfterRupee(r)
    ensures NoDoubleSpace(s) ==> NoDoubleSpace(r)
  {
    var a, b :| 0 <= a <= b <= |s| && r == s[a..b];
    assert forall i :: 0 <= i < |r| ==> r[i] == s[a + i];
  }

  /** `Rs` in either case, as `(?i)Rs` reads two characters. */
  predicate IsRs(a: char, b: char) {
    (a == 'R' || a == 'r') && (b == 's' || b == 'S')
  }

  /** `(?i)\bRs` finds nothing: every `Rs` follows a word character. */
  predicate NoRsWord(s: string, afterWord: bool) {
    forall i :: 0 <= i < |s| && RsAt(s, i) ==> if i == 0 then afterWord else IsWordChar(s[i - 1])
  }

  /** `Rs`, case ignored, at position `i`. */
  predicate RsAt(s: string, i: nat) {
    i + 1 < |s| && IsRs(s[i], s[i + 1])
  }

  /** Where no `Rs` starts a word, the rupee rewrite copies one character and moves on. */
  lemma RsStep(s: string, afterWord: bool)
    requires |s| > 0 && !(!afterWord && |s| >= 2 && IsRs(s[0], s[1]))
    ensures RsToRupee(s, afterWord) == [s[0]] + RsToRupee(s[1..], IsWordChar(s[0]))
  {
  }

  /** Text in which the rupee rewrite finds nothing is left as it is. */
  lemma {:induction false} RsToRupeeFixed(s: string, afterWord: bool)
    requires NoRsWord(s, afterWord)
    ensures RsToRupee(s, afterWord) == s
    decreases |s|
  {
    if |s| > 0 {
      assert RsAt(s, 0) ==> afterWord;
      assert NoRsWord(s[1..], IsWordChar(s[0])) by {
        forall i | 0 <= i < |s[1..]| && RsAt(s[1..], i)
          ensures if i == 0 then IsWordChar(s[0]) else IsWordChar(s[1..][i - 1])
        {
          assert RsAt(s, i + 1);
        }
      }
      RsStep(s, afterWord);
      RsToRupeeFixed(s[1..], IsWordChar(s[0]));
      assert s == [s[0]] + s[1..];
    }
  }

  /** One step of the line-ending rewrite, read off the front of the text. */
  lemma JoinStep(s: string)
    requires |s| > 0
    ensures s[0] == '\r' && |s| > 1 && s[1] == '\n' ==> JoinLineEndings(s) == "\n" + JoinLineEndings(s[2..])
    ensures s[0] == '\r' && !(|s| > 1 && s[1] == '\n') ==> JoinLineEndings(s) == "\n" + JoinLineEndings(s[1..])
    ensures s[0] != '\r' ==> JoinLineEndings(s) == [s[0]] + JoinLineEndings(s[1..])
  {
  }

  /** Text without a carriage return keeps its line endings. */
  lemma {:induction false} JoinLineEndingsFixed(s: string)
    requires '\r' !in s
    ensures JoinLineEndings(s) == s
    decreases |s|
  {
    if |s| > 0 {
      assert s[0] in s;
      JoinStep(s);
      JoinLineEndingsFixed(s[1..]);
      assert s == [s[0]] + s[1..];
    }
  }

  /** Line endings are rewritten piece by piece, as long as the cut does not split a `\r\n`. */
  lemma {:induction false} JoinLineEndingsAppend(a: string, b: string)
    requires |a| == 0 || a[|a| - 1] != '\r'
    ensures JoinLineEndings(a + b) == JoinLineEndings(a) + JoinLineEndings(b)
    decreases |a|
  {
    if |a| == 0 {
      assert a + b == b;
    } else {
      var k := if a[0] == '\r' && a[1] == '\n' then 2 else 1;
      var head := if a[0] == '\r' then "\n" else [a[0]];
      assert (a + b)[0] == a[0] && (|a| > 1 ==> (a + b)[1] == a[1]);
      assert (a + b)[k..] == a[k..] + b;
      assert |a[k..]| > 0 ==> a[k..][|a[k..]| - 1] == a[|a| - 1];
      JoinStep(a);
      JoinStep(a + b);
      assert JoinLineEndings(a) == head + JoinLineEndings(a[k..]);
      assert JoinLineEndings(a + b) == head + JoinLineEndings(a[k..] + b);
      JoinLineEndingsAppend(a[k..], b);
      ConcatAssoc(head, JoinLineEndings(a[k..]), JoinLineEndings(b));
    }
  }

  lemma ConcatAssoc(x: string, y: string, z: string)
    ensures x + (y + z) == (x + y) + z
  {
  }

  /** `\r\n` becomes one `\n`. */
  lemma CrLfBecomesLf(a: string, b: string)
    requires |a| == 0 || a[|a| - 1] != '\r'
    ensures JoinLineEndings(a + "\r\n" + b) == JoinLineEndings(a) + "\n" + JoinLineEndings(b)
  {
    var w := "\r\n" + b;
    JoinLineEndingsAppend(a, w);
    assert a + "\r\n" + b == a + w;
    JoinStep(w);
    assert w[2..] == b;
    ConcatAssoc(JoinLineEndings(a), "\n", JoinLineEndings(b));
  }

  /** A carriage return not followed by `\n` becomes one `\n` too. */
  lemma LoneCrBecomesLf(a: string, b: string)
    requires |a| == 0 || a[|a| - 1] != '\r'
    requires |b| == 0 || b[0] != '\n'
    ensures JoinLineEndings(a + "\r" + b) == JoinLineEndings(a) + "\n" + JoinLineEndings(b)
  {
    var w := "\r" + b;
    JoinLineEndingsAppend(a, w);
    assert a + "\r" + b == a + w;
    JoinStep(w);
    assert w[1..] == b;
    ConcatAssoc(JoinLineEndings(a), "\n", JoinLineEndings(b));
  }

  /** A character map that fixes every character of `s` leaves `s` alone. */
  lemma MapCharsFixed(s: string, f: char -> char)
    requires forall i :: 0 <= i < |s| ==> f(s[i]) == s[i]
    ensures MapChars(s, f) == s
  {
  }

  /**
   * Text that is already what `normalize_text` produces: no NBSP, carriage
   * return or dash variant, no `Rs` starting a word, no whitespace after the
   * rupee sign, no tab or double space, and no whitespace at either end.
   */
  predicate IsNormalText(t: string) {
    && Nbsp !in t && '\r' !in t && NoDash(t) && NoRsWord(t, false)
    && NoSpaceAfterRupee(t) && '\t' !in t && NoDoubleSpace(t)
    && (|t| > 0 ==> !IsSpace(t[0]) && !IsSpace(t[|t| - 1]))
  }

  /** The rupee, blank and strip steps leave text of that kind alone. */
  lemma LaterStepsKeep(s: string)
    requires IsNormalText(s)
    ensures Strip(CollapseBlanks(DropSpaceAfterRupee(RsToRupee(s, false)))) == s
  {
    RsToRupeeFixed(s, false);
    CollapseBlanksFixpoint(s);
    StripUnchanged(s);
  }

  /** `normalize_text` leaves normal text unchanged. */
  lemma NormalTextIsKept(t: string)
    requires IsNormalText(t)
    ensures NormalizeText(t) == t
  {
    if t != "" {
      assert forall i :: 0 <= i < |t| ==> t[i] in t;
      MapCharsFixed(t, NbspToSpace);
      JoinLineEndingsFixed(t);
      MapCharsFixed(t, DashToHyphen);
      LaterStepsKeep(t);
    }
  }

  /**
   * Text with no whitespace, no `R`/`r` and no rupee sign is only touched by
   * the dash step: each en dash, em dash or minus sign becomes `-`.
   */
  lemma DashesBecomeHyphens(t: string)
    requires forall c :: c in t ==> !IsSpace(c) && c != 'R' && c != 'r' && c != Rupee
    ensures NormalizeText(t) == MapChars(t, DashToHyphen)
  {
    if t != "" {
      assert forall i :: 0 <= i < |t| ==> t[i] in t;
      MapCharsFixed(t, NbspToSpace);
      JoinLineEndingsFixed(t);
      HyphenatedIsNormal(t);
      LaterStepsKeep(MapChars(t, DashToHyphen));
    }
  }

  /** Mapping the dashes of such a text gives normal text. */
  lemma HyphenatedIsNormal(t: string)
    requires forall c :: c in t ==> !IsSpace(c) && c != 'R' && c != 'r' && c != Rupee
    ensures IsNormalText(MapChars(t, DashToHyphen))
  {
    var m := MapChars(t, DashToHyphen);
    forall i | 0 <= i < |m|
      ensures !IsSpace(m[i]) && m[i] != 'R' && m[i] != 'r' && m[i] != Rupee && !IsDashVariant(m[i])
    {
      assert t[i] in t;
    }
    assert forall c :: c in m ==> !IsSpace(c) && !IsDashVariant(c);
    assert NoRsWord(m, false) by {
      forall i | 0 <= i < |m| && RsAt(m, i)
        ensures false
      {
      }
    }
  }
}
