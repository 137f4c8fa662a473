/** The testimonial helpers of src/endpoints/testimonials/base.ts: the rating
    check and the message clean-up `message.trim().replace(/\s+/g, ' ')`. */
module Testimonials {

  /** `Number.isInteger(rating) && rating >= 1 && rating <= 5`: exactly the
      five whole ratings pass. */
  function ValidateRating(rating: real): (b: bool)
    ensures b <==> rating in {1.0, 2.0, 3.0, 4.0, 5.0}
  {
    WholeOneToFive(rating);
    rating == rating.Floor as real && rating >= 1.0 && rating <= 5.0
  }

  lemma WholeOneToFive(rating: real)
    ensures (rating == rating.Floor as real && rating >= 1.0 && rating <= 5.0)
            <==> rating in {1.0, 2.0, 3.0, 4.0, 5.0}
  {
    if rating == rating.Floor as real && rating >= 1.0 && rating <= 5.0 {
      var n := rating.Floor;
      assert 1 <= n <= 5;
      assert n == 1 || n == 2 || n == 3 || n == 4 || n == 5;
    }
  }

  /** The characters JavaScript's `\s` and `trim` treat as white space: the
      ECMAScript WhiteSpace and LineTerminator sets. */
  predicate IsSpace(c: char) {
    c in SpaceChars || '\U{2000}' <= c <= '\U{200A}'
  }

  const SpaceChars: set<char> :=
    {'\t', '\n', '\U{0B}', '\U{0C}', '\r', ' ', '\U{A0}', '\U{1680}',
     '\U{2028}', '\U{2029}', '\U{202F}', '\U{205F}', '\U{3000}', '\U{FEFF}'}

  /** Leading white space removed. */
  function TrimStart(s: string): (r: string)
    ensures |r| <= |s| && r == s[|s| - |r|..]
    ensures r == "" || !IsSpace(r[0])
    ensures forall i :: 0 <= i < |s| - |r| ==> IsSpace(s[i])
    decreases |s|
  {
    if |s| > 0 && IsSpace(s[0]) then TrimStart(s[1..]) else s
  }

  /** Trailing white space removed. */
  function TrimEnd(s: string): (r: string)
    ensures |r| <= |s| && r == s[..|r|]
    ensures r == "" || !IsSpace(r[|r| - 1])
    ensures forall i :: |r| <= i < |s| ==> IsSpace(s[i])
    decreases |s|
  {
    if |s| > 0 && IsSpace(s[|s| - 1]) then TrimEnd(s[..|s| - 1]) else s
  }

  /** `String.prototype.trim`. */
  function Trim(s: string): (r: string)
    ensures r == "" || (!IsSpace(r[0]) && !IsSpace(r[|r| - 1]))
  {
    TrimEnd(TrimStart(s))
  }

  /** What `trim` removes: the trimmed string is a slice of `s` with only
      white space outside it, and it is empty exactly when `s` is all white
      space. */
  lemma TrimIsInnerSlice(s: string)
    ensures var r, k := Trim(s), |s| - |TrimStart(s)|;
            && k + |r| <= |s| && r == s[k..k + |r|]
            && (forall i :: 0 <= i < k ==> IsSpace(s[i]))
            && (forall i :: k + |r| <= i < |s| ==> IsSpace(s[i]))
            && (r == "" <==> forall i :: 0 <= i < |s| ==> IsSpace(s[i]))
  {
  }

  /** The longest white-space-free prefix of `s`. */
  function LeadingWord(s: string): (w: string)
    ensures |w| <= |s| && w == s[..|w|]
    ensures forall i :: 0 <= i < |w| ==> !IsSpace(w[i])
    ensures |w| < |s| ==> IsSpace(s[|w|])
    ensures |s| > 0 && !IsSpace(s[0]) ==> |w| > 0
    decreases |s|
  {
    if |s| == 0 || IsSpace(s[0]) then "" else [s[0]] + LeadingWord(s[1..])
  }

  /** The words of `s`, i.e. its maximal runs of non-white-space characters,
      written in order with one plain space between two neighbours. */
  function SpacedWords(s: string): string
    decreases |s|
  {
    var t := TrimStart(s);
    if t == "" then ""
    else
      var w := LeadingWord(t);
      var more := SpacedWords(t[|w|..]);
      if more == "" then w else w + " " + more
  }

  /** The joined words neither start nor end with white space, and their only
      white space is single plain spaces. */
  lemma {:induction false} SpacedWordsShape(s: string)
    ensures Tidy(SpacedWords(s))
    decreases |s|
  {
    var t := TrimStart(s);
    if t != "" {
      var rest := t[|LeadingWord(t)|..];
      SpacedWordsShape(rest);
      TidyStep(s, t, rest);
    }
  }

  /** No white space at either end, and only single plain spaces inside. */
  predicate Tidy(r: string) {
    (r == "" || (!IsSpace(r[0]) && !IsSpace(r[|r| - 1]))) && SingleSpaced(r)
  }

  lemma TidyStep(s: string, t: string, rest: string)
    requires TrimStart(s) == t && t != "" && rest == t[|LeadingWord(t)|..]
    requires Tidy(SpacedWords(rest))
    ensures Tidy(SpacedWords(s))
  {
    SpacedWordsStep(s, t);
    TrimStartOfWordStart(t);
    WordAtStart(t);
    if SpacedWords(rest) != "" {
      WordThenMore(LeadingWord(t), SpacedWords(rest));
    }
  }

  /** Every white-space character is a plain space and no two are adjacent. */
  predicate SingleSpaced(r: string) {
    && (forall i :: 0 <= i < |r| && IsSpace(r[i]) ==> r[i] == ' ')
    && (forall i :: 0 <= i < |r| - 1 ==> !(IsSpace(r[i]) && IsSpace(r[i + 1])))
  }

  /** A non-empty run of non-white-space characters. */
  predicate IsWord(w: string) {
    w != "" && forall i :: 0 <= i < |w| ==> !IsSpace(w[i])
  }

  lemma WordAtStart(t: string)
    requires TrimStart(t) == t && t != ""
    ensures IsWord(LeadingWord(t))
  {
  }

  lemma WordThenMore(w: string, more: string)
    requires IsWord(w)
    requires more != "" && Tidy(more)
    ensures Tidy(w + " " + more)
  {
    var r := w + " " + more;
    assert forall i :: |w| < i < |r| ==> r[i] == more[i - |w| - 1];
  }

  /** One step of `SpacedWords`, for a string whose white-space-stripped form
      `t` is known. */
  lemma SpacedWordsStep(s: string, t: string)
    requires TrimStart(s) == t && t != ""
    ensures var w := LeadingWord(t);
            var more := SpacedWords(t[|w|..]);
            SpacedWords(s) == if more == "" then w else w + " " + more
  {
  }

  /** White space alone has no word. */
  lemma SpacedWordsOfSpaces(s: string)
    requires forall i :: 0 <= i < |s| ==> IsSpace(s[i])
    ensures SpacedWords(s) == ""
  {
    assert TrimStart(s) == "";
  }

  lemma SliceOfConcat(a: string, b: string, k: nat)
    requires k <= |a|
    ensures (a + b)[k..] == a[k..] + b
  {
  }

  /** One plain space standing for white space at the front of `s`. */
  function LeadSpace(s: string): string {
    if s != "" && IsSpace(s[0]) then " " else ""
  }

  /** One plain space standing for white space at the end of `s`, unless `s`
      is all white space (then the leading one already stands for all of it). */
  function TrailSpace(s: string): string {
    if s != "" && IsSpace(s[|s| - 1]) && TrimStart(s) != "" then " " else ""
  }

  /** Stripping leading white space changes nothing when there is none. */
  lemma TrimStartOfWordStart(s: string)
    requires s == "" || !IsSpace(s[0])
    ensures TrimStart(s) == s
  {
  }

  /** `replace(/\s+/g, ' ')`: every run of white space replaced by one plain space. */
  function Collapse(s: string): (r: string)
    ensures r == LeadSpace(s) + SpacedWords(s) + TrailSpace(s)
    decreases |s|
  {
    if |s| == 0 then ""
    else if IsSpace(s[0]) then
      var rest := TrimStart(s);
      SpaceRunJoined(s, rest, Collapse(rest));
      " " + Collapse(rest)
    else
      var w := LeadingWord(s);
      var rest := s[|w|..];
      WordJoined(s, rest, Collapse(rest));
      w + Collapse(rest)
  }

  /** The collapsed string is no longer than the original, is empty only when
      the original is, starts and ends with white space exactly when the
      original does, and holds only single plain spaces. */
  lemma CollapseShape(s: string)
    ensures var r := Collapse(s);
            && |r| <= |s|
            && (r == "" <==> s == "")
            && (r != "" ==> (IsSpace(r[0]) <==> IsSpace(s[0])) && (IsSpace(r[|r| - 1]) <==> IsSpace(s[|s| - 1])))
            && SingleSpaced(r)
  {
    CollapseNoLonger(s);
    if TrimStart(s) == "" {
      BlankShape(s);
    } else {
      WordyShape(s);
    }
  }

  lemma BlankShape(s: string)
    requires TrimStart(s) == ""
    ensures var r := Collapse(s);
            && (r == "" <==> s == "")
            && (r != "" ==> (IsSpace(r[0]) <==> IsSpace(s[0])) && (IsSpace(r[|r| - 1]) <==> IsSpace(s[|s| - 1])))
            && SingleSpaced(r)
  {
    SpacedWordsEmpty(s);
    LastOfBlank(s);
    BlankPadded(s, LeadSpace(s), Collapse(s));
  }

  lemma BlankPadded(s: string, a: string, r: string)
    requires s == "" || (IsSpace(s[0]) && IsSpace(s[|s| - 1]))
    requires a == if s == "" then "" else " "
    requires r == a + "" + ""
    ensures r == "" <==> s == ""
    ensures r != "" ==> (IsSpace(r[0]) <==> IsSpace(s[0])) && (IsSpace(r[|r| - 1]) <==> IsSpace(s[|s| - 1]))
    ensures SingleSpaced(r)
  {
    EmptyFront(a);
  }

  lemma WordyShape(s: string)
    requires TrimStart(s) != ""
    ensures var r := Collapse(s);
            && r != "" && s != ""
            && (IsSpace(r[0]) <==> IsSpace(s[0])) && (IsSpace(r[|r| - 1]) <==> IsSpace(s[|s| - 1]))
            && SingleSpaced(r)
  {
    SpacedWordsShape(s);
    SpacedWordsEmpty(s);
    PaddedEnds(s);
    PaddedShape(s, LeadSpace(s), SpacedWords(s), TrailSpace(s), Collapse(s));
  }

  lemma PaddedShape(s: string, a: string, m: string, b: string, r: string)
    requires s != "" && r == a + m + b
    requires a == "" || a == " "
    requires b == "" || b == " "
    requires m != "" && Tidy(m)
    requires a == " " <==> IsSpace(s[0])
    requires b == " " <==> IsSpace(s[|s| - 1])
    ensures r != ""
    ensures (IsSpace(r[0]) <==> IsSpace(s[0])) && (IsSpace(r[|r| - 1]) <==> IsSpace(s[|s| - 1]))
    ensures SingleSpaced(r)
  {
    PaddedTidy(a, m, b);
  }

  /** With a word in `s`, the padding spaces stand exactly for white space at
      the ends of `s`. */
  lemma PaddedEnds(s: string)
    requires TrimStart(s) != ""
    ensures s != ""
    ensures LeadSpace(s) == " " <==> IsSpace(s[0])
    ensures TrailSpace(s) == " " <==> IsSpace(s[|s| - 1])
  {
  }

  lemma {:induction false} CollapseNoLonger(s: string)
    ensures |Collapse(s)| <= |s|
    decreases |s|
  {
    if |s| > 0 {
      if IsSpace(s[0]) {
        CollapseNoLonger(TrimStart(s));
        CollapseSpaceUnfold(s);
      } else {
        CollapseNoLonger(s[|LeadingWord(s)|..]);
        CollapseWordUnfold(s);
      }
    }
  }

  /** A tidy non-empty string with at most one plain space added at either end
      is still single-spaced, and its ends are white space exactly where a space
      was added. */
  lemma PaddedTidy(a: string, m: string, b: string)
    requires a == "" || a == " "
    requires b == "" || b == " "
    requires m != "" && Tidy(m)
    ensures var r := a + m + b;
            && (IsSpace(r[0]) <==> a == " ")
            && (IsSpace(r[|r| - 1]) <==> b == " ")
            && SingleSpaced(r)
  {
    var r := a + m + b;
    assert forall i :: |a| <= i < |a| + |m| ==> r[i] == m[i - |a|];
  }

  /** The step of `Collapse` at a white-space run agrees with the words. */
  lemma SpaceRunJoined(s: string, rest: string, c: string)
    requires |s| > 0 && IsSpace(s[0]) && rest == TrimStart(s)
    requires c == LeadSpace(rest) + SpacedWords(rest) + TrailSpace(rest)
    ensures " " + c == LeadSpace(s) + SpacedWords(s) + TrailSpace(s)
  {
    TrimmedEnds(s);
    SpacedWordsOfTrimStart(s);
    JoinedParts(" ", SpacedWords(s), TrailSpace(s));
  }

  /** Stripping leading white space leaves nothing for `LeadSpace` and does
      not change `TrailSpace`. */
  lemma TrimmedEnds(s: string)
    ensures LeadSpace(TrimStart(s)) == ""
    ensures TrailSpace(TrimStart(s)) == TrailSpace(s)
  {
    var t := TrimStart(s);
    if t != "" {
      LastOfTrimStart(s);
      TrimStartOfWordStart(t);
      SameTrail(s, t);
    }
  }

  lemma SameTrail(s: string, t: string)
    requires s != "" && t != "" && s[|s| - 1] == t[|t| - 1]
    requires TrimStart(s) != "" && TrimStart(t) != ""
    ensures TrailSpace(s) == TrailSpace(t)
  {
  }

  lemma LastOfTrimStart(s: string)
    ensures TrimStart(s) != "" ==> TrimStart(s)[|TrimStart(s)| - 1] == s[|s| - 1]
  {
  }

  /** Leading white space carries no word. */
  lemma SpacedWordsOfTrimStart(s: string)
    ensures SpacedWords(TrimStart(s)) == SpacedWords(s)
  {
    var t := TrimStart(s);
    TrimStartOfWordStart(t);
    if t != "" {
      SpacedWordsStep(s, t);
      SpacedWordsStep(t, t);
    }
  }

  lemma JoinedParts(a: string, b: string, d: string)
    ensures a + ("" + b + d) == a + b + d
    ensures a + (" " + b + d) == "" + (a + " " + b) + d
  {
  }

  lemma EmptyFront(a: string)
    ensures a == "" + a + "" == "" + a
  {
  }

  /** The step of `Collapse` at a word agrees with the words. */
  lemma WordJoined(s: string, rest: string, c: string)
    requires |s| > 0 && !IsSpace(s[0]) && rest == s[|LeadingWord(s)|..]
    requires c == LeadSpace(rest) + SpacedWords(rest) + TrailSpace(rest)
    ensures LeadingWord(s) + c == LeadSpace(s) + SpacedWords(s) + TrailSpace(s)
  {
    var w := LeadingWord(s);
    SpacedWordsOfWordStart(s);
    SpacedWordsEmpty(rest);
    WordRestEnds(s);
    if SpacedWords(rest) == "" {
      WordThenBlank(w, LeadSpace(rest), TrailSpace(s));
    } else {
      JoinedParts(w, SpacedWords(rest), TrailSpace(s));
    }
  }

  /** After a leading word: the rest starts with white space when it is
      non-empty, and its trailing space is that of the whole string, except
      that a blank rest gives its one space through `LeadSpace`. */
  lemma WordRestEnds(s: string)
    requires |s| > 0 && !IsSpace(s[0])
    ensures var rest := s[|LeadingWord(s)|..];
            && LeadSpace(s) == ""
            && (rest != "" ==> LeadSpace(rest) == " ")
            && (TrimStart(rest) != "" ==> TrailSpace(rest) == TrailSpace(s))
            && (TrimStart(rest) == "" ==> TrailSpace(rest) == "" && TrailSpace(s) == LeadSpace(rest))
  {
    var w := LeadingWord(s);
    var rest := s[|w|..];
    TrimStartOfWordStart(s);
    if rest == "" {
      LastOfWord(s);
    } else {
      RestStartsBlank(s);
      LastOfSuffix(s, |w|);
      if TrimStart(rest) != "" {
        SameTrail(rest, s);
      } else {
        LastOfBlank(rest);
        BlankEnd(s);
      }
    }
  }

  lemma RestStartsBlank(s: string)
    requires |LeadingWord(s)| < |s|
    ensures LeadSpace(s[|LeadingWord(s)|..]) == " "
  {
  }

  lemma BlankEnd(s: string)
    requires s != "" && IsSpace(s[|s| - 1]) && TrimStart(s) == s
    ensures TrailSpace(s) == " "
  {
  }

  lemma WordThenBlank(w: string, l: string, t: string)
    requires l == t
    ensures w + (l + "" + "") == "" + w + t
  {
  }

  /** At a word, the words are that word followed by the words of the rest. */
  lemma SpacedWordsOfWordStart(s: string)
    requires |s| > 0 && !IsSpace(s[0])
    ensures var w := LeadingWord(s);
            var more := SpacedWords(s[|w|..]);
            SpacedWords(s) == if more == "" then w else w + " " + more
  {
    TrimStartOfWordStart(s);
    SpacedWordsStep(s, s);
  }

  /** A string has no word exactly when it is all white space. */
  lemma SpacedWordsEmpty(s: string)
    ensures SpacedWords(s) == "" <==> TrimStart(s) == ""
  {
    var t := TrimStart(s);
    if t != "" {
      SpacedWordsStep(s, t);
    }
  }

  lemma LastOfSuffix(s: string, k: nat)
    requires k <= |s|
    ensures k < |s| ==> s[k..][|s| - k - 1] == s[|s| - 1]
  {
  }

  lemma LastOfBlank(s: string)
    requires TrimStart(s) == ""
    ensures s == "" || IsSpace(s[|s| - 1])
  {
  }

  /** A word that is all of `s` ends in a non-white-space character. */
  lemma LastOfWord(s: string)
    requires |LeadingWord(s)| == |s|
    ensures LeadingWord(s) == s
    ensures s == "" || !IsSpace(s[|s| - 1])
  {
  }

  /** The non-white-space characters of `s`, in order. */
  function Visible(s: string): string
    decreases |s|
  {
    if |s| == 0 then "" else (if IsSpace(s[0]) then "" else [s[0]]) + Visible(s[1..])
  }

  /** `sanitizeMessage`: the words of the message joined by single plain spaces. */
  function SanitizeMessage(message: string): (r: string)
    ensures r == SpacedWords(message)
    ensures Tidy(r)
  {
    SpacedWordsOfTrim(message);
    SpacedWordsShape(message);
    CollapseOfTrimmed(Trim(message));
    Collapse(Trim(message))
  }

  /** Without white space at either end, collapsing gives exactly the joined words. */
  lemma CollapseOfTrimmed(x: string)
    requires x == "" || (!IsSpace(x[0]) && !IsSpace(x[|x| - 1]))
    ensures Collapse(x) == SpacedWords(x)
  {
    assert LeadSpace(x) == "" && TrailSpace(x) == "";
    EmptyFront(SpacedWords(x));
  }

  /** Sanitizing loses no visible character and adds none. */
  lemma SanitizeKeepsVisible(message: string)
    ensures Visible(SanitizeMessage(message)) == Visible(message)
  {
    VisibleOfSpacedWords(message);
  }

  lemma {:induction false} VisibleConcat(a: string, b: string)
    ensures Visible(a + b) == Visible(a) + Visible(b)
    decreases |a|
  {
    if |a| == 0 {
      assert a + b == b;
    } else {
      assert (a + b)[1..] == a[1..] + b;
      VisibleConcat(a[1..], b);
    }
  }

  lemma {:induction false} VisibleOfSpaces(s: string)
    requires forall i :: 0 <= i < |s| ==> IsSpace(s[i])
    ensures Visible(s) == ""
    decreases |s|
  {
    if |s| > 0 {
      VisibleOfSpaces(s[1..]);
    }
  }

  /** White space in front of `s` is invisible. */
  lemma SpacePrefixInvisible(p: string, s: string)
    requires forall i :: 0 <= i < |p| ==> IsSpace(p[i])
    ensures Visible(p + s) == Visible(s)
  {
    VisibleConcat(p, s);
    VisibleOfSpaces(p);
  }

  /** White space behind `s` is invisible. */
  lemma SpaceSuffixInvisible(s: string, p: string)
    requires forall i :: 0 <= i < |p| ==> IsSpace(p[i])
    ensures Visible(s + p) == Visible(s)
  {
    VisibleConcat(s, p);
    VisibleOfSpaces(p);
  }

  lemma VisibleOfTrimStart(s: string)
    ensures Visible(TrimStart(s)) == Visible(s)
  {
    var a := TrimStart(s);
    var p := s[..|s| - |a|];
    assert s == p + a;
    SpacePrefixInvisible(p, a);
  }

  lemma VisibleOfTrimEnd(s: string)
    ensures Visible(TrimEnd(s)) == Visible(s)
  {
    var b := TrimEnd(s);
    var p := s[|b|..];
    assert s == b + p;
    SpaceSuffixInvisible(b, p);
  }

  lemma VisibleOfTrim(s: string)
    ensures Visible(Trim(s)) == Visible(s)
  {
    VisibleOfTrimStart(s);
    VisibleOfTrimEnd(TrimStart(s));
  }

  /** Joining the words keeps every visible character, in order. */
  lemma {:induction false} VisibleOfSpacedWords(s: string)
    ensures Visible(SpacedWords(s)) == Visible(s)
    decreases |s|
  {
    var t := TrimStart(s);
    VisibleOfTrimStart(s);
    if t == "" {
      SpacedWordsEmpty(s);
    } else {
      VisibleOfSpacedWords(t[|LeadingWord(t)|..]);
      VisibleWordsStep(s, t);
    }
  }

  lemma VisibleWordsStep(s: string, t: string)
    requires TrimStart(s) == t && t != ""
    requires Visible(SpacedWords(t[|LeadingWord(t)|..])) == Visible(t[|LeadingWord(t)|..])
    requires Visible(t) == Visible(s)
    ensures Visible(SpacedWords(s)) == Visible(s)
  {
    var k := |LeadingWord(t)|;
    SpacedWordsStep(s, t);
    WordIsPrefix(t);
    VisibleJoin(t, k, SpacedWords(t[k..]), SpacedWords(s));
  }

  lemma WordIsPrefix(t: string)
    ensures forall i :: 0 <= i < |LeadingWord(t)| ==> !IsSpace(t[i])
  {
    var w := LeadingWord(t);
    assert forall i :: 0 <= i < |w| ==> t[i] == w[i];
  }

  /** A word, then the rest with its visible characters kept, possibly behind
      one plain space, keeps the visible characters of the whole. */
  lemma VisibleJoin(t: string, k: nat, more: string, r: string)
    requires k <= |t| && forall i :: 0 <= i < k ==> !IsSpace(t[i])
    requires Visible(more) == Visible(t[k..])
    requires r == if more == "" then t[..k] else t[..k] + " " + more
    ensures Visible(r) == Visible(t)
  {
    if more == "" {
      EmptyBack(t[..k]);
      VisibleWordThen(t, k, more);
    } else {
      VisibleSpaceThen(more);
      VisibleWordThen(t, k, " " + more);
      Assoc(t[..k], " ", more);
    }
  }

  lemma EmptyBack(a: string)
    ensures a + "" == a
  {
  }

  lemma Assoc(a: string, b: string, c: string)
    ensures a + b + c == a + (b + c)
  {
  }

  lemma VisibleSpaceThen(m: string)
    ensures Visible(" " + m) == Visible(m)
  {
    assert (" " + m)[1..] == m;
  }

  lemma CollapseSpaceUnfold(s: string)
    requires |s| > 0 && IsSpace(s[0])
    ensures Collapse(s) == " " + Collapse(TrimStart(s))
  {
  }

  lemma CollapseWordUnfold(s: string)
    requires |s| > 0 && !IsSpace(s[0])
    ensures Collapse(s) == LeadingWord(s) + Collapse(s[|LeadingWord(s)|..])
  {
  }

  lemma VisibleWordThen(s: string, k: nat, c: string)
    requires k <= |s| && forall i :: 0 <= i < k ==> !IsSpace(s[i])
    requires Visible(c) == Visible(s[k..])
    ensures Visible(s[..k] + c) == Visible(s)
  {
    assert s == s[..k] + s[k..];
    VisibleAfterWord(s[..k], c);
    VisibleAfterWord(s[..k], s[k..]);
  }

  lemma VisibleAfterWord(w: string, x: string)
    requires forall i :: 0 <= i < |w| ==> !IsSpace(w[i])
    ensures Visible(w + x) == w + Visible(x)
  {
    VisibleConcat(w, x);
    VisibleOfWord(w);
  }

  /** A word is all visible. */
  lemma {:induction false} VisibleOfWord(w: string)
    requires forall i :: 0 <= i < |w| ==> !IsSpace(w[i])
    ensures Visible(w) == w
    decreases |w|
  {
    if |w| > 0 {
      VisibleOfWord(w[1..]);
      assert w == [w[0]] + w[1..];
    }
  }

  /** White space after the last word adds no word. */
  lemma {:induction false} SpacedWordsSpaceSuffix(x: string, sp: string)
    requires forall i :: 0 <= i < |sp| ==> IsSpace(sp[i])
    ensures SpacedWords(x + sp) == SpacedWords(x)
    decreases |x|
  {
    var a := TrimStart(x);
    if a == "" {
      SpacedWordsOfSpaces(x + sp) by {
        assert forall i :: 0 <= i < |x + sp| ==> IsSpace((x + sp)[i]);
      }
      SpacedWordsOfSpaces(x);
    } else {
      var w := LeadingWord(a);
      var b := a[|w|..];
      assert TrimStart(x + sp) == a + sp by { TrimStartConcat(x, sp); }
      assert LeadingWord(a + sp) == w by { LeadingWordConcat(a, sp); }
      SliceOfConcat(a, sp, |w|);
      SpacedWordsSpaceSuffix(b, sp);
      SpacedWordsStep(x, a);
      SpacedWordsStep(x + sp, a + sp);
    }
  }

  lemma {:induction false} TrimStartConcat(x: string, y: string)
    requires TrimStart(x) != ""
    ensures TrimStart(x + y) == TrimStart(x) + y
    decreases |x|
  {
    if IsSpace(x[0]) {
      assert (x + y)[1..] == x[1..] + y;
      TrimStartConcat(x[1..], y);
    }
  }

  lemma {:induction false} LeadingWordConcat(a: string, y: string)
    requires y == "" || IsSpace(y[0])
    ensures LeadingWord(a + y) == LeadingWord(a)
    decreases |a|
  {
    if |a| == 0 {
      assert a + y == y;
    } else if !IsSpace(a[0]) {
      assert (a + y)[1..] == a[1..] + y;
      LeadingWordConcat(a[1..], y);
    }
  }

  lemma TrimEndSplits(s: string)
    ensures s == TrimEnd(s) + s[|TrimEnd(s)|..]
    ensures forall i :: 0 <= i < |s[|TrimEnd(s)|..]| ==> IsSpace(s[|TrimEnd(s)|..][i])
  {
  }

  /** Trimming keeps the words. */
  lemma SpacedWordsOfTrim(m: string)
    ensures SpacedWords(Trim(m)) == SpacedWords(m)
  {
    SpacedWordsOfTrimStart(m);
    var a := TrimStart(m);
    TrimEndSplits(a);
    SpacedWordsSpaceSuffix(TrimEnd(a), a[|TrimEnd(a)|..]);
  }

  /** Joining the words of a string that is already tidy gives it back. */
  lemma {:induction false} SpacedWordsFixesTidy(r: string)
    requires Tidy(r)
    ensures SpacedWords(r) == r
    decreases |r|
  {
    if r != "" {
      var k := |LeadingWord(r)|;
      if k < |r| {
        TidyTail(r);
        SpacedWordsFixesTidy(r[k + 1..]);
        TidyFixStep(r);
      } else {
        LastOfWord(r);
        TrimStartOfWordStart(r);
        SpacedWordsStep(r, r);
        SpacedWordsEmpty(r[k..]);
      }
    }
  }

  /** After the first word of a tidy string come one plain space and a tidy rest. */
  lemma TidyTail(r: string)
    requires Tidy(r) && r != "" && |LeadingWord(r)| < |r|
    ensures var k := |LeadingWord(r)|;
            k + 1 < |r| && r[k] == ' ' && Tidy(r[k + 1..]) && r[k + 1..] != ""
            && TrimStart(r[k..]) == r[k + 1..]
  {
    var k := |LeadingWord(r)|;
    SpaceThenWord(r, k);
    SingleSpacedSuffix(r, k + 1);
    TrimOneSpace(r, k);
  }

  /** In a tidy string a space is a plain one, followed by a non-space. */
  lemma SpaceThenWord(r: string, k: nat)
    requires Tidy(r) && r != "" && k < |r| && IsSpace(r[k])
    ensures k + 1 < |r| && r[k] == ' ' && !IsSpace(r[k + 1])
  {
  }

  lemma TrimOneSpace(r: string, k: nat)
    requires k + 1 < |r| && IsSpace(r[k]) && !IsSpace(r[k + 1])
    ensures TrimStart(r[k..]) == r[k + 1..]
  {
    assert r[k..][1..] == r[k + 1..];
    TrimStartOfWordStart(r[k + 1..]);
  }

  lemma SingleSpacedSuffix(r: string, j: nat)
    requires j <= |r| && SingleSpaced(r)
    ensures SingleSpaced(r[j..])
  {
    assert forall i :: 0 <= i < |r| - j ==> r[j..][i] == r[j + i];
  }

  lemma TidyFixStep(r: string)
    requires Tidy(r) && r != "" && |LeadingWord(r)| < |r|
    requires var k := |LeadingWord(r)|;
             k + 1 < |r| && r[k] == ' ' && r[k + 1..] != ""
             && TrimStart(r[k..]) == r[k + 1..] && SpacedWords(r[k + 1..]) == r[k + 1..]
    ensures SpacedWords(r) == r
  {
    var k := |LeadingWord(r)|;
    TrimStartOfWordStart(r);
    SpacedWordsStep(r, r);
    SpacedWordsOfTrimStart(r[k..]);
    SpaceSplit(r, k);
  }

  lemma SpaceSplit(r: string, k: nat)
    requires k < |r| && r[k] == ' '
    ensures r == r[..k] + " " + r[k + 1..]
  {
  }

  /** Sanitizing twice is sanitizing once. */
  lemma SanitizeIdempotent(message: string)
    ensures SanitizeMessage(SanitizeMessage(message)) == SanitizeMessage(message)
  {
    SpacedWordsFixesTidy(SanitizeMessage(message));
  }

  /** A message of white space only is emptied. */
  lemma SanitizeBlank(message: string)
    requires forall i :: 0 <= i < |message| ==> IsSpace(message[i])
    ensures SanitizeMessage(message) == ""
  {
    SpacedWordsOfSpaces(message);
  }
}
