/**
 * The sentence splitter of the chunk exporter: the successive matches that
 * `Matcher.find` reports for the pattern `[^.!?\n]+[.!?\n]*`, falling back to
 * the whole text when there is no match
 * (ChunkExporter.splitIntoSentences).
 */
module Sentences {
  import opened Strings

  /** The characters of the class `[.!?\n]`. */
  predicate IsDelimiter(c: char)
  {
    c == '.' || c == '!' || c == '?' || c == '\n'
  }

  predicate NoDelimiters(s: string)
  {
    forall i :: 0 <= i < |s| ==> !IsDelimiter(s[i])
  }

  predicate AllDelimiters(s: string)
  {
    forall i :: 0 <= i < |s| ==> IsDelimiter(s[i])
  }

  /** Length of the longest prefix of `s` without a delimiter (greedy `[^.!?\n]+`). */
  function BodyLength(s: string): (n: nat)
    ensures n <= |s|
    ensures NoDelimiters(s[..n])
    ensures n < |s| ==> IsDelimiter(s[n])
  {
    if |s| > 0 && !IsDelimiter(s[0]) then
      assert s[1..][..BodyLength(s[1..])] == s[1..1 + BodyLength(s[1..])];
      1 + BodyLength(s[1..])
    else 0
  }

  /** Length of the longest prefix of `s` made of delimiters (greedy `[.!?\n]*`). */
  function DelimiterLength(s: string): (n: nat)
    ensures n <= |s|
    ensures AllDelimiters(s[..n])
    ensures n < |s| ==> !IsDelimiter(s[n])
  {
    if |s| > 0 && IsDelimiter(s[0]) then
      assert s[1..][..DelimiterLength(s[1..])] == s[1..1 + DelimiterLength(s[1..])];
      1 + DelimiterLength(s[1..])
    else 0
  }

  /** Where the first match of a text that starts outside a delimiter ends. */
  function FirstMatchEnd(s: string): nat
  {
    BodyLength(s) + DelimiterLength(s[BodyLength(s)..])
  }

  /** A single match of the pattern: a non-empty run without delimiters, then delimiters only. */
  predicate IsSentence(x: string)
  {
    0 < BodyLength(x) && AllDelimiters(x[BodyLength(x)..])
  }

  /** `BodyLength` is determined by any prefix free of delimiters that is followed by one (or by the end). */
  lemma {:induction false} BodyLengthIs(s: string, n: nat)
    requires n <= |s| && NoDelimiters(s[..n]) && (n < |s| ==> IsDelimiter(s[n]))
    ensures BodyLength(s) == n
    decreases n
  {
    if n > 0 {
      assert s[0] == s[..n][0];
      assert s[1..][..n - 1] == s[1..n];
      BodyLengthIs(s[1..], n - 1);
    }
  }

  /** `DelimiterLength` is determined likewise. */
  lemma {:induction false} DelimiterLengthIs(s: string, n: nat)
    requires n <= |s| && AllDelimiters(s[..n]) && (n < |s| ==> !IsDelimiter(s[n]))
    ensures DelimiterLength(s) == n
    decreases n
  {
    if n > 0 {
      assert s[0] == s[..n][0];
      assert s[1..][..n - 1] == s[1..n];
      DelimiterLengthIs(s[1..], n - 1);
    }
  }

  /** Text with the leading delimiters removed: the part the matches cover. */
  function Covered(s: string): string
  {
    s[DelimiterLength(s)..]
  }

  /**
   * A list of matches as the greedy pattern produces them: every element is a
   * sentence, and every element but the last ends with a delimiter (the
   * greedy `*` consumed them all).
   */
  predicate WellSplit(r: seq<string>)
  {
    && (forall k :: 0 <= k < |r| ==> IsSentence(r[k]))
    && (forall k :: 0 <= k < |r| - 1 ==> |r[k]| > 0 && IsDelimiter(r[k][|r[k]| - 1]))
  }

  /**
   * The successive matches of `[^.!?\n]+[.!?\n]*` in `s`: a well-split list
   * that spells out `s` without its leading delimiters.
   */
  function Matches(s: string): (r: seq<string>)
    ensures WellSplit(r)
    ensures Concat(r) == Covered(s)
    decreases |s|
  {
    if |s| == 0 then []
    else if IsDelimiter(s[0]) then
      CoveredSkipsDelimiter(s);
      Matches(s[1..])
    else
      var n := FirstMatchEnd(s);
      FirstMatchFacts(s, BodyLength(s), n);
      var rest := Matches(s[n..]);
      MatchStep(s, n, rest);
      [s[..n]] + rest
  }

  lemma {:induction false} MatchStep(s: string, n: nat, rest: seq<string>)
    requires 0 < n <= |s| && IsSentence(s[..n])
    requires n < |s| ==> IsDelimiter(s[n - 1])
    requires WellSplit(rest) && Concat(rest) == s[n..]
    ensures WellSplit([s[..n]] + rest)
    ensures Concat([s[..n]] + rest) == s
  {
    ConcatAppend([s[..n]], rest);
    assert s[..n] + s[n..] == s;
    var x := s[..n];
    var r := [x] + rest;
    assert |rest| > 0 ==> n < |s|;
    forall k | 0 <= k < |r|
      ensures IsSentence(r[k])
    {
      if k > 0 {
        assert r[k] == rest[k - 1];
      }
    }
    forall k | 0 <= k < |r| - 1
      ensures |r[k]| > 0 && IsDelimiter(r[k][|r[k]| - 1])
    {
      if k > 0 {
        assert r[k] == rest[k - 1];
      }
    }
  }

  lemma {:induction false} CoveredSkipsDelimiter(s: string)
    requires |s| > 0 && IsDelimiter(s[0])
    ensures Covered(s) == Covered(s[1..])
  {
    assert DelimiterLength(s) == 1 + DelimiterLength(s[1..]);
  }

  /** The first match of a text that starts outside a delimiter. */
  lemma {:induction false} FirstMatchFacts(s: string, b: nat, n: nat)
    requires |s| > 0 && !IsDelimiter(s[0])
    requires b == BodyLength(s) && n == FirstMatchEnd(s)
    ensures 0 < b <= n <= |s|
    ensures IsSentence(s[..n])
    ensures Covered(s) == s
    ensures Covered(s[n..]) == s[n..]
    ensures n < |s| ==> b < n && IsDelimiter(s[n - 1])
  {
    var x := s[..n];
    assert x[..b] == s[..b];
    BodyLengthIs(x, b);
    assert x[b..] == s[b..][..DelimiterLength(s[b..])];
    if b < n {
      assert s[n - 1] == s[b..][..DelimiterLength(s[b..])][n - 1 - b];
    }
    if n < |s| {
      assert s[n..][0] == s[b..][n - b];
    }
  }

  /** The first match of `x + t`, when `x` is a sentence that `t` cannot extend, is `x`. */
  lemma {:induction false} HeadMatch(s: string, x: string, t: string)
    requires s == x + t && IsSentence(x)
    requires |t| > 0 ==> |x| > 0 && IsDelimiter(x[|x| - 1]) && !IsDelimiter(t[0])
    ensures FirstMatchEnd(s) == |x|
  {
    var bx := BodyLength(x);
    assert s[..bx] == x[..bx];
    if bx < |x| {
      assert s[bx] == x[bx];
      BodyLengthIs(s, bx);
    } else {
      assert x[bx..] == [];
      assert |t| == 0 ==> s == x;
      BodyLengthIs(s, bx);
    }
    var d := s[bx..];
    assert d == x[bx..] + t;
    assert d[..|x| - bx] == x[bx..];
    if |t| > 0 {
      assert d[|x| - bx] == t[0];
    }
    DelimiterLengthIs(d, |x| - bx);
  }

  /** The concatenation of a non-empty well-split list starts with its first sentence. */
  lemma {:induction false} ConcatHead(ss: seq<string>)
    requires |ss| > 0
    ensures Concat(ss) == ss[0] + Concat(ss[1..])
  {
    assert ss == [ss[0]] + ss[1..];
    ConcatAppend([ss[0]], ss[1..]);
  }

  /** The tail of a well-split list is well split, and cannot extend its head. */
  lemma {:induction false} WellSplitTail(ss: seq<string>)
    requires |ss| > 0 && WellSplit(ss)
    ensures WellSplit(ss[1..])
    ensures Concat(ss) == ss[0] + Concat(ss[1..])
    ensures |Concat(ss[1..])| > 0 ==>
      |ss[0]| > 0 && IsDelimiter(ss[0][|ss[0]| - 1]) && !IsDelimiter(Concat(ss[1..])[0])
  {
    var rest := ss[1..];
    ConcatHead(ss);
    forall k | 0 <= k < |rest|
      ensures IsSentence(rest[k])
    {
      assert rest[k] == ss[k + 1];
    }
    forall k | 0 <= k < |rest| - 1
      ensures |rest[k]| > 0 && IsDelimiter(rest[k][|rest[k]| - 1])
    {
      assert rest[k] == ss[k + 1];
    }
    if |rest| > 0 {
      ConcatHead(rest);
      assert Concat(rest)[0] == rest[0][0];
    }
  }

  /**
   * The matches are the only well-split list that spells out the covered
   * text: the greedy pattern tokenises a text in exactly one way.
   */
  lemma {:induction false} MatchesUnique(s: string, ss: seq<string>)
    requires WellSplit(ss) && Concat(ss) == Covered(s)
    ensures ss == Matches(s)
    decreases |s|, 1
  {
    if |s| == 0 {
      if |ss| > 0 {
        NonEmptySentencesConcat(ss);
      }
    } else if IsDelimiter(s[0]) {
      CoveredSkipsDelimiter(s);
      MatchesUnique(s[1..], ss);
    } else {
      MatchesUniqueSentence(s, ss);
    }
  }

  lemma {:induction false} MatchesUniqueSentence(s: string, ss: seq<string>)
    requires |s| > 0 && !IsDelimiter(s[0])
    requires WellSplit(ss) && Concat(ss) == Covered(s)
    ensures ss == Matches(s)
    decreases |s|, 0
  {
    var n := FirstMatchEnd(s);
    HeadIsFirstMatch(s, ss, n);
    MatchesUnique(s[n..], ss[1..]);
    MatchesHead(s, n);
    assert ss == [ss[0]] + ss[1..];
  }

  /** Any well-split spelling of a text starts with the text's first match. */
  lemma {:induction false} HeadIsFirstMatch(s: string, ss: seq<string>, n: nat)
    requires |s| > 0 && !IsDelimiter(s[0])
    requires WellSplit(ss) && Concat(ss) == Covered(s)
    requires n == FirstMatchEnd(s)
    ensures 0 < n <= |s| && |ss| > 0 && ss[0] == s[..n]
    ensures WellSplit(ss[1..]) && Concat(ss[1..]) == Covered(s[n..])
  {
    FirstMatchFacts(s, BodyLength(s), n);
    assert |ss| > 0;
    WellSplitTail(ss);
    HeadSplit(s, ss[0], Concat(ss[1..]), n);
  }

  /** A sentence followed by text it cannot extend is exactly the first match. */
  lemma {:induction false} HeadSplit(s: string, x: string, t: string, n: nat)
    requires s == x + t && IsSentence(x)
    requires |t| > 0 ==> |x| > 0 && IsDelimiter(x[|x| - 1]) && !IsDelimiter(t[0])
    requires n == FirstMatchEnd(s)
    ensures x == s[..n] && t == s[n..]
  {
    HeadMatch(s, x, t);
    SplitAt(s, x, t);
  }

  lemma {:induction false} MatchesHead(s: string, n: nat)
    requires |s| > 0 && !IsDelimiter(s[0])
    requires n == FirstMatchEnd(s)
    ensures n <= |s| && Matches(s) == [s[..n]] + Matches(s[n..])
  {
    FirstMatchFacts(s, BodyLength(s), n);
    assert |s| != 0 && !IsDelimiter(s[0]);
  }

  lemma {:induction false} SplitAt(s: string, x: string, t: string)
    requires s == x + t
    ensures s[..|x|] == x && s[|x|..] == t
  {
  }

  /** There is no match exactly when the text consists of delimiters only. */
  lemma {:induction false} MatchesEmptyIff(text: string)
    ensures |Matches(text)| == 0 <==> AllDelimiters(text)
  {
    var m := Matches(text);
    if |m| == 0 {
      assert text == text[..DelimiterLength(text)];
    }
    if AllDelimiters(text) {
      DelimiterLengthIs(text, |text|);
      if |m| > 0 {
        NonEmptySentencesConcat(m);
      }
    }
  }

  /** `ChunkExporter.splitIntoSentences`: the matches, or the whole text when there are none. */
  function SplitIntoSentences(text: string): (r: seq<string>)
    ensures |r| >= 1
    ensures AllDelimiters(text) ==> r == [text]
    ensures !AllDelimiters(text) ==> r == Matches(text) && Concat(r) == Covered(text)
  {
    var m := Matches(text);
    MatchesEmptyIff(text);
    if |m| == 0 then [text] else m
  }

  lemma {:induction false} NonEmptySentencesConcat(m: seq<string>)
    requires |m| > 0 && WellSplit(m)
    ensures Concat(m) != ""
  {
  }
}
