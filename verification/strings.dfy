/**
 * String helpers shared by the whole model: Java's `String.trim`, ASCII case
 * mapping, concatenation and joining of string lists, prefixes, and the decimal
 * rendering of integers used by `String.format("%d")`, `append(int)` and
 * string concatenation.
 */
module Strings {

  // ---------- trimming (java.lang.String.trim) ----------

  /** The characters `String.trim` removes: every code point up to U+0020. */
  predicate IsTrimmable(c: char)
  {
    c <= ' '
  }

  predicate AllTrimmable(s: string)
  {
    forall i :: 0 <= i < |s| ==> IsTrimmable(s[i])
  }

  /** Drops the leading trimmable characters. */
  function TrimLeft(s: string): (r: string)
    ensures |r| <= |s| && r == s[|s| - |r|..]
    ensures forall i :: 0 <= i < |s| - |r| ==> IsTrimmable(s[i])
    ensures |r| > 0 ==> !IsTrimmable(r[0])
  {
    if |s| > 0 && IsTrimmable(s[0]) then TrimLeft(s[1..]) else s
  }

  /** Drops the trailing trimmable characters. */
  function TrimRight(s: string): (r: string)
    ensures |r| <= |s| && r == s[..|r|]
    ensures forall i :: |r| <= i < |s| ==> IsTrimmable(s[i])
    ensures |r| > 0 ==> !IsTrimmable(r[|r| - 1])
  {
    if |s| > 0 && IsTrimmable(s[|s| - 1]) then TrimRight(s[..|s| - 1]) else s
  }

  /**
   * `String.trim`: what is left of `s` after dropping the leading and the
   * trailing trimmable characters; it neither starts nor ends with one.
   */
  function Trim(s: string): (r: string)
    ensures |r| <= |s|
    ensures |r| > 0 ==> !IsTrimmable(r[0]) && !IsTrimmable(r[|r| - 1])
  {
    TrimRight(TrimLeft(s))
  }

  /**
   * The trimmed string is the infix of `s` that starts after the leading
   * trimmable characters, and it is empty exactly when `s` is all trimmable.
   */
  lemma {:induction false} TrimIsInfix(s: string)
    ensures |Trim(s)| <= |TrimLeft(s)|
    ensures Trim(s) == s[|s| - |TrimLeft(s)|..|s| - |TrimLeft(s)| + |Trim(s)|]
  {
    var l := TrimLeft(s);
    var r := TrimRight(l);
    assert |l| <= |s| && l == s[|s| - |l|..];
    assert |r| <= |l| && r == l[..|r|];
    InfixOfInfix(s, l, r);
  }

  /** Trimming leaves nothing exactly when every character is trimmable. */
  lemma {:induction false} TrimEmptyIff(s: string)
    ensures |Trim(s)| == 0 <==> AllTrimmable(s)
  {
    var l := TrimLeft(s);
    var r := TrimRight(l);
    assert Trim(s) == r;
    if |r| == 0 {
      assert s == s[..|s| - |l|] + l;
      assert |l| == 0;
    }
  }

  lemma {:induction false} InfixOfInfix(s: string, l: string, r: string)
    requires |l| <= |s| && l == s[|s| - |l|..] && |r| <= |l| && r == l[..|r|]
    ensures r == s[|s| - |l|..|s| - |l| + |r|]
  {
  }

  lemma {:induction false} TrimLeftSkipsPrefix(w: string, s: string)
    requires AllTrimmable(w)
    ensures TrimLeft(w + s) == TrimLeft(s)
    decreases |w|
  {
    if |w| > 0 {
      assert (w + s)[0] == w[0];
      assert (w + s)[1..] == w[1..] + s;
      TrimLeftSkipsPrefix(w[1..], s);
    } else {
      assert w + s == s;
    }
  }

  lemma {:induction false} TrimRightSkipsSuffix(s: string, w: string)
    requires AllTrimmable(w)
    ensures TrimRight(s + w) == TrimRight(s)
    decreases |w|
  {
    if |w| > 0 {
      assert (s + w)[..|s + w| - 1] == s + w[..|w| - 1];
      TrimRightSkipsSuffix(s, w[..|w| - 1]);
    } else {
      assert s + w == s;
    }
  }

  lemma {:induction false} TrimLeftRightSkipsSuffix(s: string, w: string)
    requires AllTrimmable(w)
    ensures TrimRight(TrimLeft(s + w)) == TrimRight(TrimLeft(s))
    decreases |s|
  {
    if |s| == 0 {
      assert s + w == w;
      assert w == w[..|w|];
      assert |TrimLeft(w)| == 0;
    } else if IsTrimmable(s[0]) {
      assert (s + w)[1..] == s[1..] + w;
      TrimLeftRightSkipsSuffix(s[1..], w);
    } else {
      TrimRightSkipsSuffix(s, w);
    }
  }

  /** Surrounding whitespace never changes the result of `trim`. */
  lemma {:induction false} TrimIgnoresPadding(w1: string, s: string, w2: string)
    requires AllTrimmable(w1) && AllTrimmable(w2)
    ensures Trim(w1 + s + w2) == Trim(s)
  {
    assert w1 + s + w2 == w1 + (s + w2);
    TrimLeftSkipsPrefix(w1, s + w2);
    TrimLeftRightSkipsSuffix(s, w2);
  }

  /** `trim` is idempotent. */
  lemma {:induction false} TrimIdempotent(s: string)
    ensures Trim(Trim(s)) == Trim(s)
  {
    var r := Trim(s);
    assert TrimLeft(r) == r;
    assert TrimRight(r) == r;
  }

  // ---------- case mapping (ASCII) ----------

  function LowerChar(c: char): char
  {
    if 'A' <= c <= 'Z' then (c as int + 32) as char else c
  }

  function UpperChar(c: char): char
  {
    if 'a' <= c <= 'z' then (c as int - 32) as char else c
  }

  /** ASCII lower-casing: no capital A-Z is left, every other character stays put. */
  function Lower(s: string): (r: string)
    ensures |r| == |s|
    ensures forall i :: 0 <= i < |r| ==> !('A' <= r[i] <= 'Z')
    ensures forall i :: 0 <= i < |s| && !('A' <= s[i] <= 'Z') ==> r[i] == s[i]
  {
    seq(|s|, i requires 0 <= i < |s| => LowerChar(s[i]))
  }

  /** ASCII upper-casing: no small a-z is left, every other character stays put. */
  function Upper(s: string): (r: string)
    ensures |r| == |s|
    ensures forall i :: 0 <= i < |r| ==> !('a' <= r[i] <= 'z')
    ensures forall i :: 0 <= i < |s| && !('a' <= s[i] <= 'z') ==> r[i] == s[i]
  {
    seq(|s|, i requires 0 <= i < |s| => UpperChar(s[i]))
  }

  /** Lower-casing twice is lower-casing once. */
  lemma {:induction false} LowerIdempotent(s: string)
    ensures Lower(Lower(s)) == Lower(s)
  {
  }

  /** Upper-casing twice is upper-casing once. */
  lemma {:induction false} UpperIdempotent(s: string)
    ensures Upper(Upper(s)) == Upper(s)
  {
  }

  lemma {:induction false} LowerConcat(a: string, b: string)
    ensures Lower(a + b) == Lower(a) + Lower(b)
  {
  }

  lemma {:induction false} LowerTrimLeft(s: string)
    ensures Lower(TrimLeft(s)) == TrimLeft(Lower(s))
    decreases |s|
  {
    if |s| > 0 && IsTrimmable(s[0]) {
      assert Lower(s)[1..] == Lower(s[1..]);
      LowerTrimLeft(s[1..]);
    }
  }

  lemma {:induction false} LowerTrimRight(s: string)
    ensures Lower(TrimRight(s)) == TrimRight(Lower(s))
    decreases |s|
  {
    if |s| > 0 && IsTrimmable(s[|s| - 1]) {
      assert Lower(s)[..|s| - 1] == Lower(s[..|s| - 1]);
      LowerTrimRight(s[..|s| - 1]);
    }
  }

  /** Lower-casing and trimming commute. */
  lemma {:induction false} LowerTrim(s: string)
    ensures Lower(Trim(s)) == Trim(Lower(s))
  {
    LowerTrimLeft(s);
    LowerTrimRight(TrimLeft(s));
  }

  lemma {:induction false} UpperTrimLeft(s: string)
    ensures Upper(TrimLeft(s)) == TrimLeft(Upper(s))
    decreases |s|
  {
    if |s| > 0 && IsTrimmable(s[0]) {
      assert Upper(s)[1..] == Upper(s[1..]);
      UpperTrimLeft(s[1..]);
    }
  }

  lemma {:induction false} UpperTrimRight(s: string)
    ensures Upper(TrimRight(s)) == TrimRight(Upper(s))
    decreases |s|
  {
    if |s| > 0 && IsTrimmable(s[|s| - 1]) {
      assert Upper(s)[..|s| - 1] == Upper(s[..|s| - 1]);
      UpperTrimRight(s[..|s| - 1]);
    }
  }

  /** Upper-casing and trimming commute. */
  lemma {:induction false} UpperTrim(s: string)
    ensures Upper(Trim(s)) == Trim(Upper(s))
  {
    UpperTrimLeft(s);
    UpperTrimRight(TrimLeft(s));
  }

  lemma {:induction false} LowerOfTrimmable(w: string)
    requires AllTrimmable(w)
    ensures Lower(w) == w
  {
  }

  // ---------- prefixes, concatenation, joining ----------

  predicate StartsWith(s: string, p: string)
  {
    |p| <= |s| && s[..|p|] == p
  }

  /** `s` occurs somewhere inside `text`. */
  predicate Contains(text: string, s: string)
  {
    exists i | 0 <= i <= |text| :: OccursAt(text, s, i)
  }

  predicate OccursAt(text: string, s: string, i: int)
  {
    0 <= i <= |text| - |s| && text[i..i + |s|] == s
  }

  lemma {:induction false} ContainsMiddle(a: string, s: string, b: string)
    ensures Contains(a + s + b, s)
  {
    assert (a + s + b)[|a|..|a| + |s|] == s;
    assert OccursAt(a + s + b, s, |a|);
  }

  /** `s.indexOf(c)`, with `|s|` standing for "not found". */
  function IndexOf(s: string, c: char): (r: nat)
    ensures r <= |s|
    ensures forall i :: 0 <= i < r ==> s[i] != c
    ensures r < |s| ==> s[r] == c
  {
    if |s| == 0 || s[0] == c then 0 else 1 + IndexOf(s[1..], c)
  }

  /** `s` holds no `c`. */
  predicate Lacks(s: string, c: char)
  {
    forall i :: 0 <= i < |s| ==> s[i] != c
  }

  /** The first `c` of `a + [c] + b` is the one after `a` when `a` holds none. */
  lemma IndexOfAfter(a: string, c: char, b: string)
    requires Lacks(a, c)
    ensures IndexOf(a + [c] + b, c) == |a|
  {
    assert (a + [c] + b)[|a|] == c;
  }

  /** The concatenation of a list of strings, in order. */
  function Concat(ss: seq<string>): (r: string)
    ensures |ss| == 0 ==> r == ""
    ensures |ss| == 1 ==> r == ss[0]
  {
    if |ss| == 0 then "" else Concat(ss[..|ss| - 1]) + ss[|ss| - 1]
  }

  lemma {:induction false} ConcatAppend(a: seq<string>, b: seq<string>)
    ensures Concat(a + b) == Concat(a) + Concat(b)
    decreases |b|
  {
    if |b| == 0 {
      assert a + b == a;
    } else {
      var init, last := b[..|b| - 1], b[|b| - 1];
      assert (a + b)[..|a + b| - 1] == a + init;
      assert (a + b)[|a + b| - 1] == last;
      ConcatAppend(a, init);
      assert Concat(b) == Concat(init) + last;
      assert Concat(a + b) == Concat(a + init) + last;
    }
  }

  /** Concatenation of adjacent runs `ss[i..j]` and `ss[j..k]`. */
  lemma {:induction false} ConcatSplit(ss: seq<string>, i: nat, j: nat, k: nat)
    requires i <= j <= k <= |ss|
    ensures Concat(ss[i..k]) == Concat(ss[i..j]) + Concat(ss[j..k])
  {
    assert ss[i..k] == ss[i..j] + ss[j..k];
    ConcatAppend(ss[i..j], ss[j..k]);
  }

  /** A shorter run of the same list never yields a longer string. */
  lemma {:induction false} ConcatRunLength(ss: seq<string>, i: nat, j: nat, k: nat, l: nat)
    requires i <= j <= k <= l <= |ss|
    ensures |Concat(ss[j..k])| <= |Concat(ss[i..l])|
  {
    ConcatSplit(ss, i, j, l);
    ConcatSplit(ss, j, k, l);
  }

  /** Any run of adjacent pieces occurs inside the concatenation of all of them. */
  lemma {:induction false} ConcatContainsRun(ss: seq<string>, i: nat, j: nat)
    requires i <= j <= |ss|
    ensures Contains(Concat(ss), Concat(ss[i..j]))
  {
    ConcatSplit(ss, 0, i, |ss|);
    ConcatSplit(ss, i, j, |ss|);
    assert ss[0..|ss|] == ss;
    ContainsInner(Concat(ss), Concat(ss[0..i]), Concat(ss[i..|ss|]), Concat(ss[i..j]), Concat(ss[j..|ss|]));
  }

  lemma {:induction false} ContainsInner(t: string, a: string, rest: string, s: string, b: string)
    requires t == a + rest && rest == s + b
    ensures Contains(t, s)
  {
    assert t[|a|..|a| + |s|] == s;
    assert OccursAt(t, s, |a|);
  }

  /** Three adjacent pieces occur, joined, inside the concatenation. */
  lemma {:induction false} ContainsThree(ss: seq<string>, i: nat, a: string, b: string, c: string)
    requires i + 3 <= |ss| && ss[i] == a && ss[i + 1] == b && ss[i + 2] == c
    ensures Contains(Concat(ss), a + b + c)
  {
    assert ss[i..i + 3] == [a, b, c];
    Concat3(a, b, c);
    ConcatContainsRun(ss, i, i + 3);
  }

  /** Two adjacent pieces occur, joined, inside the concatenation. */
  lemma {:induction false} ContainsTwo(ss: seq<string>, i: nat, a: string, b: string)
    requires i + 2 <= |ss| && ss[i] == a && ss[i + 1] == b
    ensures Contains(Concat(ss), a + b)
  {
    assert ss[i..i + 2] == [a, b];
    Concat2(a, b);
    ConcatContainsRun(ss, i, i + 2);
  }

  lemma {:induction false} Concat2(a: string, b: string)
    ensures Concat([a, b]) == a + b
  {
    assert [a, b][..1] == [a];
  }

  lemma {:induction false} Concat3(a: string, b: string, c: string)
    ensures Concat([a, b, c]) == a + b + c
  {
    assert [a, b, c][..2] == [a, b];
    Concat2(a, b);
  }

  lemma {:induction false} Concat4(a: string, b: string, c: string, d: string)
    ensures Concat([a, b, c, d]) == a + b + c + d
  {
    assert [a, b, c, d][..3] == [a, b, c];
    Concat3(a, b, c);
  }

  /** `String.join(sep, ss)`. */
  function Join(ss: seq<string>, sep: string): string
  {
    if |ss| == 0 then ""
    else if |ss| == 1 then ss[0]
    else Join(ss[..|ss| - 1], sep) + sep + ss[|ss| - 1]
  }

  // ---------- decimal numbers ----------

  predicate IsDigit(c: char)
  {
    '0' <= c <= '9'
  }

  predicate AllDigits(s: string)
  {
    forall i :: 0 <= i < |s| ==> IsDigit(s[i])
  }

  function DigitChar(d: nat): char
    requires d < 10
  {
    ('0' as int + d) as char
  }

  /** Decimal digits of a natural number, no leading zeros. */
  function NatToString(n: nat): (r: string)
    ensures |r| > 0 && AllDigits(r)
    ensures |r| > 1 ==> r[0] != '0'
  {
    if n < 10 then [DigitChar(n)] else NatToString(n / 10) + [DigitChar(n % 10)]
  }

  /** Reads back a string of decimal digits. */
  function ParseNat(s: string): nat
    requires AllDigits(s)
  {
    if |s| == 0 then 0 else 10 * ParseNat(s[..|s| - 1]) + (s[|s| - 1] as int - '0' as int)
  }

  lemma {:induction false} ParseNatToString(n: nat)
    ensures ParseNat(NatToString(n)) == n
  {
    if n >= 10 {
      var s := NatToString(n);
      assert s[..|s| - 1] == NatToString(n / 10);
      ParseNatToString(n / 10);
    }
  }

  /** Java's decimal rendering of an `int` (a leading '-' for negatives). */
  function IntToString(i: int): (r: string)
    ensures |r| > 0
    ensures r[0] == '-' <==> i < 0
  {
    if i < 0 then "-" + NatToString(-i) else NatToString(i)
  }

  /** Rendered numbers never contain the '-' separator except as a sign. */
  lemma {:induction false} IntToStringDashFree(i: int)
    ensures forall k :: 0 < k < |IntToString(i)| ==> IntToString(i)[k] != '-'
    ensures i >= 0 ==> IntToString(i)[0] != '-'
  {
  }

  /** Distinct integers render to distinct strings. */
  lemma {:induction false} IntToStringInjective(a: int, b: int)
    requires IntToString(a) == IntToString(b)
    ensures a == b
  {
    if a < 0 && b < 0 {
      assert NatToString(-a) == IntToString(a)[1..];
      assert NatToString(-b) == IntToString(b)[1..];
      ParseNatToString(-a);
      ParseNatToString(-b);
    } else if a >= 0 && b >= 0 {
      ParseNatToString(a);
      ParseNatToString(b);
    }
  }
}
