/**
 * The heuristic intent classifier (IntentClassifier): a query is normalised by
 * `trim` and lower-casing, then matched against a "factual" and a "semantic"
 * keyword pattern, each of the form `\b(alt1|alt2|...)\b`, with
 * `Matcher.find`; a fixed table turns the two answers into an intent. A
 * second check recognises greetings.
 *
 * The patterns are modelled as lists of alternatives, each alternative a
 * sequence of pieces: a literal word, `\s+` or `.*`. `find` succeeds exactly
 * when some slice of the query lies between two word boundaries and matches
 * some alternative.
 */
module IntentClassifier {
  import opened Wrappers
  import opened Strings

  /** `IntentClassifier.Intent`. */
  datatype Intent = Factual | Semantic | Mixed

  /** `Intent.name()`, the spelling the rest of the system passes around. */
  function Name(i: Intent): string
  {
    match i
    case Factual => "FACTUAL"
    case Semantic => "SEMANTIC"
    case Mixed => "MIXED"
  }

  // ---------- the keyword patterns ----------

  /** One element of an alternative: a literal, `\s+`, or `.*`. */
  datatype Piece = Lit(word: string) | Spaces | AnyRun

  /** `\s`: space, tab, newline, vertical tab, form feed, carriage return. */
  predicate IsSpace(c: char)
  {
    c == ' ' || c == '\t' || c == '\n' || c == '\U{B}' || c == '\U{C}' || c == '\r'
  }

  /** The line terminators that `.` does not match. */
  predicate IsLineTerminator(c: char)
  {
    c == '\n' || c == '\r' || c == '\U{85}' || c == '\U{2028}' || c == '\U{2029}'
  }

  /** The characters on either side of which `\b` sees a word. */
  predicate IsWordChar(c: char)
  {
    ('a' <= c <= 'z') || ('A' <= c <= 'Z') || ('0' <= c <= '9') || c == '_'
  }

  predicate IsLetter(c: char)
  {
    ('a' <= c <= 'z') || ('A' <= c <= 'Z')
  }

  /** Whether the whole of `s` matches the pieces `p`, backtracking over `\s+` and `.*`. */
  predicate MatchesPieces(p: seq<Piece>, s: string)
    decreases |s|, |p|
  {
    if |p| == 0 then |s| == 0
    else match p[0]
      case Lit(w) => StartsWith(s, w) && MatchesPieces(p[1..], s[|w|..])
      case Spaces =>
        |s| > 0 && IsSpace(s[0]) && (MatchesPieces(p[1..], s[1..]) || MatchesPieces(p, s[1..]))
      case AnyRun =>
        MatchesPieces(p[1..], s) || (|s| > 0 && !IsLineTerminator(s[0]) && MatchesPieces(p, s[1..]))
  }

  /** `\b` at position `i`: exactly one of the neighbouring characters is a word character. */
  predicate Boundary(q: string, i: nat)
    requires i <= |q|
  {
    (0 < i && IsWordChar(q[i - 1])) != (i < |q| && IsWordChar(q[i]))
  }

  /** `\b(alts)\b` matches the slice `q[i..j]`. */
  predicate FoundAt(alts: seq<seq<Piece>>, q: string, i: nat, j: nat)
    requires i <= j <= |q|
  {
    Boundary(q, i) && Boundary(q, j) && exists k | 0 <= k < |alts| :: MatchesPieces(alts[k], q[i..j])
  }

  /** `Pattern.matcher(q).find()` for the pattern `\b(alts)\b`. */
  predicate Find(alts: seq<seq<Piece>>, q: string)
  {
    exists i: nat, j: nat | i <= j <= |q| :: FoundAt(alts, q, i, j)
  }

  /** The alternatives of `FACTUAL_PATTERN`, in the order written. */
  const FactualPattern: seq<seq<Piece>> := [
    [Lit("when")], [Lit("date")], [Lit("how many")], [Lit("count")], [Lit("which")], [Lit("list")],
    [Lit("what"), Spaces, Lit("is"), Spaces, Lit("the"), Spaces, Lit("date")],
    [Lit("earliest")], [Lit("latest")], [Lit("first")], [Lit("last")],
    [Lit("what"), AnyRun, Lit("courses")], [Lit("what"), AnyRun, Lit("topics")],
    [Lit("all"), Spaces, Lit("courses")], [Lit("all"), Spaces, Lit("topics")]
  ]

  /** The alternatives of `SEMANTIC_PATTERN`, in the order written. */
  const SemanticPattern: seq<seq<Piece>> := [
    [Lit("why")], [Lit("explain")], [Lit("explanation")], [Lit("compare")], [Lit("recommend")],
    [Lit("pros")], [Lit("cons")], [Lit("benefit")], [Lit("how"), Spaces, Lit("to")]
  ]

  // ---------- classification ----------

  /** `query.trim().toLowerCase(Locale.ROOT)`. */
  function Normalize(s: string): string
  {
    Lower(Trim(s))
  }

  predicate IsFactual(s: string)
  {
    Find(FactualPattern, Normalize(s))
  }

  predicate IsSemantic(s: string)
  {
    Find(SemanticPattern, Normalize(s))
  }

  /**
   * `IntentClassifier.classify`: a missing query is SEMANTIC; otherwise the
   * query is MIXED when both patterns occur, FACTUAL when only the factual
   * one does, and SEMANTIC in every other case, no match at all included.
   */
  function Classify(query: Option<string>): (r: Intent)
    ensures query.None? ==> r == Semantic
    ensures query.Some? ==> (r == Mixed <==> IsFactual(query.value) && IsSemantic(query.value))
    ensures query.Some? ==> (r == Factual <==> IsFactual(query.value) && !IsSemantic(query.value))
    ensures query.Some? ==> (r == Semantic <==> !IsFactual(query.value))
  {
    match query
    case None => Semantic
    case Some(s) =>
      var factual := IsFactual(s);
      var semantic := IsSemantic(s);
      if factual && semantic then Mixed
      else if factual then Factual
      else Semantic
  }

  // ---------- greetings ----------

  /** The whole normalised queries that count as greetings. */
  const Greetings: seq<string> := [
    "hi", "hello", "hey", "yo", "hi!", "hello!", "hey!", "good morning", "good afternoon", "good evening"
  ]

  /** The prefixes that make a normalised query a greeting. */
  const GreetingPrefixes: seq<string> := ["hi ", "hello ", "hey "]

  /**
   * `IntentClassifier.isGreeting`: false for a missing query; otherwise true
   * exactly when the normalised query is one of the listed greetings or
   * starts with one of the listed prefixes.
   */
  function IsGreeting(query: Option<string>): (r: bool)
    ensures query.None? ==> !r
    ensures r ==> query.Some? && (Normalize(query.value) in Greetings
                                  || exists p | p in GreetingPrefixes :: StartsWith(Normalize(query.value), p))
  {
    match query
    case None => false
    case Some(s) =>
      var q := Normalize(s);
      q == "hi" || q == "hello" || q == "hey" || q == "yo"
      || q == "hi!" || q == "hello!" || q == "hey!"
      || StartsWith(q, "hi ") || StartsWith(q, "hello ") || StartsWith(q, "hey ")
      || q == "good morning" || q == "good afternoon" || q == "good evening"
  }

  /** The greeting test is true exactly for the listed greetings and prefixes. */
  lemma {:induction false} IsGreetingIff(s: string)
    ensures IsGreeting(Some(s)) <==>
      (Normalize(s) in Greetings || exists p | p in GreetingPrefixes :: StartsWith(Normalize(s), p))
  {
    var q := Normalize(s);
    InGreetings(q);
    InGreetingPrefixes(q);
  }

  lemma {:induction false} InGreetings(q: string)
    ensures q in Greetings <==>
      (q == "hi" || q == "hello" || q == "hey" || q == "yo" || q == "hi!" || q == "hello!" || q == "hey!"
       || q == "good morning" || q == "good afternoon" || q == "good evening")
  {
    var g := Greetings;
    assert g[0] == "hi" && g[1] == "hello" && g[2] == "hey" && g[3] == "yo" && g[4] == "hi!";
    assert g[5] == "hello!" && g[6] == "hey!" && g[7] == "good morning" && g[8] == "good afternoon";
    assert g[9] == "good evening" && |g| == 10;
  }

  lemma {:induction false} InGreetingPrefixes(q: string)
    ensures (exists p | p in GreetingPrefixes :: StartsWith(q, p)) <==>
      (StartsWith(q, "hi ") || StartsWith(q, "hello ") || StartsWith(q, "hey "))
  {
    var g := GreetingPrefixes;
    assert g[0] == "hi " && g[1] == "hello " && g[2] == "hey " && |g| == 3;
    if exists p | p in g :: StartsWith(q, p) {
      var p :| p in g && StartsWith(q, p);
      assert p == g[0] || p == g[1] || p == g[2];
    }
  }

  // ---------- invariance under case and padding ----------

  /** Normalisation forgets surrounding whitespace and ASCII letter case. */
  lemma {:induction false} NormalizeIgnoresCaseAndPadding(w1: string, s: string, w2: string, t: string)
    requires AllTrimmable(w1) && AllTrimmable(w2) && Lower(s) == Lower(t)
    ensures Normalize(w1 + s + w2) == Normalize(t)
  {
    TrimIgnoresPadding(w1, s, w2);
    LowerTrim(s);
    LowerTrim(t);
  }

  /** Padding a query with whitespace or changing the case of its letters does not change its intent. */
  lemma {:induction false} ClassifyIgnoresCaseAndPadding(w1: string, s: string, w2: string, t: string)
    requires AllTrimmable(w1) && AllTrimmable(w2) && Lower(s) == Lower(t)
    ensures Classify(Some(w1 + s + w2)) == Classify(Some(t))
  {
    NormalizeIgnoresCaseAndPadding(w1, s, w2, t);
  }

  /** Nor whether it is a greeting. */
  lemma {:induction false} IsGreetingIgnoresCaseAndPadding(w1: string, s: string, w2: string, t: string)
    requires AllTrimmable(w1) && AllTrimmable(w2) && Lower(s) == Lower(t)
    ensures IsGreeting(Some(w1 + s + w2)) == IsGreeting(Some(t))
  {
    NormalizeIgnoresCaseAndPadding(w1, s, w2, t);
  }

  // ---------- what makes a pattern match ----------

  /** The literal an alternative starts with. */
  function Lead(alt: seq<Piece>): string
  {
    if |alt| > 0 && alt[0].Lit? then alt[0].word else ""
  }

  /** Every alternative starts with a literal that starts with a letter. */
  predicate LetterLed(alts: seq<seq<Piece>>)
  {
    forall k :: 0 <= k < |alts| ==> |alts[k]| > 0 && alts[k][0].Lit? && |Lead(alts[k])| > 0 && IsLetter(Lead(alts[k])[0])
  }

  lemma {:induction false} PatternsLetterLed()
    ensures LetterLed(FactualPattern) && LetterLed(SemanticPattern)
  {
  }

  /**
   * A pattern whose alternatives all start with a literal finds nothing in a
   * query where no alternative's leading word occurs.
   */
  lemma {:induction false} FindNeedsLead(alts: seq<seq<Piece>>, q: string)
    requires LetterLed(alts) && Find(alts, q)
    ensures exists k, i | 0 <= k < |alts| && 0 <= i <= |q| :: OccursAt(q, Lead(alts[k]), i)
  {
    var i: nat, j: nat :| i <= j <= |q| && FoundAt(alts, q, i, j);
    var k :| 0 <= k < |alts| && MatchesPieces(alts[k], q[i..j]);
    var w := Lead(alts[k]);
    MatchStartsWithLead(alts[k], q[i..j]);
    SlicePrefixOccurs(q, i, j, w);
  }

  lemma {:induction false} SlicePrefixOccurs(q: string, i: nat, j: nat, w: string)
    requires i <= j <= |q| && StartsWith(q[i..j], w)
    ensures OccursAt(q, w, i)
  {
    assert q[i..i + |w|] == q[i..j][..|w|];
  }

  lemma {:induction false} MatchStartsWithLead(alt: seq<Piece>, x: string)
    requires |alt| > 0 && alt[0].Lit? && MatchesPieces(alt, x)
    ensures StartsWith(x, Lead(alt))
  {
  }

  /** A query without ASCII letters is SEMANTIC: neither pattern can occur in it. */
  lemma {:induction false} NoLettersIsSemantic(s: string)
    requires forall i :: 0 <= i < |Normalize(s)| ==> !IsLetter(Normalize(s)[i])
    ensures !IsFactual(s) && !IsSemantic(s)
    ensures Classify(Some(s)) == Semantic
  {
    var q := Normalize(s);
    PatternsLetterLed();
    NotFoundWithoutLetters(FactualPattern, q);
    NotFoundWithoutLetters(SemanticPattern, q);
  }

  lemma {:induction false} NotFoundWithoutLetters(alts: seq<seq<Piece>>, q: string)
    requires LetterLed(alts)
    requires forall i :: 0 <= i < |q| ==> !IsLetter(q[i])
    ensures !Find(alts, q)
  {
    if Find(alts, q) {
      FindNeedsLead(alts, q);
      assert false;
    }
  }

  /** A keyword standing as a whole word in the query makes its pattern match. */
  lemma {:induction false} WholeWordFound(alts: seq<seq<Piece>>, q: string, w: string, i: nat)
    requires [Lit(w)] in alts && OccursAt(q, w, i)
    requires Boundary(q, i) && Boundary(q, i + |w|)
    ensures Find(alts, q)
  {
    var k :| 0 <= k < |alts| && alts[k] == [Lit(w)];
    var x := q[i..i + |w|];
    assert [Lit(w)][1..] == [];
    assert x[|w|..] == "";
    assert MatchesPieces(alts[k], x);
    assert FoundAt(alts, q, i, i + |w|);
  }

  /** A whole-word factual keyword such as "when" or "count" rules SEMANTIC out. */
  lemma {:induction false} FactualWordNotSemantic(s: string, w: string, i: nat)
    requires [Lit(w)] in FactualPattern && OccursAt(Normalize(s), w, i)
    requires Boundary(Normalize(s), i) && Boundary(Normalize(s), i + |w|)
    ensures Classify(Some(s)) != Semantic
  {
    WholeWordFound(FactualPattern, Normalize(s), w, i);
  }

  /** A whole-word semantic keyword such as "why" or "explain" rules FACTUAL out. */
  lemma {:induction false} SemanticWordNotFactual(s: string, w: string, i: nat)
    requires [Lit(w)] in SemanticPattern && OccursAt(Normalize(s), w, i)
    requires Boundary(Normalize(s), i) && Boundary(Normalize(s), i + |w|)
    ensures Classify(Some(s)) != Factual
  {
    WholeWordFound(SemanticPattern, Normalize(s), w, i);
  }

  // ---------- examples ----------

  /** A query that is already trimmed and has no upper-case ASCII letter is its own normal form. */
  lemma {:induction false} NormalFormFixed(t: string)
    requires |t| > 0 && !IsTrimmable(t[0]) && !IsTrimmable(t[|t| - 1])
    requires forall i :: 0 <= i < |t| ==> !('A' <= t[i] <= 'Z')
    ensures Normalize(t) == t
  {
    assert TrimLeft(t) == t;
    assert TrimRight(t) == t;
  }

  /** "why and when?" contains a whole-word keyword of each pattern. */
  lemma {:induction false} BothKeywords(t: string)
    requires t == "why and when?"
    ensures Find(SemanticPattern, t) && Find(FactualPattern, t)
  {
    assert t[0..3] == "why";
    WholeWordFound(SemanticPattern, t, "why", 0);
    assert t[8..12] == "when";
    WholeWordFound(FactualPattern, t, "when", 8);
  }

  /**
   * A query asking both "why" and "when" is MIXED, whatever its case and
   * padding (`t` is its normal form).
   */
  lemma {:induction false} MixedExample(s: string, t: string)
    requires s == "  Why and WHEN? " && t == "why and when?"
    ensures Normalize(s) == t
    ensures Classify(Some(s)) == Mixed
  {
    PaddedWhyAndWhen(s, t);
    BothKeywords(t);
  }

  lemma {:induction false} PaddedWhyAndWhen(s: string, t: string)
    requires s == "  Why and WHEN? " && t == "why and when?"
    ensures Normalize(s) == t
  {
    var u := "Why and WHEN?";
    assert s == "  " + u + " ";
    assert Lower(u) == Lower(t);
    NormalFormFixed(t);
    NormalizeIgnoresCaseAndPadding("  ", u, " ", t);
  }

  /** An exact greeting counts. */
  lemma {:induction false} GreetingExactExample(a: string)
    requires a == "hello"
    ensures IsGreeting(Some(a))
  {
    NormalFormFixed(a);
  }

  /** The listed prefixes count, whatever the case and padding. */
  lemma {:induction false} GreetingPrefixExample(b: string, t: string)
    requires b == "  Hi there" && t == "hi there"
    ensures Normalize(b) == t
    ensures IsGreeting(Some(b))
  {
    PaddedHiThere(b, t);
    assert t[..3] == "hi ";
  }

  lemma {:induction false} PaddedHiThere(b: string, t: string)
    requires b == "  Hi there" && t == "hi there"
    ensures Normalize(b) == t
  {
    NormalFormFixed(t);
    var u := "Hi there";
    assert b == "  " + u + "";
    assert Lower(u) == Lower(t);
    NormalizeIgnoresCaseAndPadding("  ", u, "", t);
  }

  /** The "hi " prefix needs the space: "hi-tech topics" is not a greeting. */
  lemma {:induction false} HiTechNotGreeting(a: string)
    requires a == "hi-tech topics"
    ensures !IsGreeting(Some(a))
  {
    NormalFormFixed(a);
    assert a[2] == '-' && a[0] != 'g';
  }

  /** There is no "yo " prefix: "yo there" is not a greeting. */
  lemma {:induction false} YoThereNotGreeting(b: string)
    requires b == "yo there"
    ensures !IsGreeting(Some(b))
  {
    NormalFormFixed(b);
    assert b[0] == 'y' && b[1] == 'o';
  }

  /** "yo" has no punctuated variant: "yo!" is not a greeting. */
  lemma {:induction false} YoBangNotGreeting(c: string)
    requires c == "yo!"
    ensures !IsGreeting(Some(c))
  {
    NormalFormFixed(c);
    assert c[0] == 'y';
  }
}
