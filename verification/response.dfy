/**
 * The API response (dto.QueryResponse) built from a pipeline result
 * (QueryResult): every field is copied, the latency is added, and the route
 * is derived from the intent name.
 */
module Response {
  import opened Wrappers
  import IntentClassifier

  /** A candidate of the retrieval chain; its map is copied, never inspected. */
  datatype Candidate = Candidate(entries: seq<(string, string)>)

  /** `org.example.QueryResult`: every field may be null. */
  datatype QueryResult = QueryResult(answer: Option<string>, sources: Option<seq<string>>, sql: Option<string>,
                                     retrievalChain: Option<seq<Candidate>>, confidence: Option<string>,
                                     intent: Option<string>)

  /** `dto.QueryResponse`. */
  datatype QueryResponse = QueryResponse(answer: Option<string>, intent: Option<string>, route: string,
                                         confidence: Option<string>, latencyMs: int, sources: Option<seq<string>>,
                                         retrievalChain: Option<seq<Candidate>>, sql: Option<string>)

  // ---------- String.equalsIgnoreCase ----------

  /**
   * `Character.toUpperCase` on the characters whose upper case is an ASCII
   * letter; other characters are kept (their upper case can never meet an
   * ASCII letter).
   */
  function UpperChar(c: char): char
  {
    if 'a' <= c <= 'z' then (c as int - 32) as char
    else if c == '\U{131}' then 'I'      // dotless i
    else if c == '\U{17F}' then 'S'      // long s
    else c
  }

  /** `Character.toLowerCase` on the characters whose lower case is an ASCII letter. */
  function LowerChar(c: char): char
  {
    if 'A' <= c <= 'Z' then (c as int + 32) as char
    else if c == '\U{130}' then 'i'      // capital I with dot above
    else if c == '\U{212A}' then 'k'     // Kelvin sign
    else c
  }

  /** Two characters are equal ignoring case when they are equal, or their upper or lower cases are. */
  predicate SameIgnoringCase(a: char, b: char)
  {
    a == b || UpperChar(a) == UpperChar(b) || LowerChar(UpperChar(a)) == LowerChar(UpperChar(b))
  }

  /** `literal.equalsIgnoreCase(s)`: false for null, otherwise same length and every character equal ignoring case. */
  predicate EqualsIgnoreCase(literal: string, s: Option<string>)
  {
    s.Some? && |s.value| == |literal| && forall i :: 0 <= i < |literal| ==> SameIgnoringCase(literal[i], s.value[i])
  }

  // ---------- QueryResponse.from ----------

  const RouteSql: string := "SQL"
  const RouteRag: string := "RAG"
  const RouteMixed: string := "MIXED"

  /** The route for an intent: SQL for FACTUAL, RAG for SEMANTIC, both for anything else. */
  function RouteOf(intent: Option<string>): (r: string)
    ensures r == RouteSql <==> EqualsIgnoreCase("FACTUAL", intent)
    ensures r == RouteRag <==> !EqualsIgnoreCase("FACTUAL", intent) && EqualsIgnoreCase("SEMANTIC", intent)
    ensures r == RouteMixed <==> !EqualsIgnoreCase("FACTUAL", intent) && !EqualsIgnoreCase("SEMANTIC", intent)
  {
    if EqualsIgnoreCase("FACTUAL", intent) then RouteSql
    else if EqualsIgnoreCase("SEMANTIC", intent) then RouteRag
    else RouteMixed
  }

  /** `QueryResponse.from(result, latencyMs)`. */
  function From(result: QueryResult, latencyMs: int): (r: QueryResponse)
    ensures r.answer == result.answer && r.intent == result.intent && r.confidence == result.confidence
    ensures r.sources == result.sources && r.retrievalChain == result.retrievalChain && r.sql == result.sql
    ensures r.latencyMs == latencyMs
    ensures r.route == RouteOf(result.intent)
  {
    QueryResponse(result.answer, result.intent, RouteOf(result.intent), result.confidence, latencyMs,
                  result.sources, result.retrievalChain, result.sql)
  }

  /** The route follows the intent the classifier names: FACTUAL to SQL, SEMANTIC to RAG, MIXED to both. */
  lemma {:induction false} RouteOfClassifiedIntent(i: IntentClassifier.Intent)
    ensures RouteOf(Some(IntentClassifier.Name(i))) == (match i
                                                        case Factual => RouteSql
                                                        case Semantic => RouteRag
                                                        case Mixed => RouteMixed)
  {
    var n := IntentClassifier.Name(i);
    match i
    case Factual =>
      assert EqualsIgnoreCase("FACTUAL", Some(n));
    case Semantic =>
      assert |n| != |"FACTUAL"|;
      assert EqualsIgnoreCase("SEMANTIC", Some(n));
    case Mixed =>
      assert |n| != |"FACTUAL"| && |n| != |"SEMANTIC"|;
  }

  /** The case class of a character as `equalsIgnoreCase` sees it: lower case of upper case. */
  function Fold(c: char): char
  {
    LowerChar(UpperChar(c))
  }

  /** The route ignores letter case in the intent name, in the sense of `equalsIgnoreCase`. */
  lemma {:induction false} RouteIgnoresCase(s: string, t: string)
    requires |s| == |t| && forall i :: 0 <= i < |s| ==> Fold(s[i]) == Fold(t[i])
    ensures RouteOf(Some(s)) == RouteOf(Some(t))
  {
    forall lit: string | lit == "FACTUAL" || lit == "SEMANTIC"
      ensures EqualsIgnoreCase(lit, Some(s)) == EqualsIgnoreCase(lit, Some(t))
    {
      forall i | 0 <= i < |lit| && i < |s|
        ensures SameIgnoringCase(lit[i], s[i]) == SameIgnoringCase(lit[i], t[i])
      {
        LiteralLetter(lit, i, s[i]);
        LiteralLetter(lit, i, t[i]);
      }
    }
  }

  /** Against an upper-case ASCII letter, equality ignoring case is equality of case classes. */
  lemma {:induction false} LiteralLetter(lit: string, i: nat, c: char)
    requires (lit == "FACTUAL" || lit == "SEMANTIC") && i < |lit|
    ensures SameIgnoringCase(lit[i], c) <==> Fold(c) == Fold(lit[i])
  {
    assert 'A' <= lit[i] <= 'Z';
  }

  /**
   * Names route whatever their case, and the Unicode letters whose case maps
   * meet ASCII count too: "SEMANT\u0130C" (capital I with dot above) is SEMANTIC.
   */
  lemma {:induction false} RouteExamples(a: string, b: string, c: string, d: string)
    requires a == "factual" && b == "Semantic" && c == "MIXED" && d == "SEMANT\U{130}C"
    ensures RouteOf(Some(a)) == RouteSql && RouteOf(Some(b)) == RouteRag
    ensures RouteOf(Some(c)) == RouteMixed && RouteOf(Some(d)) == RouteRag
  {
    assert EqualsIgnoreCase("FACTUAL", Some(a));
    assert |b| != 7 && EqualsIgnoreCase("SEMANTIC", Some(b));
    assert |c| != 7 && |c| != 8;
    assert |d| != 7 && EqualsIgnoreCase("SEMANTIC", Some(d));
  }
}
