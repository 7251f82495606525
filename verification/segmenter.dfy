/**
 * ChunkExporter.splitToChunks: sentence splitting, the greedy first pass,
 * and the post-pass that hard-splits any chunk longer than 1.5 x
 * `targetChars`. `SplitToChunks` uses the intended hard split;
 * `SplitToChunksAsWritten` uses the loop as the source writes it and is
 * shown not to terminate on a single over-long sentence.
 */
module Segmenter {
  import opened Strings
  import opened Sentences
  import opened Packing
  import opened HardSplit

  /** `TARGET_CHUNK_CHARS` and `CHUNK_OVERLAP_CHARS` of the exporter. */
  const TargetChunkChars: int := 1200
  const ChunkOverlapChars: int := 250

  /** `c.length() <= targetChars * 1.5`, compared exactly in integers. */
  predicate WithinCeiling(c: string, targetChars: int)
  {
    2 * |c| <= 3 * targetChars
  }

  /** Every chunk is within the hard ceiling. */
  predicate AllWithinCeiling(cs: seq<string>, targetChars: int)
  {
    forall k :: 0 <= k < |cs| ==> WithinCeiling(cs[k], targetChars)
  }

  /** What the post-pass makes of one first-pass chunk. */
  function Pieces(c: string, targetChars: int, overlapChars: int): (r: seq<string>)
    requires 0 <= overlapChars < targetChars
    ensures |r| >= 1
    ensures AllWithinCeiling(r, targetChars)
    ensures WithinCeiling(c, targetChars) ==> r == [c]
  {
    if WithinCeiling(c, targetChars) then [c] else Windows(c, targetChars, overlapChars)
  }

  /** The post-pass: every chunk replaced by its pieces, in order. */
  function PostPass(chunks: seq<string>, targetChars: int, overlapChars: int): (r: seq<string>)
    requires 0 <= overlapChars < targetChars
    ensures |r| >= |chunks|
    ensures AllWithinCeiling(r, targetChars)
  {
    if |chunks| == 0 then []
    else
      var first := Pieces(chunks[0], targetChars, overlapChars);
      var rest := PostPass(chunks[1..], targetChars, overlapChars);
      CeilingAppend(first, rest, targetChars);
      first + rest
  }

  lemma {:induction false} CeilingAppend(a: seq<string>, b: seq<string>, targetChars: int)
    requires AllWithinCeiling(a, targetChars) && AllWithinCeiling(b, targetChars)
    ensures AllWithinCeiling(a + b, targetChars)
  {
    assert forall k :: |a| <= k < |a| + |b| ==> (a + b)[k] == b[k - |a|];
  }

  /**
   * The post-pass works chunk by chunk: the result for a concatenation is the
   * concatenation of the results, so no chunk is dropped, reordered or merged.
   */
  lemma {:induction false} PostPassAppend(a: seq<string>, b: seq<string>, targetChars: int, overlapChars: int)
    requires 0 <= overlapChars < targetChars
    ensures PostPass(a + b, targetChars, overlapChars)
            == PostPass(a, targetChars, overlapChars) + PostPass(b, targetChars, overlapChars)
  {
    if |a| == 0 {
      assert a + b == b;
    } else {
      var first := Pieces(a[0], targetChars, overlapChars);
      var restA := PostPass(a[1..], targetChars, overlapChars);
      var restB := PostPass(b, targetChars, overlapChars);
      calc {
        PostPass(a + b, targetChars, overlapChars);
        { PostPassCons(a + b, targetChars, overlapChars); ConsSplit(a, b); }
        first + PostPass(a[1..] + b, targetChars, overlapChars);
        { PostPassAppend(a[1..], b, targetChars, overlapChars); }
        first + (restA + restB);
        { AppendAssoc(first, restA, restB); }
        (first + restA) + restB;
        { PostPassCons(a, targetChars, overlapChars); }
        PostPass(a, targetChars, overlapChars) + restB;
      }
    }
  }

  lemma PostPassCons(chunks: seq<string>, targetChars: int, overlapChars: int)
    requires 0 <= overlapChars < targetChars && |chunks| > 0
    ensures PostPass(chunks, targetChars, overlapChars)
            == Pieces(chunks[0], targetChars, overlapChars) + PostPass(chunks[1..], targetChars, overlapChars)
  {
  }

  lemma AppendAssoc<T>(x: seq<T>, y: seq<T>, z: seq<T>)
    ensures x + (y + z) == (x + y) + z
  {
  }

  lemma ConsSplit<T>(a: seq<T>, b: seq<T>)
    requires |a| > 0
    ensures (a + b)[0] == a[0] && (a + b)[1..] == a[1..] + b
  {
  }

  /** A chunk within 1.5 x target comes out as itself, in its place among the pieces of the others. */
  lemma {:induction false} ShortChunkKept(a: seq<string>, c: string, b: seq<string>, targetChars: int, overlapChars: int)
    requires 0 <= overlapChars < targetChars
    requires WithinCeiling(c, targetChars)
    ensures PostPass(a + [c] + b, targetChars, overlapChars)
            == PostPass(a, targetChars, overlapChars) + [c] + PostPass(b, targetChars, overlapChars)
  {
    PostPassAppend(a + [c], b, targetChars, overlapChars);
    PostPassAppend(a, [c], targetChars, overlapChars);
    assert [c][1..] == [];
    assert PostPass([c], targetChars, overlapChars) == [c];
  }

  /** Chunks within 1.5 x target are emitted unchanged and in order. */
  lemma {:induction false} PostPassKeepsShortChunks(chunks: seq<string>, targetChars: int, overlapChars: int)
    requires 0 <= overlapChars < targetChars
    requires AllWithinCeiling(chunks, targetChars)
    ensures PostPass(chunks, targetChars, overlapChars) == chunks
  {
    if |chunks| > 0 {
      PostPassKeepsShortChunks(chunks[1..], targetChars, overlapChars);
      assert chunks == [chunks[0]] + chunks[1..];
    }
  }

  /** The text the sentences of `text` spell out. */
  function Body(text: string): string
  {
    Concat(SplitIntoSentences(text))
  }

  /**
   * `splitToChunks` with the intended hard split. Every chunk is within the
   * hard ceiling of 1.5 x target, and there is a chunk exactly when the
   * sentences hold some text.
   */
  function SplitToChunks(text: string, targetChars: int, overlapChars: int): (r: seq<string>)
    requires 0 <= overlapChars < targetChars
    ensures AllWithinCeiling(r, targetChars)
    ensures |r| > 0 <==> Body(text) != ""
  {
    var sents := SplitIntoSentences(text);
    var p := FirstPass(sents, targetChars, overlapChars);
    FirstPassEmptyIff(sents, targetChars, overlapChars);
    PostPass(p.chunks, targetChars, overlapChars)
  }

  /** A text that starts outside a delimiter always gives at least one chunk. */
  lemma {:induction false} ContentGivesChunk(text: string, targetChars: int, overlapChars: int)
    requires 0 <= overlapChars < targetChars
    requires |text| > 0 && !IsDelimiter(text[0])
    ensures |SplitToChunks(text, targetChars, overlapChars)| > 0
  {
    assert !AllDelimiters(text);
    DelimiterLengthIs(text, 0);
    assert Covered(text) == text;
  }

  /** The first pass emits nothing exactly when the sentences hold no text. */
  lemma {:induction false} FirstPassEmptyIff(sents: seq<string>, targetChars: int, overlapChars: int)
    requires 0 <= overlapChars
    ensures |FirstPass(sents, targetChars, overlapChars).chunks| == 0 <==> Concat(sents) == ""
  {
    var p := FirstPass(sents, targetChars, overlapChars);
    assert sents[0..|sents|] == sents;
    if |p.spans| > 0 {
      assert SpanOk(sents, targetChars, overlapChars, p.spans, p.chunks, 0);
      ConcatRunLength(sents, 0, p.spans[0].seed, p.spans[0].end, |sents|);
    }
  }

  /**
   * A text whose sentences fit into one buffer gives exactly one chunk, the
   * trimmed concatenation of its sentences.
   */
  lemma {:induction false} SingleChunk(text: string, targetChars: int, overlapChars: int)
    requires 0 <= overlapChars < targetChars
    requires 0 < |Body(text)| <= targetChars
    ensures SplitToChunks(text, targetChars, overlapChars) == [Trim(Body(text))]
  {
    var sents := SplitIntoSentences(text);
    var p := FirstPass(sents, targetChars, overlapChars);
    FitsInOneBuffer(sents, targetChars, overlapChars);
    assert WithinCeiling(p.chunks[0], targetChars);
    PostPassKeepsShortChunks(p.chunks, targetChars, overlapChars);
  }

  lemma {:induction false} FitsInOneBuffer(sents: seq<string>, targetChars: int, overlapChars: int)
    requires 0 <= overlapChars && 0 < |Concat(sents)| <= targetChars
    ensures FirstPass(sents, targetChars, overlapChars).chunks == [Trim(Concat(sents))]
  {
    var p := FirstPass(sents, targetChars, overlapChars);
    FirstPassEmptyIff(sents, targetChars, overlapChars);
    assert sents[0..|sents|] == sents;
    AtMostOneSpan(sents, targetChars, overlapChars, p);
    OneSpanIsWhole(sents, targetChars, overlapChars, p);
  }

  /** When all the text fits into one buffer, no buffer is closed early. */
  lemma {:induction false} AtMostOneSpan(sents: seq<string>, targetChars: int, overlapChars: int, p: Packed)
    requires 0 <= overlapChars && PackedOk(sents, targetChars, overlapChars, p)
    requires |Run(sents, 0, |sents|)| <= targetChars
    ensures |p.spans| <= 1
  {
    if |p.spans| > 1 {
      assert SpanOk(sents, targetChars, overlapChars, p.spans, p.chunks, 0);
      assert Overflows(sents, targetChars, p.spans[0]);
      var e := p.spans[0].end;
      RunExtend(sents, 0, e);
      ConcatRunLength(sents, 0, 0, e + 1, |sents|);
      assert false;
    }
  }

  /** A single buffer holds all the text. */
  lemma {:induction false} OneSpanIsWhole(sents: seq<string>, targetChars: int, overlapChars: int, p: Packed)
    requires 0 <= overlapChars && PackedOk(sents, targetChars, overlapChars, p)
    requires |p.spans| == 1
    ensures p.chunks == [Trim(Run(sents, 0, |sents|))]
  {
    assert SpanOk(sents, targetChars, overlapChars, p.spans, p.chunks, 0);
    var e := p.spans[0].end;
    assert p.spans[|p.spans| - 1].end == e;
    assert Run(sents, e, |sents|) == "";
    ConcatSplit(sents, 0, e, |sents|);
    assert Run(sents, 0, |sents|) == Run(sents, 0, e) + Run(sents, e, |sents|);
    assert Run(sents, 0, |sents|) == Run(sents, 0, e);
    assert p.chunks[0] == Trim(Run(sents, 0, e));
    assert p.chunks == [p.chunks[0]];
  }

  // ---------- the source's hard split ----------

  /** Pieces of one chunk with the loop as written, and whether that loop ended within `fuel` steps. */
  function PiecesAsWritten(c: string, targetChars: int, overlapChars: int, fuel: nat): (r: (seq<string>, bool))
    requires 0 < targetChars && 0 <= overlapChars
  {
    if WithinCeiling(c, targetChars) then ([c], true)
    else
      var t := Trace(|c|, targetChars, overlapChars, 0, fuel);
      (Texts(c, t.windows), t.done)
  }

  /** The post-pass as written, with a step budget for every hard split; `.1` is false if one of them did not end. */
  function PostPassAsWritten(chunks: seq<string>, targetChars: int, overlapChars: int, fuel: nat): (r: (seq<string>, bool))
    requires 0 < targetChars && 0 <= overlapChars
  {
    if |chunks| == 0 then ([], true)
    else
      var first := PiecesAsWritten(chunks[0], targetChars, overlapChars, fuel);
      var rest := PostPassAsWritten(chunks[1..], targetChars, overlapChars, fuel);
      (first.0 + rest.0, first.1 && rest.1)
  }

  /** `splitToChunks` exactly as written, run with a step budget for its hard-split loops. */
  function SplitToChunksAsWritten(text: string, targetChars: int, overlapChars: int, fuel: nat): (r: (seq<string>, bool))
    requires 0 < targetChars && 0 <= overlapChars
  {
    PostPassAsWritten(FirstPass(SplitIntoSentences(text), targetChars, overlapChars).chunks,
                      targetChars, overlapChars, fuel)
  }

  /** Where the hard split as written finishes, it gives the intended pieces. */
  lemma {:induction false} PiecesAgreeWhenDone(c: string, targetChars: int, overlapChars: int, fuel: nat)
    requires 0 <= overlapChars < targetChars
    ensures PiecesAsWritten(c, targetChars, overlapChars, fuel).1
            ==> PiecesAsWritten(c, targetChars, overlapChars, fuel).0 == Pieces(c, targetChars, overlapChars)
  {
    if !WithinCeiling(c, targetChars) {
      AsWrittenAgreesWhenDone(|c|, targetChars, overlapChars, 0, fuel);
    }
  }

  lemma {:induction false} PostPassAgreesWhenDone(chunks: seq<string>, targetChars: int, overlapChars: int, fuel: nat)
    requires 0 <= overlapChars < targetChars
    ensures PostPassAsWritten(chunks, targetChars, overlapChars, fuel).1
            ==> PostPassAsWritten(chunks, targetChars, overlapChars, fuel).0 == PostPass(chunks, targetChars, overlapChars)
  {
    if |chunks| > 0 {
      PiecesAgreeWhenDone(chunks[0], targetChars, overlapChars, fuel);
      PostPassAgreesWhenDone(chunks[1..], targetChars, overlapChars, fuel);
    }
  }

  /**
   * Whenever `splitToChunks` as written finishes within its step budget, its
   * chunks are exactly those of `SplitToChunks`: the corrected model differs
   * from the source only where the source does not terminate.
   */
  lemma {:induction false} AsWrittenAgreesWhenFinished(text: string, targetChars: int, overlapChars: int, fuel: nat)
    requires 0 <= overlapChars < targetChars
    ensures SplitToChunksAsWritten(text, targetChars, overlapChars, fuel).1
            ==> SplitToChunksAsWritten(text, targetChars, overlapChars, fuel).0 == SplitToChunks(text, targetChars, overlapChars)
  {
    var sents := SplitIntoSentences(text);
    PostPassAgreesWhenDone(FirstPass(sents, targetChars, overlapChars).chunks, targetChars, overlapChars, fuel);
  }

  /** A text without delimiters is one sentence. */
  lemma {:induction false} SingleSentence(x: string)
    requires x != "" && NoDelimiters(x)
    ensures SplitIntoSentences(x) == [x]
  {
    BodyLengthIs(x, |x|);
    assert x[|x|..] == [];
    assert IsSentence(x);
    assert WellSplit([x]);
    assert DelimiterLength(x) == 0;
    MatchesUnique(x, [x]);
  }

  /** One non-empty sentence makes one first-pass chunk, itself trimmed. */
  lemma {:induction false} FirstPassOneSentence(x: string, targetChars: int, overlapChars: int)
    requires x != "" && 0 <= overlapChars
    ensures FirstPass([x], targetChars, overlapChars).chunks == [Trim(x)]
  {
    var p := FirstPass([x], targetChars, overlapChars);
    FirstPassEmptyIff([x], targetChars, overlapChars);
    assert [x][0..1] == [x];
    OneSentenceOneSpan(x, targetChars, overlapChars, p);
    OneSpanIsWhole([x], targetChars, overlapChars, p);
  }

  /** With one sentence, the first buffer already takes it. */
  lemma {:induction false} OneSentenceOneSpan(x: string, targetChars: int, overlapChars: int, p: Packed)
    requires 0 <= overlapChars && PackedOk([x], targetChars, overlapChars, p) && |p.spans| > 0
    ensures |p.spans| == 1
  {
    assert SpanOk([x], targetChars, overlapChars, p.spans, p.chunks, 0);
    if |p.spans| > 1 {
      assert false;
    }
  }

  /**
   * One sentence longer than 1.5 x target, with no surrounding whitespace,
   * sends `splitToChunks` as written into its non-terminating hard split:
   * however many steps it is given, it has not finished.
   */
  lemma {:induction false} LongSentenceNeverFinishes(text: string, targetChars: int, overlapChars: int, fuel: nat)
    requires 0 < targetChars && 0 < overlapChars
    requires text != "" && NoDelimiters(text) && AllVisible(text)
    requires !WithinCeiling(text, targetChars)
    ensures !SplitToChunksAsWritten(text, targetChars, overlapChars, fuel).1
  {
    VisibleSentenceIsOneChunk(text, targetChars, overlapChars);
    OneChunkAsWritten(text, targetChars, overlapChars, fuel);
    AsWrittenNeverTerminates(|text|, targetChars, overlapChars, 0, fuel);
  }

  /** One chunk over 1.5 x target anywhere in the list keeps the post-pass as written from finishing. */
  lemma {:induction false} LongChunkBlocks(chunks: seq<string>, targetChars: int, overlapChars: int, fuel: nat, k: nat)
    requires 0 < overlapChars < targetChars
    requires k < |chunks| && !WithinCeiling(chunks[k], targetChars)
    ensures !PostPassAsWritten(chunks, targetChars, overlapChars, fuel).1
    decreases k
  {
    if k == 0 {
      AsWrittenNeverTerminates(|chunks[0]|, targetChars, overlapChars, 0, fuel);
    } else {
      LongChunkBlocks(chunks[1..], targetChars, overlapChars, fuel, k - 1);
    }
  }

  /**
   * Any text whose first pass yields a chunk longer than 1.5 x target (the
   * chunks are already trimmed) sends `splitToChunks` as written into its
   * non-terminating hard split.
   */
  lemma {:induction false} LongFirstPassChunkNeverFinishes(text: string, targetChars: int, overlapChars: int, fuel: nat, k: nat)
    requires 0 < overlapChars < targetChars
    requires k < |FirstPass(SplitIntoSentences(text), targetChars, overlapChars).chunks|
    requires !WithinCeiling(FirstPass(SplitIntoSentences(text), targetChars, overlapChars).chunks[k], targetChars)
    ensures !SplitToChunksAsWritten(text, targetChars, overlapChars, fuel).1
  {
    LongChunkBlocks(FirstPass(SplitIntoSentences(text), targetChars, overlapChars).chunks, targetChars, overlapChars, fuel, k);
  }

  /** A visible text without delimiters passes the first pass as one chunk. */
  lemma {:induction false} VisibleSentenceIsOneChunk(text: string, targetChars: int, overlapChars: int)
    requires 0 <= overlapChars
    requires text != "" && NoDelimiters(text) && AllVisible(text)
    ensures FirstPass(SplitIntoSentences(text), targetChars, overlapChars).chunks == [text]
  {
    SingleSentence(text);
    FirstPassOneSentence(text, targetChars, overlapChars);
    VisibleIsTrimmed(text);
  }

  lemma {:induction false} VisibleIsTrimmed(s: string)
    requires AllVisible(s)
    ensures Trim(s) == s
  {
    assert TrimLeft(s) == s;
    assert TrimRight(s) == s;
  }

  lemma {:induction false} OneChunkAsWritten(c: string, targetChars: int, overlapChars: int, fuel: nat)
    requires 0 < targetChars && 0 <= overlapChars
    ensures PostPassAsWritten([c], targetChars, overlapChars, fuel).1
            == PiecesAsWritten(c, targetChars, overlapChars, fuel).1
  {
    assert [c][1..] == [];
  }

  predicate AllVisible(s: string)
  {
    forall i :: 0 <= i < |s| ==> !IsTrimmable(s[i])
  }

  /**
   * With the exporter's own settings (1200 / 250), a class text that is a
   * single run of 1801 letters never gets through `splitToChunks` as written.
   */
  lemma {:induction false} DefaultsNeverFinish(fuel: nat)
    ensures var text := seq(1801, _ => 'a');
            !SplitToChunksAsWritten(text, TargetChunkChars, ChunkOverlapChars, fuel).1
  {
    var text := seq(1801, _ => 'a');
    LongSentenceNeverFinishes(text, TargetChunkChars, ChunkOverlapChars, fuel);
  }
}
