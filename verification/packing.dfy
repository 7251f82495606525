/**
 * The first pass of ChunkExporter.splitToChunks: sentences are packed
 * greedily into a buffer bounded by `targetChars`; when a sentence does not
 * fit into a non-empty buffer, the buffer is closed (trimmed) and the next
 * one is seeded with a backward overlap of whole sentences bounded by
 * `overlapChars`.
 *
 * The fold keeps, next to the emitted strings, the provenance of every
 * buffer as a `Span` of sentence indices, so that its contract can say which
 * sentences each chunk holds.
 */
module Packing {
  import opened Strings

  /**
   * Provenance of one buffer: sentences `[seed, first)` were carried over
   * from the previous buffer as overlap, sentences `[first, end)` were
   * appended as new content.
   */
  datatype Span = Span(seed: nat, first: nat, end: nat)

  /** The text a run of sentences spells out. */
  function Run(sents: seq<string>, lo: nat, hi: nat): string
    requires lo <= hi <= |sents|
  {
    Concat(sents[lo..hi])
  }

  lemma {:induction false} RunExtend(sents: seq<string>, lo: nat, hi: nat)
    requires lo <= hi < |sents|
    ensures Run(sents, lo, hi + 1) == Run(sents, lo, hi) + sents[hi]
  {
    assert sents[lo..hi + 1][..hi - lo] == sents[lo..hi];
  }

  lemma {:induction false} RunPrepend(sents: seq<string>, lo: nat, hi: nat)
    requires 0 < lo <= hi <= |sents|
    ensures Run(sents, lo - 1, hi) == sents[lo - 1] + Run(sents, lo, hi)
  {
    ConcatSplit(sents, lo - 1, lo, hi);
    assert sents[lo - 1..lo] == [sents[lo - 1]];
  }

  // ---------- the backward overlap walk in splitToChunks ----------

  /**
   * The backward walk that seeds a new buffer: starting from an (initially
   * empty) seed `sents[k..i]` holding `kept` characters, it prepends the
   * preceding sentence while `kept < overlapChars` and the longer seed still
   * fits in `overlapChars`. Returns the start index of the seed and the seed.
   */
  function Overlap(sents: seq<string>, i: nat, overlapChars: int, k: nat, next: string, kept: int): (r: (nat, string))
    requires k <= i <= |sents|
    requires next == Run(sents, k, i) && kept == |next| && kept <= overlapChars
    ensures r.0 <= k
    ensures r.1 == Run(sents, r.0, i)
    ensures |r.1| <= overlapChars
    ensures r.0 == 0 || |r.1| >= overlapChars || |r.1| + |sents[r.0 - 1]| > overlapChars
    decreases k
  {
    if k == 0 || kept >= overlapChars then (k, next)
    else
      var prev := sents[k - 1];
      if |next| + |prev| > overlapChars then (k, next)
      else
        RunPrepend(sents, k, i);
        Overlap(sents, i, overlapChars, k - 1, prev + next, kept + |prev|)
  }

  /** Start index of the overlap seed for a buffer whose first new sentence is `sents[i]`. */
  function OverlapSeed(sents: seq<string>, i: nat, overlapChars: int): (k: nat)
    requires i <= |sents| && 0 <= overlapChars
    ensures k <= i
    ensures |Run(sents, k, i)| <= overlapChars
    ensures k == 0 || |Run(sents, k, i)| >= overlapChars
              || |Run(sents, k, i)| + |sents[k - 1]| > overlapChars
  {
    Overlap(sents, i, overlapChars, i, "", 0).0
  }

  // ---------- the greedy sentence fold in splitToChunks ----------

  /** Sentence `j` is appended to the buffer `sents[seed..j]` rather than closing it. */
  predicate Fits(sents: seq<string>, targetChars: int, seed: nat, j: nat)
    requires seed <= j < |sents|
  {
    |Run(sents, seed, j)| + |sents[j]| <= targetChars || |Run(sents, seed, j)| == 0
  }

  /** A buffer that was closed because its next sentence would overflow it. */
  predicate Overflows(sents: seq<string>, targetChars: int, sp: Span)
  {
    && sp.seed <= sp.end < |sents|
    && |Run(sents, sp.seed, sp.end)| > 0
    && |Run(sents, sp.seed, sp.end)| + |sents[sp.end]| > targetChars
  }

  /**
   * What the m-th buffer is: a run of sentences whose seed is the overlap of
   * the previous buffer (the very first has none), whose new part starts
   * where the previous buffer ended, that holds some text, that was packed
   * greedily, and whose chunk is its trimmed text.
   */
  predicate SpanOk(sents: seq<string>, targetChars: int, overlapChars: int,
                   spans: seq<Span>, chunks: seq<string>, m: nat)
    requires 0 <= overlapChars
    requires m < |spans| == |chunks|
  {
    var sp := spans[m];
    && sp.seed <= sp.first < sp.end <= |sents|
    && chunks[m] == Trim(Run(sents, sp.seed, sp.end))
    && |Run(sents, sp.seed, sp.end)| > 0
    && (m == 0 ==> sp.seed == 0 && sp.first == 0)
    && (m > 0 ==> sp.first == spans[m - 1].end && sp.seed == OverlapSeed(sents, sp.first, overlapChars))
    && Greedy(sents, targetChars, sp.seed, sp.first, sp.end)
  }

  /** Every sentence after the first new one in `[first, hi)` was appended because it fit. */
  predicate Greedy(sents: seq<string>, targetChars: int, seed: nat, first: nat, hi: nat)
    requires seed <= first <= hi <= |sents|
  {
    forall j :: first < j < hi ==> Fits(sents, targetChars, seed, j)
  }

  predicate AllSpansOk(sents: seq<string>, targetChars: int, overlapChars: int,
                       spans: seq<Span>, chunks: seq<string>)
    requires 0 <= overlapChars
    requires |spans| == |chunks|
  {
    forall m :: 0 <= m < |spans| ==> SpanOk(sents, targetChars, overlapChars, spans, chunks, m)
  }

  /** All of `spans[..n]` were closed because of an overflow. */
  predicate AllOverflow(sents: seq<string>, targetChars: int, spans: seq<Span>, n: int)
  {
    forall m :: 0 <= m < |spans| && m < n ==> Overflows(sents, targetChars, spans[m])
  }

  /** The fold state: emitted chunks with their spans, and the open buffer. */
  datatype State = State(chunks: seq<string>, spans: seq<Span>, cur: string, seed: nat, first: nat)

  /** The fold invariant after `i` sentences. */
  predicate Inv(sents: seq<string>, targetChars: int, overlapChars: int, i: nat, st: State)
    requires 0 <= overlapChars
  {
    && st.seed <= st.first <= i <= |sents|
    && (i > 0 ==> st.first < i)
    && st.cur == Run(sents, st.seed, i)
    && |st.chunks| == |st.spans|
    && (|st.spans| == 0 ==> st.seed == 0 && st.first == 0)
    && (|st.spans| > 0 ==>
          st.first == st.spans[|st.spans| - 1].end && st.seed == OverlapSeed(sents, st.first, overlapChars))
    && AllSpansOk(sents, targetChars, overlapChars, st.spans, st.chunks)
    && AllOverflow(sents, targetChars, st.spans, |st.spans|)
    && Greedy(sents, targetChars, st.seed, st.first, i)
  }

  /**
   * One iteration of the loop over the sentences: append `sents[i]` when it
   * fits or the buffer is empty, otherwise close the buffer and seed a new
   * one with the backward overlap followed by the sentence.
   */
  function Step(sents: seq<string>, targetChars: int, overlapChars: int, i: nat, st: State): (r: State)
    requires 0 <= overlapChars
    requires i < |sents| && Inv(sents, targetChars, overlapChars, i, st)
    ensures Inv(sents, targetChars, overlapChars, i + 1, r)
  {
    var s := sents[i];
    if |st.cur| + |s| <= targetChars || |st.cur| == 0 then
      AppendStep(sents, targetChars, overlapChars, i, st);
      st.(cur := st.cur + s)
    else
      var ov := Overlap(sents, i, overlapChars, i, "", 0);
      var st' := State(st.chunks + [Trim(st.cur)], st.spans + [Span(st.seed, st.first, i)],
                       ov.1 + s, ov.0, i);
      CloseStep(sents, targetChars, overlapChars, i, st, st');
      st'
  }

  /** The loop over the remaining sentences `sents[i..]`. */
  function Pass(sents: seq<string>, targetChars: int, overlapChars: int, i: nat, st: State): (r: State)
    requires 0 <= overlapChars
    requires i <= |sents| && Inv(sents, targetChars, overlapChars, i, st)
    ensures Inv(sents, targetChars, overlapChars, |sents|, r)
    decreases |sents| - i
  {
    if i == |sents| then st
    else
      var next := Step(sents, targetChars, overlapChars, i, st);
      Pass(sents, targetChars, overlapChars, i + 1, next)
  }

  lemma {:induction false} AppendStep(sents: seq<string>, targetChars: int, overlapChars: int, i: nat, st: State)
    requires 0 <= overlapChars
    requires i < |sents| && Inv(sents, targetChars, overlapChars, i, st)
    requires |st.cur| + |sents[i]| <= targetChars || |st.cur| == 0
    ensures Inv(sents, targetChars, overlapChars, i + 1, st.(cur := st.cur + sents[i]))
  {
    RunExtend(sents, st.seed, i);
    assert Fits(sents, targetChars, st.seed, i);
  }

  lemma {:induction false} CloseStep(sents: seq<string>, targetChars: int, overlapChars: int, i: nat, st: State, st': State)
    requires 0 <= overlapChars
    requires i < |sents| && Inv(sents, targetChars, overlapChars, i, st)
    requires |st.cur| + |sents[i]| > targetChars && |st.cur| != 0
    requires st' == State(st.chunks + [Trim(st.cur)], st.spans + [Span(st.seed, st.first, i)],
                          Overlap(sents, i, overlapChars, i, "", 0).1 + sents[i],
                          Overlap(sents, i, overlapChars, i, "", 0).0, i)
    ensures Inv(sents, targetChars, overlapChars, i + 1, st')
  {
    var k := st'.seed;
    assert k == OverlapSeed(sents, i, overlapChars);
    RunExtend(sents, k, i);
    var n := |st.spans|;
    forall m | 0 <= m < |st'.spans|
      ensures SpanOk(sents, targetChars, overlapChars, st'.spans, st'.chunks, m)
      ensures Overflows(sents, targetChars, st'.spans[m])
    {
      if m < n {
        assert st'.spans[m] == st.spans[m] && st'.chunks[m] == st.chunks[m];
        assert SpanOk(sents, targetChars, overlapChars, st.spans, st.chunks, m);
        if m > 0 {
          assert st'.spans[m - 1] == st.spans[m - 1];
        }
      } else {
        assert st'.spans[m] == Span(st.seed, st.first, i);
        assert st'.chunks[m] == Trim(st.cur);
        if m > 0 {
          assert st'.spans[m - 1] == st.spans[n - 1];
        }
      }
    }
  }

  /** The empty state before the first sentence. */
  lemma {:induction false} InitInv(sents: seq<string>, targetChars: int, overlapChars: int)
    requires 0 <= overlapChars
    ensures Inv(sents, targetChars, overlapChars, 0, State([], [], "", 0, 0))
  {
  }

  /** Result of the first pass: the chunks and the provenance of each. */
  datatype Packed = Packed(chunks: seq<string>, spans: seq<Span>)

  /**
   * What the first pass promises: every chunk is the trimmed text of a
   * buffer described by `SpanOk`; every buffer but the last was closed
   * because the next sentence would overflow it; the new parts of the
   * buffers follow each other from sentence 0, so every sentence is appended
   * exactly once, in order, as new content; and whatever follows the last
   * buffer spells out no text.
   */
  predicate PackedOk(sents: seq<string>, targetChars: int, overlapChars: int, p: Packed)
    requires 0 <= overlapChars
  {
    && |p.chunks| == |p.spans|
    && AllSpansOk(sents, targetChars, overlapChars, p.spans, p.chunks)
    && AllOverflow(sents, targetChars, p.spans, |p.spans| - 1)
    && (|p.spans| == 0 ==> Run(sents, 0, |sents|) == "")
    && (|p.spans| > 0 ==> p.spans[|p.spans| - 1].end <= |sents|
                          && Run(sents, p.spans[|p.spans| - 1].end, |sents|) == "")
  }

  /** The first pass of `splitToChunks` over the sentence list. */
  function FirstPass(sents: seq<string>, targetChars: int, overlapChars: int): (r: Packed)
    requires 0 <= overlapChars
    ensures PackedOk(sents, targetChars, overlapChars, r)
  {
    InitInv(sents, targetChars, overlapChars);
    var st := Pass(sents, targetChars, overlapChars, 0, State([], [], "", 0, 0));
    if |st.cur| > 0 then
      var r := Packed(st.chunks + [Trim(st.cur)], st.spans + [Span(st.seed, st.first, |sents|)]);
      FinishOpen(sents, targetChars, overlapChars, st, r);
      r
    else
      FinishEmpty(sents, targetChars, overlapChars, st);
      Packed(st.chunks, st.spans)
  }

  lemma {:induction false} FinishOpen(sents: seq<string>, targetChars: int, overlapChars: int, st: State, r: Packed)
    requires 0 <= overlapChars
    requires Inv(sents, targetChars, overlapChars, |sents|, st) && |st.cur| > 0
    requires r == Packed(st.chunks + [Trim(st.cur)], st.spans + [Span(st.seed, st.first, |sents|)])
    ensures PackedOk(sents, targetChars, overlapChars, r)
  {
    var n := |st.spans|;
    assert |sents| > 0;
    forall m | 0 <= m < |r.spans|
      ensures SpanOk(sents, targetChars, overlapChars, r.spans, r.chunks, m)
    {
      if m < n {
        assert r.spans[m] == st.spans[m] && r.chunks[m] == st.chunks[m];
        assert SpanOk(sents, targetChars, overlapChars, st.spans, st.chunks, m);
        if m > 0 {
          assert r.spans[m - 1] == st.spans[m - 1];
        }
      } else {
        if m > 0 {
          assert r.spans[m - 1] == st.spans[n - 1];
        }
      }
    }
    forall m | 0 <= m < |r.spans| - 1
      ensures Overflows(sents, targetChars, r.spans[m])
    {
      assert r.spans[m] == st.spans[m];
    }
    assert sents[|sents|..] == [];
  }

  lemma {:induction false} FinishEmpty(sents: seq<string>, targetChars: int, overlapChars: int, st: State)
    requires 0 <= overlapChars
    requires Inv(sents, targetChars, overlapChars, |sents|, st) && |st.cur| == 0
    ensures PackedOk(sents, targetChars, overlapChars, Packed(st.chunks, st.spans))
  {
    ConcatRunLength(sents, st.seed, st.first, |sents|, |sents|);
  }
}
