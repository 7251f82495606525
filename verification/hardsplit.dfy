/**
 * The post-pass fallback of ChunkExporter.splitToChunks: a chunk longer than
 * 1.5 x `targetChars` is cut into fixed windows of `targetChars` characters,
 * the window start moving back by `overlapChars` after each window.
 *
 * `Trace` models the loop exactly as the source writes it. Once a window
 * reaches the end of the chunk, the source sets the start to
 * `length - overlapChars`, which is still inside the chunk whenever
 * `overlapChars > 0`, so the loop never ends and keeps emitting the same
 * tail window. `Bounds`/`Windows` model the evidently intended loop, which
 * stops after the window that reaches the end; the rest of the model uses it.
 */
module HardSplit {
  import opened Strings

  /** `Math.min(c.length(), idx + targetChars)`. */
  function WindowEnd(len: nat, idx: nat, targetChars: int): (e: nat)
    requires idx <= len && 0 < targetChars
    ensures idx < e <= len || idx == len == e
  {
    if idx + targetChars < len then idx + targetChars else len
  }

  /** `idx = end - overlapChars; if (idx < 0) idx = 0;`. */
  function NextStart(end: nat, overlapChars: int): (n: nat)
    requires 0 <= overlapChars
    ensures n <= end
  {
    if end - overlapChars < 0 then 0 else end - overlapChars
  }

  // ---------- the hard-split loop of splitToChunks as written ----------

  /**
   * What `fuel` iterations of the source loop do from start `idx`: the
   * windows `[idx, end)` whose trimmed text it appends, and whether the loop
   * condition `idx < c.length()` had become false by then.
   */
  datatype Steps = Steps(windows: seq<(nat, nat)>, done: bool)

  /** Every window `[start, end)` lies within a chunk of length `len`. */
  predicate Inside(ws: seq<(nat, nat)>, len: nat)
  {
    forall k :: 0 <= k < |ws| ==> ws[k].0 <= ws[k].1 <= len
  }

  function Trace(len: nat, targetChars: int, overlapChars: int, idx: nat, fuel: nat): (r: Steps)
    requires 0 < targetChars && 0 <= overlapChars && idx <= len
    ensures |r.windows| <= fuel
    ensures Inside(r.windows, len)
    decreases fuel
  {
    if idx >= len then Steps([], true)
    else if fuel == 0 then Steps([], false)
    else
      var end := WindowEnd(len, idx, targetChars);
      var rest := Trace(len, targetChars, overlapChars, NextStart(end, overlapChars), fuel - 1);
      var ws := [(idx, end)] + rest.windows;
      assert forall k :: 1 <= k < |ws| ==> ws[k] == rest.windows[k - 1];
      Steps(ws, rest.done)
  }

  /** The trimmed texts of windows of `c`, in order. */
  function Texts(c: string, ws: seq<(nat, nat)>): (r: seq<string>)
    requires Inside(ws, |c|)
    ensures |r| == |ws|
    ensures forall k :: 0 <= k < |ws| ==> |r[k]| <= ws[k].1 - ws[k].0
  {
    seq(|ws|, k requires 0 <= k < |ws| => Trim(c[ws[k].0..ws[k].1]))
  }

  /**
   * With any positive overlap the loop never ends: after every iteration the
   * start is still inside the chunk, whatever the number of iterations.
   */
  lemma {:induction false} AsWrittenNeverTerminates(len: nat, targetChars: int, overlapChars: int, idx: nat, fuel: nat)
    requires 0 < targetChars && 0 < overlapChars && idx < len
    ensures !Trace(len, targetChars, overlapChars, idx, fuel).done
    ensures |Trace(len, targetChars, overlapChars, idx, fuel).windows| == fuel
    decreases fuel
  {
    if fuel > 0 {
      var end := WindowEnd(len, idx, targetChars);
      AsWrittenNeverTerminates(len, targetChars, overlapChars, NextStart(end, overlapChars), fuel - 1);
    }
  }

  function Repeat<T>(x: T, n: nat): (r: seq<T>)
    ensures |r| == n && forall k :: 0 <= k < n ==> r[k] == x
  {
    if n == 0 then [] else [x] + Repeat(x, n - 1)
  }

  /**
   * The start `len - overlapChars` is a fixed point of the loop when the
   * overlap is positive and at most the window: every iteration from there
   * appends the same tail window `[len - overlapChars, len)` again.
   */
  lemma {:induction false} AsWrittenFixedPoint(len: nat, targetChars: int, overlapChars: int, fuel: nat)
    requires 0 < overlapChars <= targetChars && overlapChars <= len
    ensures NextStart(WindowEnd(len, len - overlapChars, targetChars), overlapChars) == len - overlapChars
    ensures Trace(len, targetChars, overlapChars, len - overlapChars, fuel).windows
            == Repeat((len - overlapChars, len), fuel)
    decreases fuel
  {
    if fuel > 0 {
      AsWrittenFixedPoint(len, targetChars, overlapChars, fuel - 1);
    }
  }

  // ---------- the intended loop ----------

  /**
   * The windows `[start, end)` of the intended hard split from `idx`: each is
   * at most `targetChars` long and ends at `idx + targetChars` or at the end
   * of the chunk; the next one starts `overlapChars` before the previous
   * end, i.e. `targetChars - overlapChars` after the previous start; the
   * last one ends at the end of the chunk.
   */
  function Bounds(len: nat, targetChars: int, overlapChars: int, idx: nat): (r: seq<(nat, nat)>)
    requires 0 <= overlapChars < targetChars && idx <= len
    ensures idx < len <==> |r| > 0
    ensures |r| > 0 ==> r[0].0 == idx && r[|r| - 1].1 == len
    ensures forall k :: 0 <= k < |r| ==>
              r[k].0 < r[k].1 <= len && r[k].1 == WindowEnd(len, r[k].0, targetChars)
    ensures forall k, k' :: 0 <= k && k' == k + 1 && k' < |r| ==> Link(r[k], r[k'], len, targetChars, overlapChars)
    decreases len - idx
  {
    if idx >= len then []
    else
      var end := WindowEnd(len, idx, targetChars);
      if end == len then [(idx, end)]
      else
        var rest := Bounds(len, targetChars, overlapChars, end - overlapChars);
        var r := [(idx, end)] + rest;
        assert forall k :: 1 <= k < |r| ==> r[k] == rest[k - 1];
        r
  }

  /**
   * Consecutive windows: the first stops before the end of the chunk, and the
   * second starts `overlapChars` before the first ends, which is
   * `targetChars - overlapChars` after the first starts.
   */
  predicate Link(a: (nat, nat), b: (nat, nat), len: nat, targetChars: int, overlapChars: int)
  {
    a.1 < len && b.0 == a.1 - overlapChars && b.0 == a.0 + (targetChars - overlapChars)
  }

  /** The intended hard split: the trimmed text of every window. */
  function Windows(c: string, targetChars: int, overlapChars: int): (r: seq<string>)
    requires 0 <= overlapChars < targetChars
    ensures |r| == |Bounds(|c|, targetChars, overlapChars, 0)|
    ensures |c| > 0 <==> |r| > 0
    ensures forall k :: 0 <= k < |r| ==> |r[k]| <= targetChars
  {
    Texts(c, Bounds(|c|, targetChars, overlapChars, 0))
  }

  /** Every character of the chunk from `idx` on lies inside some window. */
  lemma {:induction false} BoundsCover(len: nat, targetChars: int, overlapChars: int, idx: nat, p: nat)
    requires 0 <= overlapChars < targetChars && idx <= p < len
    ensures exists k :: 0 <= k < |Bounds(len, targetChars, overlapChars, idx)|
                        && Bounds(len, targetChars, overlapChars, idx)[k].0 <= p
                        < Bounds(len, targetChars, overlapChars, idx)[k].1
    decreases len - idx
  {
    var b := Bounds(len, targetChars, overlapChars, idx);
    var end := WindowEnd(len, idx, targetChars);
    if p < end {
      assert b[0].0 <= p < b[0].1;
    } else {
      var next := end - overlapChars;
      var rest := Bounds(len, targetChars, overlapChars, next);
      assert b == [(idx, end)] + rest;
      BoundsCover(len, targetChars, overlapChars, next, p);
      var k :| 0 <= k < |rest| && rest[k].0 <= p < rest[k].1;
      assert b[k + 1] == rest[k];
    }
  }

  /**
   * Whenever the source loop has finished, it has visited exactly the
   * intended windows: with a positive overlap it finishes only on an empty
   * remainder, and without overlap the two loops take the same steps.
   */
  lemma {:induction false} AsWrittenAgreesWhenDone(len: nat, targetChars: int, overlapChars: int, idx: nat, fuel: nat)
    requires 0 <= overlapChars < targetChars && idx <= len
    ensures Trace(len, targetChars, overlapChars, idx, fuel).done
            ==> Trace(len, targetChars, overlapChars, idx, fuel).windows == Bounds(len, targetChars, overlapChars, idx)
    decreases fuel
  {
    if idx < len {
      if overlapChars > 0 {
        AsWrittenNeverTerminates(len, targetChars, overlapChars, idx, fuel);
      } else {
        DoneWithoutOverlap(len, targetChars, idx, fuel);
      }
    }
  }

  lemma {:induction false} DoneWithoutOverlap(len: nat, targetChars: int, idx: nat, fuel: nat)
    requires 0 < targetChars && idx <= len
    ensures Trace(len, targetChars, 0, idx, fuel).done ==> Trace(len, targetChars, 0, idx, fuel).windows == Bounds(len, targetChars, 0, idx)
    decreases fuel
  {
    if idx < len && fuel > 0 {
      var end := WindowEnd(len, idx, targetChars);
      var rest := Trace(len, targetChars, 0, end, fuel - 1);
      assert Trace(len, targetChars, 0, idx, fuel).windows == [(idx, end)] + rest.windows;
      DoneWithoutOverlap(len, targetChars, end, fuel - 1);
    }
  }

  /**
   * Where the source loop terminates, that is without overlap, it visits
   * exactly the intended windows.
   */
  lemma {:induction false} AsWrittenAgreesWithoutOverlap(len: nat, targetChars: int, idx: nat, fuel: nat)
    requires 0 < targetChars && idx <= len && fuel >= len - idx
    ensures Trace(len, targetChars, 0, idx, fuel).done
    ensures Trace(len, targetChars, 0, idx, fuel).windows == Bounds(len, targetChars, 0, idx)
    decreases len - idx
  {
    if idx < len {
      var end := WindowEnd(len, idx, targetChars);
      AsWrittenAgreesWithoutOverlap(len, targetChars, end, fuel - 1);
    }
  }
}
