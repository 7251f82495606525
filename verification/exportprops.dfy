/**
 * Properties of the whole export: every chunk identifier is distinct when
 * row ids are distinct within each table, kinds come in the order courses,
 * topics, classes, assignments, and each topic's summary comes directly
 * before its aggregate.
 */
module ExportProps {
  import opened Wrappers
  import opened ChunkIds
  import opened Corpus

  predicate UniqueCourseIds(cs: seq<Course>)
  {
    forall i, j :: 0 <= i < j < |cs| ==> cs[i].id != cs[j].id
  }

  predicate UniqueTopicIds(ts: seq<Topic>)
  {
    forall i, j :: 0 <= i < j < |ts| ==> ts[i].id != ts[j].id
  }

  predicate UniqueClassIds(cs: seq<Class>)
  {
    forall i, j :: 0 <= i < j < |cs| ==> cs[i].id != cs[j].id
  }

  predicate UniqueAssignmentIds(as_: seq<Assignment>)
  {
    forall i, j :: 0 <= i < j < |as_| ==> as_[i].id != as_[j].id
  }

  /** Each chunk carries the identifier of the corresponding key. */
  predicate KeyedBy(cs: seq<Chunk>, ks: seq<ChunkKey>)
  {
    |cs| == |ks| && forall i :: 0 <= i < |cs| ==> cs[i].chunkId == RenderKey(ks[i])
  }

  predicate DistinctKeys(ks: seq<ChunkKey>)
  {
    forall i, j :: 0 <= i < j < |ks| ==> ks[i] != ks[j]
  }

  /** Position of a kind in the file: courses, topics (summary and aggregate), classes, assignments. */
  function Rank(k: ChunkKey): nat
  {
    match k
    case CourseKey(_) => 0
    case TopicKey(_) => 1
    case AggregateKey(_) => 1
    case ClassKey(_, _) => 2
    case AssignmentKey(_) => 3
  }

  predicate RankBetween(ks: seq<ChunkKey>, lo: nat, hi: nat)
  {
    forall k :: 0 <= k < |ks| ==> lo <= Rank(ks[k]) <= hi
  }

  predicate Sorted(ks: seq<ChunkKey>)
  {
    forall i, j :: 0 <= i <= j < |ks| ==> Rank(ks[i]) <= Rank(ks[j])
  }

  /** Every aggregate key directly follows the summary key of the same topic. */
  predicate AggregatesFollowSummaries(ks: seq<ChunkKey>)
  {
    forall k :: 0 <= k < |ks| && ks[k].AggregateKey? ==> 0 < k && ks[k - 1] == TopicKey(ks[k].id)
  }

  // ---------- the keys of each table ----------

  function CourseKeys(cs: seq<Course>): seq<ChunkKey>
  {
    seq(|cs|, i requires 0 <= i < |cs| => CourseKey(cs[i].id))
  }

  function TopicKeys(ts: seq<Topic>): seq<ChunkKey>
  {
    if |ts| == 0 then [] else TopicKeys(ts[..|ts| - 1]) + [TopicKey(ts[|ts| - 1].id), AggregateKey(ts[|ts| - 1].id)]
  }

  function PartKeys(id: int, n: nat): seq<ChunkKey>
  {
    seq(n, j requires 0 <= j < n => ClassKey(id, j + 1))
  }

  /** The keys of the classes, given how many parts each class has. */
  function ClassKeys(cs: seq<Class>, count: Class -> nat): seq<ChunkKey>
  {
    if |cs| == 0 then []
    else ClassKeys(cs[..|cs| - 1], count) + PartKeys(cs[|cs| - 1].id, count(cs[|cs| - 1]))
  }

  /** How many parts the exporter writes for a class. */
  function PartCount(iso: int -> string): Class -> nat
  {
    c => |ClassChunks(c, iso)|
  }

  function AssignmentKeys(as_: seq<Assignment>): seq<ChunkKey>
  {
    seq(|as_|, i requires 0 <= i < |as_| => AssignmentKey(as_[i].id))
  }

  function ExportKeys(courses: seq<Course>, topics: seq<Topic>, classes: seq<Class>, assignments: seq<Assignment>,
                      iso: int -> string): seq<ChunkKey>
  {
    CourseKeys(courses) + TopicKeys(topics) + ClassKeys(classes, PartCount(iso)) + AssignmentKeys(assignments)
  }

  // ---------- general facts ----------

  lemma {:induction false} KeyedAppend(a: seq<Chunk>, ka: seq<ChunkKey>, b: seq<Chunk>, kb: seq<ChunkKey>)
    requires KeyedBy(a, ka) && KeyedBy(b, kb)
    ensures KeyedBy(a + b, ka + kb)
  {
    forall i | 0 <= i < |a + b|
      ensures (a + b)[i].chunkId == RenderKey((ka + kb)[i])
    {
      if i < |a| {
        assert (a + b)[i] == a[i] && (ka + kb)[i] == ka[i];
      } else {
        assert (a + b)[i] == b[i - |a|] && (ka + kb)[i] == kb[i - |a|];
      }
    }
  }

  /** Two lists of keys whose ranks do not overlap have no key in common. */
  lemma {:induction false} DistinctByRank(a: seq<ChunkKey>, b: seq<ChunkKey>, r: nat)
    requires DistinctKeys(a) && DistinctKeys(b)
    requires RankBetween(a, 0, r) && RankBetween(b, r + 1, 3)
    ensures DistinctKeys(a + b)
  {
    forall i, j | 0 <= i < j < |a + b|
      ensures (a + b)[i] != (a + b)[j]
    {
      if j < |a| {
        assert (a + b)[i] == a[i] && (a + b)[j] == a[j];
      } else if i >= |a| {
        assert (a + b)[i] == b[i - |a|] && (a + b)[j] == b[j - |a|];
      } else {
        assert Rank((a + b)[i]) <= r < Rank((a + b)[j]);
      }
    }
  }

  lemma {:induction false} SortedAppend(a: seq<ChunkKey>, b: seq<ChunkKey>, r: nat)
    requires Sorted(a) && Sorted(b)
    requires RankBetween(a, 0, r) && RankBetween(b, r, 3)
    ensures Sorted(a + b) && RankBetween(a + b, 0, 3)
  {
    forall i, j | 0 <= i <= j < |a + b|
      ensures Rank((a + b)[i]) <= Rank((a + b)[j])
    {
      if j < |a| {
        assert (a + b)[i] == a[i] && (a + b)[j] == a[j];
      } else if i >= |a| {
        assert (a + b)[i] == b[i - |a|] && (a + b)[j] == b[j - |a|];
      } else {
        assert Rank((a + b)[i]) <= r <= Rank((a + b)[j]);
      }
    }
  }

  lemma {:induction false} FollowAppend(a: seq<ChunkKey>, b: seq<ChunkKey>)
    requires AggregatesFollowSummaries(a) && AggregatesFollowSummaries(b)
    ensures AggregatesFollowSummaries(a + b)
  {
    forall k | 0 <= k < |a + b| && (a + b)[k].AggregateKey?
      ensures 0 < k && (a + b)[k - 1] == TopicKey((a + b)[k].id)
    {
      if k < |a| {
        assert (a + b)[k] == a[k] && (a + b)[k - 1] == a[k - 1];
      } else {
        assert (a + b)[k] == b[k - |a|];
        assert (a + b)[k - 1] == b[k - 1 - |a|];
      }
    }
  }

  // ---------- each table ----------

  lemma {:induction false} CourseSection(cs: seq<Course>, iso: int -> string)
    ensures KeyedBy(CourseChunks(cs, iso), CourseKeys(cs))
    decreases |cs|
  {
    if |cs| > 0 {
      var init, last := cs[..|cs| - 1], cs[|cs| - 1];
      CourseSection(init, iso);
      assert CourseKeys(cs) == CourseKeys(init) + [CourseKey(last.id)];
      KeyedAppend(CourseChunks(init, iso), CourseKeys(init), [CourseChunk(last, iso)], [CourseKey(last.id)]);
    }
  }

  lemma {:induction false} AssignmentSection(as_: seq<Assignment>, iso: int -> string, day: int -> string)
    ensures KeyedBy(AssignmentChunks(as_, iso, day), AssignmentKeys(as_))
    decreases |as_|
  {
    if |as_| > 0 {
      var init, last := as_[..|as_| - 1], as_[|as_| - 1];
      AssignmentSection(init, iso, day);
      assert AssignmentKeys(as_) == AssignmentKeys(init) + [AssignmentKey(last.id)];
      KeyedAppend(AssignmentChunks(init, iso, day), AssignmentKeys(init),
                  [AssignmentChunk(last, iso, day)], [AssignmentKey(last.id)]);
    }
  }

  lemma {:induction false} TopicSection(ts: seq<Topic>, iso: int -> string)
    ensures KeyedBy(TopicChunks(ts, iso), TopicKeys(ts))
    decreases |ts|
  {
    if |ts| > 0 {
      var init, last := ts[..|ts| - 1], ts[|ts| - 1];
      var pair, keys := [TopicChunk(last, iso), AggregateChunk(last, iso)], [TopicKey(last.id), AggregateKey(last.id)];
      TopicSection(init, iso);
      TopicPairKeyed(last, iso);
      KeyedAppend(TopicChunks(init, iso), TopicKeys(init), pair, keys);
      assert TopicChunks(ts, iso) == TopicChunks(init, iso) + pair;
      assert TopicKeys(ts) == TopicKeys(init) + keys;
    }
  }

  lemma {:induction false} TopicPairKeyed(t: Topic, iso: int -> string)
    ensures KeyedBy([TopicChunk(t, iso), AggregateChunk(t, iso)], [TopicKey(t.id), AggregateKey(t.id)])
  {
    var cs, ks := [TopicChunk(t, iso), AggregateChunk(t, iso)], [TopicKey(t.id), AggregateKey(t.id)];
    assert cs[0].chunkId == RenderKey(ks[0]);
    assert cs[1].chunkId == RenderKey(ks[1]);
  }

  /** Topic keys: summaries and aggregates only, each aggregate right after its summary, ids from the table. */
  lemma {:induction false} TopicKeysFacts(ts: seq<Topic>)
    ensures var ks := TopicKeys(ts);
            && |ks| == 2 * |ts|
            && RankBetween(ks, 1, 1)
            && AggregatesFollowSummaries(ks)
            && forall k :: 0 <= k < |ks| ==> exists m :: 0 <= m < |ts| && ts[m].id == ks[k].id
    decreases |ts|
  {
    if |ts| > 0 {
      var init, last := ts[..|ts| - 1], ts[|ts| - 1];
      TopicKeysFacts(init);
      var a := TopicKeys(init);
      var b := [TopicKey(last.id), AggregateKey(last.id)];
      FollowAppend(a, b);
      forall k | 0 <= k < |a + b|
        ensures exists m :: 0 <= m < |ts| && ts[m].id == (a + b)[k].id
      {
        if k < |a| {
          assert (a + b)[k] == a[k];
          var m :| 0 <= m < |init| && init[m].id == a[k].id;
          assert ts[m] == init[m];
        } else {
          assert ts[|ts| - 1].id == (a + b)[k].id;
        }
      }
    }
  }

  lemma {:induction false} TopicKeysDistinct(ts: seq<Topic>)
    requires UniqueTopicIds(ts)
    ensures DistinctKeys(TopicKeys(ts))
    decreases |ts|
  {
    if |ts| > 0 {
      var init, last := ts[..|ts| - 1], ts[|ts| - 1];
      TopicKeysDistinct(init);
      TopicKeysFacts(init);
      var a := TopicKeys(init);
      var b := [TopicKey(last.id), AggregateKey(last.id)];
      forall i, j | 0 <= i < j < |a + b|
        ensures (a + b)[i] != (a + b)[j]
      {
        if j >= |a| && i < |a| {
          assert (a + b)[i] == a[i];
          var m :| 0 <= m < |init| && init[m].id == a[i].id;
          assert ts[m] == init[m];
          assert (a + b)[j].id == ts[|ts| - 1].id;
        } else if j < |a| {
          assert (a + b)[i] == a[i] && (a + b)[j] == a[j];
        }
      }
    }
  }

  /** The parts of one class carry the keys `ClassKey(id, 1..N)`. */
  lemma {:induction false} PartChunksKeyed(id: int, title: JString, pieces: seq<string>, meta: Metadata)
    ensures KeyedBy(PartChunks(id, title, pieces, meta), PartKeys(id, |pieces|))
  {
  }

  lemma {:induction false} ClassSection(cs: seq<Class>, iso: int -> string)
    ensures KeyedBy(AllClassChunks(cs, iso), ClassKeys(cs, PartCount(iso)))
    decreases |cs|
  {
    if |cs| > 0 {
      var init, last := cs[..|cs| - 1], cs[|cs| - 1];
      ClassSection(init, iso);
      PartChunksKeyed(last.id, last.title, ClassPieces(last, iso), ClassMetadata(last, iso));
      assert PartCount(iso)(last) == |ClassChunks(last, iso)|;
      KeyedAppend(AllClassChunks(init, iso), ClassKeys(init, PartCount(iso)),
                  ClassChunks(last, iso), PartKeys(last.id, |ClassChunks(last, iso)|));
    }
  }

  /** Class keys: class parts only, with ids from the table. */
  lemma {:induction false} ClassKeysFacts(cs: seq<Class>, count: Class -> nat)
    ensures var ks := ClassKeys(cs, count);
            && RankBetween(ks, 2, 2)
            && forall k :: 0 <= k < |ks| ==> exists m :: 0 <= m < |cs| && cs[m].id == ks[k].id
    decreases |cs|
  {
    if |cs| > 0 {
      var init, last := cs[..|cs| - 1], cs[|cs| - 1];
      ClassKeysFacts(init, count);
      var a := ClassKeys(init, count);
      var b := PartKeys(last.id, count(last));
      forall k | 0 <= k < |a + b|
        ensures Rank((a + b)[k]) == 2
        ensures exists m :: 0 <= m < |cs| && cs[m].id == (a + b)[k].id
      {
        if k < |a| {
          assert (a + b)[k] == a[k];
          var m :| 0 <= m < |init| && init[m].id == a[k].id;
          assert cs[m] == init[m];
        } else {
          assert (a + b)[k] == b[k - |a|];
          assert cs[|cs| - 1].id == (a + b)[k].id;
        }
      }
    }
  }

  lemma {:induction false} ClassKeysDistinct(cs: seq<Class>, count: Class -> nat)
    requires UniqueClassIds(cs)
    ensures DistinctKeys(ClassKeys(cs, count))
    decreases |cs|
  {
    if |cs| > 0 {
      var init, last := cs[..|cs| - 1], cs[|cs| - 1];
      ClassKeysDistinct(init, count);
      ClassKeysFacts(init, count);
      var a := ClassKeys(init, count);
      var b := PartKeys(last.id, count(last));
      forall i, j | 0 <= i < j < |a + b|
        ensures (a + b)[i] != (a + b)[j]
      {
        if j < |a| {
          assert (a + b)[i] == a[i] && (a + b)[j] == a[j];
        } else if i >= |a| {
          assert (a + b)[i] == b[i - |a|] && (a + b)[j] == b[j - |a|];
        } else {
          assert (a + b)[i] == a[i];
          var m :| 0 <= m < |init| && init[m].id == a[i].id;
          assert cs[m] == init[m];
          assert (a + b)[j] == b[j - |a|];
        }
      }
    }
  }

  // ---------- the whole export ----------

  lemma {:induction false} ExportKeyed(courses: seq<Course>, topics: seq<Topic>, classes: seq<Class>, assignments: seq<Assignment>,
                    iso: int -> string, day: int -> string)
    ensures KeyedBy(Export(courses, topics, classes, assignments, iso, day),
                    ExportKeys(courses, topics, classes, assignments, iso))
  {
    CourseSection(courses, iso);
    TopicSection(topics, iso);
    ClassSection(classes, iso);
    AssignmentSection(assignments, iso, day);
    var c, t, k, a := CourseChunks(courses, iso), TopicChunks(topics, iso),
                      AllClassChunks(classes, iso), AssignmentChunks(assignments, iso, day);
    KeyedAppend(c, CourseKeys(courses), t, TopicKeys(topics));
    KeyedAppend(c + t, CourseKeys(courses) + TopicKeys(topics), k, ClassKeys(classes, PartCount(iso)));
    KeyedAppend(c + t + k, CourseKeys(courses) + TopicKeys(topics) + ClassKeys(classes, PartCount(iso)),
                a, AssignmentKeys(assignments));
  }

  lemma {:induction false} RankAppend(a: seq<ChunkKey>, b: seq<ChunkKey>, lo: nat, hi: nat)
    requires RankBetween(a, lo, hi) && RankBetween(b, lo, hi)
    ensures RankBetween(a + b, lo, hi)
  {
    assert forall k :: |a| <= k < |a + b| ==> (a + b)[k] == b[k - |a|];
  }

  lemma {:induction false} CourseKeysFacts(cs: seq<Course>)
    ensures RankBetween(CourseKeys(cs), 0, 0) && Sorted(CourseKeys(cs))
    ensures AggregatesFollowSummaries(CourseKeys(cs))
    ensures UniqueCourseIds(cs) ==> DistinctKeys(CourseKeys(cs))
  {
  }

  lemma {:induction false} AssignmentKeysFacts(as_: seq<Assignment>)
    ensures RankBetween(AssignmentKeys(as_), 3, 3) && Sorted(AssignmentKeys(as_))
    ensures AggregatesFollowSummaries(AssignmentKeys(as_))
    ensures UniqueAssignmentIds(as_) ==> DistinctKeys(AssignmentKeys(as_))
  {
  }

  /** Four sections of distinct keys, of ranks 0, 1, 2 and 3, make one list of distinct keys. */
  lemma {:induction false} FourSectionsDistinct(c: seq<ChunkKey>, t: seq<ChunkKey>, k: seq<ChunkKey>, a: seq<ChunkKey>)
    requires DistinctKeys(c) && DistinctKeys(t) && DistinctKeys(k) && DistinctKeys(a)
    requires RankBetween(c, 0, 0) && RankBetween(t, 1, 1) && RankBetween(k, 2, 2) && RankBetween(a, 3, 3)
    ensures DistinctKeys(c + t + k + a)
  {
    DistinctByRank(c, t, 0);
    RankAppend(c, t, 0, 1);
    DistinctByRank(c + t, k, 1);
    RankAppend(c + t, k, 0, 2);
    DistinctByRank(c + t + k, a, 2);
  }

  /** Four sections of ranks 0, 1, 2 and 3 make a list sorted by rank. */
  lemma {:induction false} FourSectionsSorted(c: seq<ChunkKey>, t: seq<ChunkKey>, k: seq<ChunkKey>, a: seq<ChunkKey>)
    requires RankBetween(c, 0, 0) && RankBetween(t, 1, 1) && RankBetween(k, 2, 2) && RankBetween(a, 3, 3)
    requires AggregatesFollowSummaries(c) && AggregatesFollowSummaries(t)
    requires AggregatesFollowSummaries(k) && AggregatesFollowSummaries(a)
    ensures Sorted(c + t + k + a) && AggregatesFollowSummaries(c + t + k + a)
  {
    SortedAppend(c, t, 0);
    RankAppend(c, t, 0, 1);
    SortedAppend(c + t, k, 1);
    RankAppend(c + t, k, 0, 2);
    SortedAppend(c + t + k, a, 2);
    FollowAppend(c, t);
    FollowAppend(c + t, k);
    FollowAppend(c + t + k, a);
  }

  /** The keys of the export are pairwise distinct when row ids are distinct within each table. */
  lemma {:induction false} ExportKeysDistinct(courses: seq<Course>, topics: seq<Topic>, classes: seq<Class>, assignments: seq<Assignment>,
                           iso: int -> string)
    requires UniqueCourseIds(courses) && UniqueTopicIds(topics)
    requires UniqueClassIds(classes) && UniqueAssignmentIds(assignments)
    ensures DistinctKeys(ExportKeys(courses, topics, classes, assignments, iso))
  {
    CourseKeysFacts(courses);
    TopicKeysFacts(topics);
    TopicKeysDistinct(topics);
    ClassKeysFacts(classes, PartCount(iso));
    ClassKeysDistinct(classes, PartCount(iso));
    AssignmentKeysFacts(assignments);
    FourSectionsDistinct(CourseKeys(courses), TopicKeys(topics), ClassKeys(classes, PartCount(iso)),
                         AssignmentKeys(assignments));
  }

  /**
   * Chunk identifiers are pairwise distinct across the whole export when
   * row ids are distinct within each table: the five prefixes never
   * collide, and class parts differ in their part number.
   */
  lemma {:induction false} ExportIdsDistinct(courses: seq<Course>, topics: seq<Topic>, classes: seq<Class>, assignments: seq<Assignment>,
                          iso: int -> string, day: int -> string)
    requires UniqueCourseIds(courses) && UniqueTopicIds(topics)
    requires UniqueClassIds(classes) && UniqueAssignmentIds(assignments)
    ensures var e := Export(courses, topics, classes, assignments, iso, day);
            forall i, j :: 0 <= i < j < |e| ==> e[i].chunkId != e[j].chunkId
  {
    var e := Export(courses, topics, classes, assignments, iso, day);
    var ks := ExportKeys(courses, topics, classes, assignments, iso);
    ExportKeyed(courses, topics, classes, assignments, iso, day);
    ExportKeysDistinct(courses, topics, classes, assignments, iso);
    forall i, j | 0 <= i < j < |e|
      ensures e[i].chunkId != e[j].chunkId
    {
      if e[i].chunkId == e[j].chunkId {
        RenderKeyInjective(ks[i], ks[j]);
      }
    }
  }

  /** The export's keys are in kind order, with every aggregate right after its summary. */
  lemma {:induction false} ExportKeysOrdered(courses: seq<Course>, topics: seq<Topic>, classes: seq<Class>, assignments: seq<Assignment>,
                          iso: int -> string)
    ensures Sorted(ExportKeys(courses, topics, classes, assignments, iso))
    ensures AggregatesFollowSummaries(ExportKeys(courses, topics, classes, assignments, iso))
  {
    CourseKeysFacts(courses);
    TopicKeysFacts(topics);
    ClassKeysFacts(classes, PartCount(iso));
    AssignmentKeysFacts(assignments);
    var k := ClassKeys(classes, PartCount(iso));
    assert AggregatesFollowSummaries(k);
    FourSectionsSorted(CourseKeys(courses), TopicKeys(topics), k, AssignmentKeys(assignments));
  }

  /**
   * Every chunk identifier in the export reads back as a key; the kinds come
   * in the order courses, topics, classes, assignments; and each topic
   * aggregate comes directly after the summary of the same topic.
   */
  lemma {:induction false} ExportOrder(courses: seq<Course>, topics: seq<Topic>, classes: seq<Class>, assignments: seq<Assignment>,
                    iso: int -> string, day: int -> string)
    ensures var e := Export(courses, topics, classes, assignments, iso, day);
            && (forall i :: 0 <= i < |e| ==> ParseKey(e[i].chunkId).Some?)
            && (forall i, j :: 0 <= i <= j < |e| ==>
                  Rank(ParseKey(e[i].chunkId).value) <= Rank(ParseKey(e[j].chunkId).value))
            && (forall i :: 0 <= i < |e| && ParseKey(e[i].chunkId).value.AggregateKey? ==>
                  0 < i && ParseKey(e[i - 1].chunkId) == Some(TopicKey(ParseKey(e[i].chunkId).value.id)))
  {
    var e := Export(courses, topics, classes, assignments, iso, day);
    var ks := ExportKeys(courses, topics, classes, assignments, iso);
    ExportKeyed(courses, topics, classes, assignments, iso, day);
    ExportKeysOrdered(courses, topics, classes, assignments, iso);
    forall i | 0 <= i < |e|
      ensures ParseKey(e[i].chunkId) == Some(ks[i])
    {
      ParseRenderKey(ks[i]);
    }
  }
}
