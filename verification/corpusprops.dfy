/**
 * What the exporter's chunks promise: counts in the text agree with the
 * metadata, empty lists are written as placeholders, class parts are
 * numbered and share their metadata, optional timestamps appear exactly
 * when they are present.
 */
module CorpusProps {
  import opened Wrappers
  import opened Strings
  import opened ChunkIds
  import opened Corpus
  import Segmenter
  import Sentences

  /**
   * A course chunk states its topic count twice, in the text and under
   * `topic_count`, and both equal the number of topics; with no topics the
   * listing reads "None".
   */
  lemma {:induction false} CourseCounts(c: Course, iso: int -> string)
    ensures var ch := CourseChunk(c, iso);
            && Lookup(ch.metadata, "topic_count") == Some(MInt(|c.topics|))
            && Contains(ch.text, "\nTotal topics: " + IntToString(|c.topics|) + "\n")
            && (|c.topics| == 0 ==> Contains(ch.text, "\n\nTopics: " + "None" + "\nTotal topics: "))
            && (c.createdAt.None? ==> Lookup(ch.metadata, "created_at") == Some(MText(Some(""))))
  {
    var meta := CourseMetadata(c, iso);
    LookupAt(meta, "topic_count", 3);
    LookupAt(meta, "created_at", 2);
    var n := IntToString(|c.topics|);
    var listing := if |c.topics| == 0 then "None" else Join(TopicListing(c.topics), "; ");
    var ss := CourseLayout(TrimmedOrEmpty(c.description), listing, n, StampOrEmpty(c.createdAt, iso));
    assert CourseChunk(c, iso).text == Concat(ss);
    CourseCounted(ss, listing, n);
  }

  /** The topic listing and count inside any course text. */
  lemma {:induction false} CourseCounted(ss: seq<string>, listing: string, n: string)
    requires exists d, cr :: ss == CourseLayout(d, listing, n, cr)
    ensures Contains(Concat(ss), "\nTotal topics: " + n + "\n")
    ensures Contains(Concat(ss), "\n\nTopics: " + listing + "\nTotal topics: ")
  {
    ContainsThree(ss, 3, "\nTotal topics: ", n, "\n");
    ContainsThree(ss, 1, "\n\nTopics: ", listing, "\nTotal topics: ");
  }

  /**
   * A topic summary states its class and assignment counts in the text and
   * in the metadata, both equal to the lengths of the lists; with no
   * assignments the list reads "- None".
   */
  lemma {:induction false} TopicCounts(t: Topic, iso: int -> string)
    ensures var ch := TopicChunk(t, iso);
            && Lookup(ch.metadata, "total_classes") == Some(MInt(|t.classes|))
            && Lookup(ch.metadata, "total_assignments") == Some(MInt(|t.assignmentTitles|))
            && Contains(ch.text, "\nTotal classes: " + IntToString(|t.classes|) + "\n")
            && Contains(ch.text, "Total assignments: " + IntToString(|t.assignmentTitles|) + "\n")
            && (|t.assignmentTitles| == 0 ==> Contains(ch.text, "Assignments:\n" + "- None\n"))
  {
    TopicMeta(t, iso);
    TopicText(t, iso);
  }

  lemma {:induction false} TopicMeta(t: Topic, iso: int -> string)
    ensures var meta := TopicChunk(t, iso).metadata;
            && Lookup(meta, "total_classes") == Some(MInt(|t.classes|))
            && Lookup(meta, "total_assignments") == Some(MInt(|t.assignmentTitles|))
  {
    var meta := TopicMetadata(t);
    LookupAt(meta, "total_classes", 4);
    LookupAt(meta, "total_assignments", 5);
  }

  lemma {:induction false} TopicText(t: Topic, iso: int -> string)
    ensures var ch := TopicChunk(t, iso);
            && Contains(ch.text, "\nTotal classes: " + IntToString(|t.classes|) + "\n")
            && Contains(ch.text, "Total assignments: " + IntToString(|t.assignmentTitles|) + "\n")
            && (|t.assignmentTitles| == 0 ==> Contains(ch.text, "Assignments:\n" + "- None\n"))
  {
    var nc := IntToString(|t.classes|);
    var na := IntToString(|t.assignmentTitles|);
    var tasks := if |t.assignmentTitles| == 0 then "- None\n" else Bullets(ShowAll(t.assignmentTitles));
    var ss := TopicLayout(TrimmedOrEmpty(t.description), IntToString(t.position), IntToString(t.courseId),
                          nc, na, Bullets(ClassLines(t.classes, iso)), tasks, StampOrEmpty(t.createdAt, iso));
    assert TopicChunk(t, iso).text == Concat(ss);
    TopicCounted(ss, nc, na, tasks);
  }

  /** The counts and the assignment list inside any topic summary text. */
  lemma {:induction false} TopicCounted(ss: seq<string>, nc: string, na: string, tasks: string)
    requires exists d, p, c, cl, cr :: ss == TopicLayout(d, p, c, nc, na, cl, tasks, cr)
    ensures Contains(Concat(ss), "\nTotal classes: " + nc + "\n")
    ensures Contains(Concat(ss), "Total assignments: " + na + "\n")
    ensures Contains(Concat(ss), "Assignments:\n" + tasks)
  {
    ContainsThree(ss, 5, "\nTotal classes: ", nc, "\n");
    ContainsThree(ss, 8, "Total assignments: ", na, "\n");
    ContainsTwo(ss, 13, "Assignments:\n", tasks);
  }

  /**
   * The topic aggregate repeats the summary's counts, and its text gives the
   * earliest and latest learning times ("unknown" when no class has one).
   */
  lemma {:induction false} AggregateCounts(t: Topic, iso: int -> string)
    ensures var ch := AggregateChunk(t, iso);
            && Lookup(ch.metadata, "total_classes") == Some(MInt(|t.classes|))
            && Lookup(ch.metadata, "total_assignments") == Some(MInt(|t.assignmentTitles|))
            && Contains(ch.text, "\nTotal classes: " + IntToString(|t.classes|) + "\n")
            && Contains(ch.text, "Total assignments: " + IntToString(|t.assignmentTitles|) + "\n")
            && Contains(ch.text, "Earliest learned_at: " + StampOrUnknown(EarliestLearned(t.classes), iso) + "\n")
  {
    AggregateMeta(t, iso);
    AggregateText(t, iso);
  }

  lemma {:induction false} AggregateMeta(t: Topic, iso: int -> string)
    ensures var meta := AggregateChunk(t, iso).metadata;
            && Lookup(meta, "total_classes") == Some(MInt(|t.classes|))
            && Lookup(meta, "total_assignments") == Some(MInt(|t.assignmentTitles|))
  {
    var base := AggregateTotals(t);
    var meta := AggregateMetadata(t, iso);
    assert meta[..5] == base;
    LookupAt(meta, "total_classes", 3);
    LookupAt(meta, "total_assignments", 4);
  }

  lemma {:induction false} AggregateText(t: Topic, iso: int -> string)
    ensures var ch := AggregateChunk(t, iso);
            && Contains(ch.text, "\nTotal classes: " + IntToString(|t.classes|) + "\n")
            && Contains(ch.text, "Total assignments: " + IntToString(|t.assignmentTitles|) + "\n")
            && Contains(ch.text, "Earliest learned_at: " + StampOrUnknown(EarliestLearned(t.classes), iso) + "\n")
  {
    var nc := IntToString(|t.classes|);
    var na := IntToString(|t.assignmentTitles|);
    var firstS := StampOrUnknown(EarliestLearned(t.classes), iso);
    var ss := AggregateLayout(Show(t.code), Show(t.title), nc, na, firstS,
                              StampOrUnknown(LatestLearned(t.classes), iso));
    assert AggregateChunk(t, iso).text == Concat(ss);
    AggregateCounted(ss, nc, na, firstS);
  }

  /** The counts and the earliest learning time inside any aggregate text. */
  lemma {:induction false} AggregateCounted(ss: seq<string>, nc: string, na: string, firstS: string)
    requires exists c, ti, l :: ss == AggregateLayout(c, ti, nc, na, firstS, l)
    ensures Contains(Concat(ss), "\nTotal classes: " + nc + "\n")
    ensures Contains(Concat(ss), "Total assignments: " + na + "\n")
    ensures Contains(Concat(ss), "Earliest learned_at: " + firstS + "\n")
  {
    ContainsThree(ss, 5, "\nTotal classes: ", nc, "\n");
    ContainsThree(ss, 8, "Total assignments: ", na, "\n");
    ContainsThree(ss, 11, "Earliest learned_at: ", firstS, "\n");
  }

  /** Some class of the topic has a learning time. */
  predicate AnyLearned(rows: seq<ClassRow>)
  {
    exists i :: 0 <= i < |rows| && rows[i].learnedAt.Some?
  }

  /**
   * `first_learned` and `last_learned` are written exactly when some class
   * has a learning time; they hold the minimum and maximum of those times,
   * so the first is never after the last.
   */
  lemma {:induction false} AggregateStamps(t: Topic, iso: int -> string)
    ensures var meta := AggregateChunk(t, iso).metadata;
            && (Lookup(meta, "first_learned").Some? <==> AnyLearned(t.classes))
            && (Lookup(meta, "last_learned").Some? <==> AnyLearned(t.classes))
            && (AnyLearned(t.classes) ==>
                  && Lookup(meta, "first_learned") == Some(MText(Some(iso(EarliestLearned(t.classes).value))))
                  && Lookup(meta, "last_learned") == Some(MText(Some(iso(LatestLearned(t.classes).value))))
                  && EarliestLearned(t.classes).value <= LatestLearned(t.classes).value)
  {
    if AnyLearned(t.classes) {
      StampsWhenLearned(t, iso);
    } else {
      StampsWhenNoneLearned(t, iso);
    }
  }

  lemma {:induction false} StampsWhenLearned(t: Topic, iso: int -> string)
    requires AnyLearned(t.classes)
    ensures var meta := AggregateChunk(t, iso).metadata;
            && Lookup(meta, "first_learned") == Some(MText(Some(iso(EarliestLearned(t.classes).value))))
            && Lookup(meta, "last_learned") == Some(MText(Some(iso(LatestLearned(t.classes).value))))
            && EarliestLearned(t.classes).value <= LatestLearned(t.classes).value
  {
    var meta := AggregateMetadata(t, iso);
    var first, last := EarliestLearned(t.classes), LatestLearned(t.classes);
    var base := AggregateTotals(t);
    assert meta == base + [("first_learned", MText(Some(iso(first.value)))), ("last_learned", MText(Some(iso(last.value))))];
    LookupAt(meta, "first_learned", 5);
    LookupAt(meta, "last_learned", 6);
    var i :| 0 <= i < |t.classes| && t.classes[i].learnedAt.Some?;
  }

  lemma {:induction false} StampsWhenNoneLearned(t: Topic, iso: int -> string)
    requires !AnyLearned(t.classes)
    ensures var meta := AggregateChunk(t, iso).metadata;
            Lookup(meta, "first_learned").None? && Lookup(meta, "last_learned").None?
  {
    var meta := AggregateMetadata(t, iso);
    assert meta == AggregateTotals(t);
    LookupSomeIff(meta, "first_learned");
    LookupSomeIff(meta, "last_learned");
  }

  /**
   * An assignment chunk gives its due date in the text and under `due_date`
   * (both "" when there is none), counts its related topics in the metadata,
   * and writes "None" when it has no related topic.
   */
  lemma {:induction false} AssignmentFacts(a: Assignment, iso: int -> string, day: int -> string)
    ensures var ch := AssignmentChunk(a, iso, day);
            && Lookup(ch.metadata, "due_date") == Some(MText(Some(StampOrEmpty(a.due, day))))
            && Contains(ch.text, "Due date: " + StampOrEmpty(a.due, day) + "\n")
            && (a.due.None? ==> Lookup(ch.metadata, "due_date") == Some(MText(Some(""))))
            && Lookup(ch.metadata, "related_topic_count") == Some(MInt(|a.topicCodes|))
            && (|a.topicCodes| == 0 ==> Contains(ch.text, "\n\nRelated topics: " + "None" + "\n"))
  {
    var meta := AssignmentMetadata(a, day);
    LookupAt(meta, "due_date", 1);
    LookupAt(meta, "related_topic_count", 2);
    var due := StampOrEmpty(a.due, day);
    var related := if |a.topicCodes| == 0 then "None" else Join(ShowAll(a.topicCodes), ", ");
    var ss := AssignmentLayout(TrimmedOrEmpty(a.description), related, due, StampOrEmpty(a.createdAt, iso));
    assert AssignmentChunk(a, iso, day).text == Concat(ss);
    AssignmentLines(ss, related, due);
  }

  /** The related topics and the due date inside any assignment text. */
  lemma {:induction false} AssignmentLines(ss: seq<string>, related: string, due: string)
    requires exists d, cr :: ss == AssignmentLayout(d, related, due, cr)
    ensures Contains(Concat(ss), "Due date: " + due + "\n")
    ensures Contains(Concat(ss), "\n\nRelated topics: " + related + "\n")
  {
    ContainsThree(ss, 4, "Due date: ", due, "\n");
    ContainsThree(ss, 1, "\n\nRelated topics: ", related, "\n");
  }

  /**
   * A class becomes parts `CLASS-<id>-1` .. `CLASS-<id>-N` with N >= 1, in
   * the order of its pieces; the title carries " (part k/N)" only when
   * N > 1; every part has the same metadata; no part exceeds 1.5 x 1200
   * characters.
   */
  lemma {:induction false} ClassParts(c: Class, iso: int -> string)
    ensures var cs := ClassChunks(c, iso);
            && |cs| >= 1
            && (forall i :: 0 <= i < |cs| ==> ParseKey(cs[i].chunkId) == Some(ClassKey(c.id, i + 1)))
            && (forall i :: 0 <= i < |cs| ==> cs[i].text == ClassPieces(c, iso)[i] && |cs[i].text| <= 1800)
            && (forall i :: 0 <= i < |cs| ==> cs[i].metadata == cs[0].metadata)
            && (|cs| == 1 ==> cs[0].title == "Class: " + Show(c.title))
            && (|cs| > 1 ==> forall i :: 0 <= i < |cs| ==>
                  cs[i].title == "Class: " + Show(c.title) + (" (part " + IntToString(i + 1) + "/" + IntToString(|cs|) + ")"))
  {
    ClassHasPieces(c, iso);
    PartsShape(c.id, c.title, ClassPieces(c, iso), ClassMetadata(c, iso));
  }

  /** A class text always gives at least one piece, none over 1.5 x 1200 characters. */
  lemma {:induction false} ClassHasPieces(c: Class, iso: int -> string)
    ensures var pieces := ClassPieces(c, iso);
            |pieces| >= 1 && forall i :: 0 <= i < |pieces| ==> 2 * |pieces[i]| <= 3 * 1200
  {
    var pieces := ClassPieces(c, iso);
    ClassTextStart(c, iso);
    Segmenter.ContentGivesChunk(ClassText(c, iso), Segmenter.TargetChunkChars, Segmenter.ChunkOverlapChars);
    assert Segmenter.AllWithinCeiling(pieces, Segmenter.TargetChunkChars);
  }

  lemma {:induction false} PartsShape(id: int, title: JString, pieces: seq<string>, meta: Metadata)
    requires |pieces| >= 1 && forall i :: 0 <= i < |pieces| ==> 2 * |pieces[i]| <= 3 * 1200
    ensures var cs := PartChunks(id, title, pieces, meta);
            && |cs| == |pieces|
            && (forall i :: 0 <= i < |cs| ==> ParseKey(cs[i].chunkId) == Some(ClassKey(id, i + 1)))
            && (forall i :: 0 <= i < |cs| ==> cs[i].text == pieces[i] && |cs[i].text| <= 1800)
            && (forall i :: 0 <= i < |cs| ==> cs[i].metadata == cs[0].metadata)
            && (|cs| == 1 ==> cs[0].title == "Class: " + Show(title))
            && (|cs| > 1 ==> forall i :: 0 <= i < |cs| ==>
                  cs[i].title == "Class: " + Show(title) + (" (part " + IntToString(i + 1) + "/" + IntToString(|cs|) + ")"))
  {
    var cs := PartChunks(id, title, pieces, meta);
    forall i | 0 <= i < |cs|
      ensures ParseKey(cs[i].chunkId) == Some(ClassKey(id, i + 1))
      ensures cs[i].text == pieces[i] && |cs[i].text| <= 1800
      ensures cs[i].metadata == meta
      ensures cs[i].title == "Class: " + Show(title) + PartSuffix(i + 1, |cs|)
    {
      PartAt(id, title, pieces, meta, i);
      ParseRenderKey(ClassKey(id, i + 1));
    }
  }

  lemma {:induction false} PartAt(id: int, title: JString, pieces: seq<string>, meta: Metadata, i: nat)
    requires i < |pieces|
    ensures var cs := PartChunks(id, title, pieces, meta);
            && |cs| == |pieces|
            && cs[i] == Chunk(RenderKey(ClassKey(id, i + 1)), "class",
                              "Class: " + Show(title) + PartSuffix(i + 1, |pieces|), pieces[i], meta)
  {
  }

  /** The class text starts with its "Class " header. */
  lemma {:induction false} ClassTextStart(c: Class, iso: int -> string)
    ensures |ClassText(c, iso)| > 0 && ClassText(c, iso)[0] == 'C'
  {
    var topicCode := if c.codes.None? then "" else Show(c.codes.value.0);
    var courseCode := if c.codes.None? then "" else Show(c.codes.value.1);
    var listed := if |c.resources| == 0 then "- None\n" else Bullets(ResourceLines(c.resources));
    var ss := ClassLayout(courseCode, topicCode, IntToString(c.number), Show(c.title),
                          StampOrUnknown(c.learnedAt, iso), TrimmedOrEmpty(c.content), listed);
    assert ClassText(c, iso) == Concat(ss);
    ClassLayoutStart(ss);
  }

  lemma {:induction false} ClassLayoutStart(ss: seq<string>)
    requires exists cc, tc, n, ti, l, co, li :: ss == ClassLayout(cc, tc, n, ti, l, co, li)
    ensures |Concat(ss)| > 0 && Concat(ss)[0] == 'C'
  {
    Sentences.ConcatHead(ss);
  }

  /**
   * The class header gives the learning time ("unknown" when there is none),
   * and with no resources the list reads "- None".
   */
  lemma {:induction false} ClassTextFacts(c: Class, iso: int -> string)
    ensures Contains(ClassText(c, iso), "\nLearned at: " + StampOrUnknown(c.learnedAt, iso) + "\n")
    ensures |c.resources| == 0 ==> Contains(ClassText(c, iso), "\n\nResources:\n" + "- None\n")
  {
    var topicCode := if c.codes.None? then "" else Show(c.codes.value.0);
    var courseCode := if c.codes.None? then "" else Show(c.codes.value.1);
    var listed := if |c.resources| == 0 then "- None\n" else Bullets(ResourceLines(c.resources));
    var learned := StampOrUnknown(c.learnedAt, iso);
    var ss := ClassLayout(courseCode, topicCode, IntToString(c.number), Show(c.title),
                          learned, TrimmedOrEmpty(c.content), listed);
    assert ClassText(c, iso) == Concat(ss);
    ClassTextLines(ss, learned, listed);
  }

  /** The learning time and the resource list inside any class text. */
  lemma {:induction false} ClassTextLines(ss: seq<string>, learned: string, listed: string)
    requires exists cc, tc, n, ti, co :: ss == ClassLayout(cc, tc, n, ti, learned, co, listed)
    ensures Contains(Concat(ss), "\nLearned at: " + learned + "\n")
    ensures Contains(Concat(ss), "\n\nResources:\n" + listed)
  {
    ContainsThree(ss, 8, "\nLearned at: ", learned, "\n");
    ContainsTwo(ss, 13, "\n\nResources:\n", listed);
  }

  /**
   * `learned_at` is in a class's metadata exactly when the class has a
   * learning time, and `resource_count` is its number of resources.
   */
  lemma {:induction false} ClassMetadataFacts(c: Class, iso: int -> string)
    ensures var meta := ClassMetadata(c, iso);
            && (Lookup(meta, "learned_at").Some? <==> c.learnedAt.Some?)
            && (c.learnedAt.Some? ==> Lookup(meta, "learned_at") == Some(MText(Some(iso(c.learnedAt.value)))))
            && Lookup(meta, "resource_count") == Some(MInt(|c.resources|))
  {
    var meta := ClassMetadata(c, iso);
    if c.learnedAt.Some? {
      LookupAt(meta, "learned_at", 3);
      LookupAt(meta, "resource_count", 4);
    } else {
      LookupSomeIff(meta, "learned_at");
      LookupAt(meta, "resource_count", 3);
    }
  }
}
