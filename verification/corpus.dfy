/**
 * The rendering half of ChunkExporter: each course, topic, class and
 * assignment row, hydrated with the child rows its queries read (in the
 * order those queries return them), becomes one or more chunks with an
 * identifier, a type, a title, a text and ordered metadata.
 *
 * Timestamps and dates are opaque values; `iso` stands for
 * `toLocalDateTime().format(ISO_LOCAL_DATE_TIME)` and `day` for
 * `java.sql.Date.toString()`.
 */
module Corpus {
  import opened Wrappers
  import opened Strings
  import opened ChunkIds
  import Segmenter

  /** A column that may be SQL NULL. */
  type JString = Option<string>

  /** How string concatenation and `%s` render a possibly-null string. */
  function Show(s: JString): string
  {
    match s
    case None => "null"
    case Some(v) => v
  }

  /** `desc == null ? "" : desc.trim()`. */
  function TrimmedOrEmpty(s: JString): string
  {
    match s
    case None => ""
    case Some(v) => Trim(v)
  }

  /** " — " (U+2014 with a space on each side). */
  const Dash: string := " \U{2014} "

  /** A metadata value as Jackson's `put` stores it: a number, or a string that may be null. */
  datatype MetaValue = MInt(n: int) | MText(t: JString)

  type Metadata = seq<(string, MetaValue)>

  datatype Chunk = Chunk(chunkId: string, chunkType: string, title: string, text: string, metadata: Metadata)

  /** The value stored under `key`, if any. */
  function Lookup(meta: Metadata, key: string): Option<MetaValue>
  {
    if |meta| == 0 then None
    else if meta[0].0 == key then Some(meta[0].1)
    else Lookup(meta[1..], key)
  }

  /** There is a value exactly when some entry has the key. */
  lemma {:induction false} LookupSomeIff(meta: Metadata, key: string)
    ensures Lookup(meta, key).Some? <==> exists i :: 0 <= i < |meta| && meta[i].0 == key
  {
    if |meta| > 0 && meta[0].0 != key {
      LookupSomeIff(meta[1..], key);
      assert forall i :: 1 <= i < |meta| ==> meta[i] == meta[1..][i - 1];
      if Lookup(meta, key).Some? {
        var i :| 0 <= i < |meta[1..]| && meta[1..][i].0 == key;
        assert meta[i + 1].0 == key;
      }
    }
  }

  /** The value under the first entry whose key is `key`. */
  lemma {:induction false} LookupAt(meta: Metadata, key: string, i: nat)
    requires i < |meta| && meta[i].0 == key
    requires forall j :: 0 <= j < i ==> meta[j].0 != key
    ensures Lookup(meta, key) == Some(meta[i].1)
  {
    if i > 0 {
      assert meta[0].0 != key;
      LookupAt(meta[1..], key, i - 1);
    }
  }

  /** A nullable timestamp rendered as the exporter renders it where null means "". */
  function StampOrEmpty(t: Option<int>, iso: int -> string): string
  {
    match t
    case None => ""
    case Some(v) => iso(v)
  }

  /** A nullable timestamp where null is rendered "unknown". */
  function StampOrUnknown(t: Option<int>, iso: int -> string): string
  {
    match t
    case None => "unknown"
    case Some(v) => iso(v)
  }

  /** Each line prefixed with "- " and ended with a newline. */
  function Bullets(lines: seq<string>): string
  {
    if |lines| == 0 then "" else Bullets(lines[..|lines| - 1]) + "- " + lines[|lines| - 1] + "\n"
  }

  // ---------- courses (exportCourses) ----------

  datatype TopicRef = TopicRef(code: JString, title: JString)

  datatype Course = Course(id: int, code: JString, title: JString, description: JString,
                           createdAt: Option<int>, topics: seq<TopicRef>)

  function TopicListing(ts: seq<TopicRef>): seq<string>
  {
    seq(|ts|, i requires 0 <= i < |ts| => Show(ts[i].code) + Dash + Show(ts[i].title))
  }

  /** The pieces the course text is appended from, in order. */
  function CourseBody(c: Course, iso: int -> string): seq<string>
  {
    var listing := if |c.topics| == 0 then "None" else Join(TopicListing(c.topics), "; ");
    CourseLayout(TrimmedOrEmpty(c.description), listing, IntToString(|c.topics|), StampOrEmpty(c.createdAt, iso))
  }

  /** The fixed labels of the course text around its variable parts. */
  function CourseLayout(description: string, listing: string, topicCount: string, created: string): seq<string>
  {
    [description, "\n\nTopics: ", listing, "\nTotal topics: ", topicCount, "\n", "Created at: ", created]
  }

  function CourseChunk(c: Course, iso: int -> string): Chunk
  {
    Chunk(RenderKey(CourseKey(c.id)), "course",
          "Course: " + Show(c.code) + Dash + Show(c.title),
          Concat(CourseBody(c, iso)), CourseMetadata(c, iso))
  }

  function CourseMetadata(c: Course, iso: int -> string): Metadata
  {
    [("course_id", MInt(c.id)), ("course_code", MText(c.code)),
     ("created_at", MText(Some(StampOrEmpty(c.createdAt, iso)))), ("topic_count", MInt(|c.topics|))]
  }

  // ---------- topics (exportTopics) ----------

  datatype ClassRow = ClassRow(number: int, title: JString, learnedAt: Option<int>)

  datatype Topic = Topic(id: int, courseId: int, code: JString, title: JString, description: JString,
                         position: int, createdAt: Option<int>,
                         classes: seq<ClassRow>, assignmentTitles: seq<JString>)

  function ClassLine(r: ClassRow, iso: int -> string): string
  {
    IntToString(r.number) + ": " + Show(r.title) + Dash + "learned_at: " + StampOrUnknown(r.learnedAt, iso)
  }

  function ClassLines(rows: seq<ClassRow>, iso: int -> string): seq<string>
  {
    seq(|rows|, i requires 0 <= i < |rows| => ClassLine(rows[i], iso))
  }

  function ShowAll(xs: seq<JString>): seq<string>
  {
    seq(|xs|, i requires 0 <= i < |xs| => Show(xs[i]))
  }

  /** The pieces the topic summary's text is appended from, in order. */
  function TopicBody(t: Topic, iso: int -> string): seq<string>
  {
    var tasks := if |t.assignmentTitles| == 0 then "- None\n" else Bullets(ShowAll(t.assignmentTitles));
    TopicLayout(TrimmedOrEmpty(t.description), IntToString(t.position), IntToString(t.courseId),
                IntToString(|t.classes|), IntToString(|t.assignmentTitles|),
                Bullets(ClassLines(t.classes, iso)), tasks, StampOrEmpty(t.createdAt, iso))
  }

  /** The fixed labels of the topic summary around its variable parts. */
  function TopicLayout(description: string, position: string, courseId: string, classCount: string,
                       assignmentCount: string, classes: string, tasks: string, created: string): seq<string>
  {
    [description,
     "\n\nTopic position: ", position,
     "\nCourse id: ", courseId,
     "\nTotal classes: ", classCount, "\n",
     "Total assignments: ", assignmentCount, "\n",
     "Classes:\n", classes,
     "Assignments:\n", tasks,
     "Created at: ", created]
  }

  function TopicChunk(t: Topic, iso: int -> string): Chunk
  {
    Chunk(RenderKey(TopicKey(t.id)), "topic_summary",
          "Topic: " + Show(t.code) + Dash + Show(t.title),
          Concat(TopicBody(t, iso)), TopicMetadata(t))
  }

  function TopicMetadata(t: Topic): Metadata
  {
    [("topic_id", MInt(t.id)), ("topic_code", MText(t.code)), ("course_id", MInt(t.courseId)),
     ("position", MInt(t.position)), ("total_classes", MInt(|t.classes|)),
     ("total_assignments", MInt(|t.assignmentTitles|))]
  }

  /** SQL `MIN(learned_at)` over the topic's classes: NULLs are skipped, no value gives NULL. */
  function EarliestLearned(rows: seq<ClassRow>): (r: Option<int>)
    ensures r.Some? <==> exists i :: 0 <= i < |rows| && rows[i].learnedAt.Some?
    ensures r.Some? ==> exists i :: 0 <= i < |rows| && rows[i].learnedAt == r
    ensures r.Some? ==> forall i :: 0 <= i < |rows| && rows[i].learnedAt.Some? ==> r.value <= rows[i].learnedAt.value
  {
    if |rows| == 0 then None
    else
      var rest := EarliestLearned(rows[1..]);
      assert forall i :: 1 <= i < |rows| ==> rows[i] == rows[1..][i - 1];
      match rows[0].learnedAt
      case None => rest
      case Some(v) => if rest.Some? && rest.value < v then rest else Some(v)
  }

  /** SQL `MAX(learned_at)` over the topic's classes. */
  function LatestLearned(rows: seq<ClassRow>): (r: Option<int>)
    ensures r.Some? <==> exists i :: 0 <= i < |rows| && rows[i].learnedAt.Some?
    ensures r.Some? ==> exists i :: 0 <= i < |rows| && rows[i].learnedAt == r
    ensures r.Some? ==> forall i :: 0 <= i < |rows| && rows[i].learnedAt.Some? ==> rows[i].learnedAt.value <= r.value
  {
    if |rows| == 0 then None
    else
      var rest := LatestLearned(rows[1..]);
      assert forall i :: 1 <= i < |rows| ==> rows[i] == rows[1..][i - 1];
      match rows[0].learnedAt
      case None => rest
      case Some(v) => if rest.Some? && rest.value > v then rest else Some(v)
  }

  /** A key/value pair only when the timestamp is not null. */
  function OptionalStamp(key: string, t: Option<int>, iso: int -> string): Metadata
  {
    match t
    case None => []
    case Some(v) => [(key, MText(Some(iso(v))))]
  }

  /**
   * The topic aggregate. Its query is an aggregate without GROUP BY, which
   * always yields exactly one row, so the chunk is always written.
   */
  /** The pieces of the aggregate's formatted text, in order. */
  function AggregateBody(t: Topic, iso: int -> string): seq<string>
  {
    AggregateLayout(Show(t.code), Show(t.title), IntToString(|t.classes|), IntToString(|t.assignmentTitles|),
                    StampOrUnknown(EarliestLearned(t.classes), iso), StampOrUnknown(LatestLearned(t.classes), iso))
  }

  /** The fixed labels of the aggregate text around its variable parts. */
  function AggregateLayout(code: string, title: string, classCount: string, assignmentCount: string,
                           earliest: string, latest: string): seq<string>
  {
    ["Topic aggregate for ", code, " (", title, ")",
     "\nTotal classes: ", classCount, "\n",
     "Total assignments: ", assignmentCount, "\n",
     "Earliest learned_at: ", earliest, "\n",
     "Latest learned_at: ", latest]
  }

  function AggregateChunk(t: Topic, iso: int -> string): Chunk
  {
    Chunk(RenderKey(AggregateKey(t.id)), "topic_aggregate",
          "Topic Aggregate: " + Show(t.code) + Dash + Show(t.title),
          Concat(AggregateBody(t, iso)), AggregateMetadata(t, iso))
  }

  function AggregateMetadata(t: Topic, iso: int -> string): Metadata
  {
    AggregateTotals(t)
      + OptionalStamp("first_learned", EarliestLearned(t.classes), iso)
      + OptionalStamp("last_learned", LatestLearned(t.classes), iso)
  }

  /** The aggregate's metadata entries that are always present. */
  function AggregateTotals(t: Topic): Metadata
  {
    [("topic_id", MInt(t.id)), ("topic_code", MText(t.code)), ("course_id", MInt(t.courseId)),
     ("total_classes", MInt(|t.classes|)), ("total_assignments", MInt(|t.assignmentTitles|))]
  }

  // ---------- classes (exportClasses) ----------

  datatype Resource = Resource(kind: JString, url: JString, description: JString)

  /**
   * A class row. `codes` is the (topic code, course code) row of the join,
   * absent when the join finds nothing; then both codes stay "".
   */
  datatype Class = Class(id: int, topicId: int, title: JString, content: JString, number: int,
                         learnedAt: Option<int>, codes: Option<(JString, JString)>,
                         resources: seq<Resource>)

  function ResourceLine(r: Resource): string
  {
    Show(r.kind) + ": " + (if r.url.None? then "[no-url]" else r.url.value) + Dash
      + (if r.description.None? then "" else r.description.value)
  }

  function ResourceLines(rs: seq<Resource>): seq<string>
  {
    seq(|rs|, i requires 0 <= i < |rs| => ResourceLine(rs[i]))
  }

  /** The full text of a class before it is split: header, blank line, content, resources. */
  function ClassText(c: Class, iso: int -> string): string
  {
    Concat(ClassBody(c, iso))
  }

  /** The pieces of the class text, in order. */
  function ClassBody(c: Class, iso: int -> string): seq<string>
  {
    var topicCode := if c.codes.None? then "" else Show(c.codes.value.0);
    var courseCode := if c.codes.None? then "" else Show(c.codes.value.1);
    var listed := if |c.resources| == 0 then "- None\n" else Bullets(ResourceLines(c.resources));
    ClassLayout(courseCode, topicCode, IntToString(c.number), Show(c.title), StampOrUnknown(c.learnedAt, iso),
                TrimmedOrEmpty(c.content), listed)
  }

  /** The fixed labels of the class text around its variable parts. */
  function ClassLayout(courseCode: string, topicCode: string, number: string, title: string, learned: string,
                       content: string, listed: string): seq<string>
  {
    ["Class ", courseCode, "-", topicCode, " #", number, Dash, title,
     "\nLearned at: ", learned, "\n",
     "\n", content, "\n\nResources:\n", listed]
  }

  function ClassMetadata(c: Class, iso: int -> string): Metadata
  {
    [("class_id", MInt(c.id)), ("topic_id", MInt(c.topicId)), ("class_number", MInt(c.number))]
      + OptionalStamp("learned_at", c.learnedAt, iso)
      + [("resource_count", MInt(|c.resources|))]
  }

  /** `" (part k/N)"` when there are several pieces, nothing otherwise. */
  function PartSuffix(k: int, n: int): string
  {
    if n > 1 then " (part " + IntToString(k) + "/" + IntToString(n) + ")" else ""
  }

  /** The pieces of a class text, split with the exporter's settings. */
  function ClassPieces(c: Class, iso: int -> string): seq<string>
  {
    Segmenter.SplitToChunks(ClassText(c, iso), Segmenter.TargetChunkChars, Segmenter.ChunkOverlapChars)
  }

  /** One chunk per piece, numbered from 1, all with the same metadata. */
  function PartChunks(id: int, title: JString, pieces: seq<string>, meta: Metadata): seq<Chunk>
  {
    seq(|pieces|, i requires 0 <= i < |pieces| =>
      Chunk(RenderKey(ClassKey(id, i + 1)), "class", "Class: " + Show(title) + PartSuffix(i + 1, |pieces|),
            pieces[i], meta))
  }

  function ClassChunks(c: Class, iso: int -> string): seq<Chunk>
  {
    PartChunks(c.id, c.title, ClassPieces(c, iso), ClassMetadata(c, iso))
  }

  // ---------- assignments (exportAssignments) ----------

  datatype Assignment = Assignment(id: int, title: JString, description: JString,
                                   createdAt: Option<int>, due: Option<int>, topicCodes: seq<JString>)

  /** The pieces the assignment text is appended from, in order. */
  function AssignmentBody(a: Assignment, iso: int -> string, day: int -> string): seq<string>
  {
    var related := if |a.topicCodes| == 0 then "None" else Join(ShowAll(a.topicCodes), ", ");
    AssignmentLayout(TrimmedOrEmpty(a.description), related, StampOrEmpty(a.due, day), StampOrEmpty(a.createdAt, iso))
  }

  /** The fixed labels of the assignment text around its variable parts. */
  function AssignmentLayout(description: string, related: string, due: string, created: string): seq<string>
  {
    [description, "\n\nRelated topics: ", related, "\n", "Due date: ", due, "\n", "Created at: ", created]
  }

  function AssignmentChunk(a: Assignment, iso: int -> string, day: int -> string): Chunk
  {
    Chunk(RenderKey(AssignmentKey(a.id)), "assignment", "Assignment: " + Show(a.title),
          Concat(AssignmentBody(a, iso, day)), AssignmentMetadata(a, day))
  }

  function AssignmentMetadata(a: Assignment, day: int -> string): Metadata
  {
    [("assignment_id", MInt(a.id)), ("due_date", MText(Some(StampOrEmpty(a.due, day)))),
     ("related_topic_count", MInt(|a.topicCodes|))]
  }

  // ---------- the whole export (main, the four export calls) ----------

  function CourseChunks(cs: seq<Course>, iso: int -> string): seq<Chunk>
  {
    if |cs| == 0 then [] else CourseChunks(cs[..|cs| - 1], iso) + [CourseChunk(cs[|cs| - 1], iso)]
  }

  /** Each topic gives its summary and then its aggregate. */
  function TopicChunks(ts: seq<Topic>, iso: int -> string): seq<Chunk>
  {
    if |ts| == 0 then []
    else TopicChunks(ts[..|ts| - 1], iso) + [TopicChunk(ts[|ts| - 1], iso), AggregateChunk(ts[|ts| - 1], iso)]
  }

  function AllClassChunks(cs: seq<Class>, iso: int -> string): seq<Chunk>
  {
    if |cs| == 0 then [] else AllClassChunks(cs[..|cs| - 1], iso) + ClassChunks(cs[|cs| - 1], iso)
  }

  function AssignmentChunks(as_: seq<Assignment>, iso: int -> string, day: int -> string): seq<Chunk>
  {
    if |as_| == 0 then []
    else AssignmentChunks(as_[..|as_| - 1], iso, day) + [AssignmentChunk(as_[|as_| - 1], iso, day)]
  }

  /** Everything the exporter writes, in file order: courses, topics, classes, assignments. */
  function Export(courses: seq<Course>, topics: seq<Topic>, classes: seq<Class>, assignments: seq<Assignment>,
                  iso: int -> string, day: int -> string): seq<Chunk>
  {
    CourseChunks(courses, iso) + TopicChunks(topics, iso) + AllClassChunks(classes, iso)
      + AssignmentChunks(assignments, iso, day)
  }
}
