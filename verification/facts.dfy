/**
 * The factual-query helpers of SqlService, with the database replaced by
 * in-memory tables: resolving a topic code to its id, the learned-at range
 * and the class count of a topic, the assignments of a class ordered by due
 * date, the synthetic "SQL-" chunk that carries a result into the
 * retrieval context, and the two text bodies written into it.
 *
 * SQL semantics are modelled on the PostgreSQL database the exporter points
 * at: `UPPER` on ASCII letters, `MIN`/`MAX` skip NULLs, `ORDER BY ... ASC`
 * puts NULLs last, a negative `LIMIT` is an error. `stamp` stands for
 * `Timestamp.toLocalDateTime().toString()` and `day` for `Date.toString()`.
 */
module SqlService {
  import opened Wrappers
  import opened Strings
  import opened ChunkIds
  import Corpus

  datatype TopicRow = TopicRow(id: int, code: Corpus.JString)
  datatype ClassRow = ClassRow(id: int, topicId: int, learnedAt: Option<int>)
  datatype AssignmentRow = AssignmentRow(id: int, title: Corpus.JString, due: Option<int>)

  /** A row of `assignment_topics`. */
  datatype Link = Link(assignmentId: int, topicId: int)

  /** The tables the queries read, each in the order the database scans it. */
  datatype Tables = Tables(topics: seq<TopicRow>, classes: seq<ClassRow>, links: seq<Link>,
                           assignments: seq<AssignmentRow>)

  // ---------- resolveTopicId ----------

  /** `UPPER(code) = UPPER(?)` with the trimmed input bound to `?`; a NULL code never matches. */
  predicate CodeMatches(row: TopicRow, code: string)
  {
    row.code.Some? && Upper(row.code.value) == Upper(Trim(code))
  }

  /**
   * `resolveTopicId`: the id of the first topic whose code equals the
   * trimmed input ignoring case, or nothing when no topic matches.
   */
  function ResolveTopicId(topics: seq<TopicRow>, code: string): (r: Option<int>)
    ensures r.None? <==> forall k :: 0 <= k < |topics| ==> !CodeMatches(topics[k], code)
    ensures r.Some? ==> exists k :: 0 <= k < |topics| && CodeMatches(topics[k], code) && topics[k].id == r.value
                                    && forall j :: 0 <= j < k ==> !CodeMatches(topics[j], code)
  {
    if |topics| == 0 then None
    else if CodeMatches(topics[0], code) then Some(topics[0].id)
    else
      var r := ResolveTopicId(topics[1..], code);
      ResolveStep(topics, code, r);
      r
  }

  lemma {:induction false} ResolveStep(topics: seq<TopicRow>, code: string, r: Option<int>)
    requires |topics| > 0 && !CodeMatches(topics[0], code)
    requires r.None? <==> forall k :: 0 <= k < |topics[1..]| ==> !CodeMatches(topics[1..][k], code)
    requires r.Some? ==> exists k :: 0 <= k < |topics[1..]| && CodeMatches(topics[1..][k], code)
                                     && topics[1..][k].id == r.value
                                     && forall j :: 0 <= j < k ==> !CodeMatches(topics[1..][j], code)
    ensures r.None? <==> forall k :: 0 <= k < |topics| ==> !CodeMatches(topics[k], code)
    ensures r.Some? ==> exists k :: 0 <= k < |topics| && CodeMatches(topics[k], code) && topics[k].id == r.value
                                    && forall j :: 0 <= j < k ==> !CodeMatches(topics[j], code)
  {
    assert forall k :: 1 <= k < |topics| ==> topics[k] == topics[1..][k - 1];
    if r.Some? {
      var k :| 0 <= k < |topics[1..]| && CodeMatches(topics[1..][k], code) && topics[1..][k].id == r.value
               && forall j :: 0 <= j < k ==> !CodeMatches(topics[1..][j], code);
      assert CodeMatches(topics[k + 1], code) && topics[k + 1].id == r.value;
    }
  }

  /** Surrounding whitespace and letter case of the input do not change which topic is found. */
  lemma {:induction false} ResolveIgnoresCaseAndPadding(topics: seq<TopicRow>, w1: string, s: string, w2: string, t: string)
    requires AllTrimmable(w1) && AllTrimmable(w2) && Upper(s) == Upper(t)
    ensures ResolveTopicId(topics, w1 + s + w2) == ResolveTopicId(topics, t)
  {
    TrimIgnoresPadding(w1, s, w2);
    UpperTrim(s);
    UpperTrim(t);
    assert forall row :: CodeMatches(row, w1 + s + w2) == CodeMatches(row, t);
    ResolveSameMatches(topics, w1 + s + w2, t);
  }

  lemma {:induction false} ResolveSameMatches(topics: seq<TopicRow>, a: string, b: string)
    requires forall row :: CodeMatches(row, a) == CodeMatches(row, b)
    ensures ResolveTopicId(topics, a) == ResolveTopicId(topics, b)
  {
    if |topics| > 0 && !CodeMatches(topics[0], a) {
      ResolveSameMatches(topics[1..], a, b);
    }
  }

  /** When topic codes are unique ignoring case, a code resolves to the one topic that carries it. */
  lemma {:induction false} ResolveUniqueCode(topics: seq<TopicRow>, code: string, k: nat)
    requires k < |topics| && CodeMatches(topics[k], code)
    requires forall i, j :: 0 <= i < j < |topics| && topics[i].code.Some? && topics[j].code.Some?
               ==> Upper(topics[i].code.value) != Upper(topics[j].code.value)
    ensures ResolveTopicId(topics, code) == Some(topics[k].id)
  {
    var r := ResolveTopicId(topics, code);
    var m :| 0 <= m < |topics| && CodeMatches(topics[m], code) && topics[m].id == r.value
             && forall j :: 0 <= j < m ==> !CodeMatches(topics[j], code);
    if m != k {
      assert false;
    }
  }

  // ---------- the classes of a topic ----------

  /** `FROM classes WHERE topic_id = ?`, in table order. */
  function ClassesOf(classes: seq<ClassRow>, topicId: int): (r: seq<ClassRow>)
    ensures forall x :: x in r <==> x in classes && x.topicId == topicId
    ensures forall x :: multiset(r)[x] == if x.topicId == topicId then multiset(classes)[x] else 0
    ensures |r| <= |classes|
  {
    if |classes| == 0 then []
    else
      var rest := ClassesOf(classes[..|classes| - 1], topicId);
      var last := classes[|classes| - 1];
      assert classes == classes[..|classes| - 1] + [last];
      assert multiset(classes) == multiset(classes[..|classes| - 1]) + multiset{last};
      if last.topicId == topicId then rest + [last] else rest
  }

  /** Selecting from two runs of rows selects from each in turn. */
  lemma {:induction false} ClassesOfAppend(a: seq<ClassRow>, b: seq<ClassRow>, topicId: int)
    ensures ClassesOf(a + b, topicId) == ClassesOf(a, topicId) + ClassesOf(b, topicId)
    decreases |b|
  {
    if |b| == 0 {
      assert a + b == a;
    } else {
      var b' := b[..|b| - 1];
      assert (a + b)[..|a + b| - 1] == a + b';
      ClassesOfAppend(a, b', topicId);
    }
  }

  /**
   * `queryCountClassesForTopic`: nothing for an unresolved topic, otherwise
   * the number of its classes, zero included.
   */
  function QueryCountClasses(t: Tables, code: string): (r: Option<int>)
    ensures r.None? <==> ResolveTopicId(t.topics, code).None?
    ensures r.Some? ==> 0 <= r.value <= |t.classes|
    ensures r.Some? ==> r.value == |ClassesOf(t.classes, ResolveTopicId(t.topics, code).value)|
  {
    match ResolveTopicId(t.topics, code)
    case None => None
    case Some(id) => Some(|ClassesOf(t.classes, id)|)
  }

  /** A resolved topic without classes counts zero; it is never reported as absent. */
  lemma {:induction false} CountZeroIsNotAbsent(t: Tables, code: string)
    requires ResolveTopicId(t.topics, code).Some?
    requires forall c :: c in t.classes ==> c.topicId != ResolveTopicId(t.topics, code).value
    ensures QueryCountClasses(t, code) == Some(0)
  {
    NoneSelected(t.classes, ResolveTopicId(t.topics, code).value);
  }

  lemma {:induction false} NoneSelected(classes: seq<ClassRow>, topicId: int)
    requires forall c :: c in classes ==> c.topicId != topicId
    ensures ClassesOf(classes, topicId) == []
  {
    if |classes| > 0 {
      var init := classes[..|classes| - 1];
      assert forall c :: c in init ==> c in classes;
      assert classes[|classes| - 1] in classes;
      NoneSelected(init, topicId);
    }
  }

  /** Adding a class raises the count of its own topic by one and leaves other topics' counts alone. */
  lemma {:induction false} CountAfterAddingClass(t: Tables, code: string, c: ClassRow)
    requires ResolveTopicId(t.topics, code).Some?
    ensures var t' := t.(classes := t.classes + [c]);
            QueryCountClasses(t', code).value
            == QueryCountClasses(t, code).value + (if c.topicId == ResolveTopicId(t.topics, code).value then 1 else 0)
  {
    ClassesOfAppend(t.classes, [c], ResolveTopicId(t.topics, code).value);
  }

  // ---------- queryLearnedAtRange ----------

  /** The `learned_at` column of some rows. */
  function Stamps(rows: seq<ClassRow>): seq<Option<int>>
  {
    seq(|rows|, i requires 0 <= i < |rows| => rows[i].learnedAt)
  }

  /** `v` is the least non-NULL value of `xs`. */
  predicate IsLeast(xs: seq<Option<int>>, v: int)
  {
    Some(v) in xs && forall i :: 0 <= i < |xs| && xs[i].Some? ==> v <= xs[i].value
  }

  /** `v` is the greatest non-NULL value of `xs`. */
  predicate IsGreatest(xs: seq<Option<int>>, v: int)
  {
    Some(v) in xs && forall i :: 0 <= i < |xs| && xs[i].Some? ==> xs[i].value <= v
  }

  predicate AnyValue(xs: seq<Option<int>>)
  {
    exists i :: 0 <= i < |xs| && xs[i].Some?
  }

  /** SQL `MIN`: NULLs are skipped, and no value at all gives NULL. */
  function Least(xs: seq<Option<int>>): (r: Option<int>)
    ensures r.Some? <==> AnyValue(xs)
    ensures r.Some? ==> IsLeast(xs, r.value)
  {
    if |xs| == 0 then None
    else
      var rest := Least(xs[1..]);
      assert forall i :: 1 <= i < |xs| ==> xs[i] == xs[1..][i - 1];
      assert rest.Some? ==> Some(rest.value) in xs;
      match xs[0]
      case None => rest
      case Some(v) => if rest.Some? && rest.value < v then rest else Some(v)
  }

  /** SQL `MAX`. */
  function Greatest(xs: seq<Option<int>>): (r: Option<int>)
    ensures r.Some? <==> AnyValue(xs)
    ensures r.Some? ==> IsGreatest(xs, r.value)
  {
    if |xs| == 0 then None
    else
      var rest := Greatest(xs[1..]);
      assert forall i :: 1 <= i < |xs| ==> xs[i] == xs[1..][i - 1];
      assert rest.Some? ==> Some(rest.value) in xs;
      match xs[0]
      case None => rest
      case Some(v) => if rest.Some? && rest.value > v then rest else Some(v)
  }

  /**
   * `queryLearnedAtRange`: nothing for an unresolved topic or when none of
   * its classes has a `learned_at`; otherwise the insertion-ordered map with
   * "earliest" and "latest" as far as each is not NULL.
   */
  function QueryLearnedAtRange(t: Tables, code: string, stamp: int -> string): (r: Option<seq<(string, string)>>)
    ensures r.Some? ==> ResolveTopicId(t.topics, code).Some?
  {
    match ResolveTopicId(t.topics, code)
    case None => None
    case Some(id) => RangeOf(Stamps(ClassesOf(t.classes, id)), stamp)
  }

  /** The `MIN`/`MAX` row of the learned-at column `xs`, as the map the query builds from it. */
  function RangeOf(xs: seq<Option<int>>, stamp: int -> string): Option<seq<(string, string)>>
  {
    var e := Least(xs);
    var l := Greatest(xs);
    if e.None? && l.None? then None
    else
      Some((if e.Some? then [("earliest", stamp(e.value))] else [])
           + (if l.Some? then [("latest", stamp(l.value))] else []))
  }

  /** `lo` and `hi` are the least and the greatest non-NULL values of `xs`. */
  predicate Bounds(xs: seq<Option<int>>, lo: int, hi: int)
  {
    lo <= hi && IsLeast(xs, lo) && IsGreatest(xs, hi)
  }

  /** Some class of the topic `id` has a `learned_at`. */
  predicate AnyLearned(classes: seq<ClassRow>, id: int)
  {
    exists c :: c in classes && c.topicId == id && c.learnedAt.Some?
  }

  /**
   * The range is absent exactly when the topic is unresolved or none of its
   * classes has been learned; otherwise it holds "earliest" then "latest",
   * the smallest and the largest `learned_at` of the topic's classes.
   */
  lemma {:induction false} LearnedRangeFacts(t: Tables, code: string, stamp: int -> string)
    ensures var r := QueryLearnedAtRange(t, code, stamp);
            r.None? <==> ResolveTopicId(t.topics, code).None? || !AnyLearned(t.classes, ResolveTopicId(t.topics, code).value)
    ensures var r := QueryLearnedAtRange(t, code, stamp);
            r.Some? ==> exists lo, hi :: Bounds(Stamps(ClassesOf(t.classes, ResolveTopicId(t.topics, code).value)), lo, hi)
                                         && r.value == [("earliest", stamp(lo)), ("latest", stamp(hi))]
  {
    var id := ResolveTopicId(t.topics, code);
    if id.Some? {
      AnyLearnedIff(t.classes, id.value);
      RangeOfFacts(Stamps(ClassesOf(t.classes, id.value)), stamp);
    }
  }

  lemma {:induction false} RangeOfFacts(xs: seq<Option<int>>, stamp: int -> string)
    ensures RangeOf(xs, stamp).None? <==> !AnyValue(xs)
    ensures RangeOf(xs, stamp).Some? ==> exists lo, hi :: Bounds(xs, lo, hi)
                                                           && RangeOf(xs, stamp).value == [("earliest", stamp(lo)), ("latest", stamp(hi))]
  {
    if AnyValue(xs) {
      LeastNotAboveGreatest(xs);
      var lo, hi := Least(xs).value, Greatest(xs).value;
      assert RangeOf(xs, stamp).value == [("earliest", stamp(lo)), ("latest", stamp(hi))];
    }
  }

  lemma {:induction false} LeastNotAboveGreatest(xs: seq<Option<int>>)
    requires AnyValue(xs)
    ensures Bounds(xs, Least(xs).value, Greatest(xs).value)
  {
    var lo, hi := Least(xs).value, Greatest(xs).value;
    var j :| 0 <= j < |xs| && xs[j] == Some(lo);
  }

  /** A class of the topic has been learned exactly when its `learned_at` column has a value. */
  lemma {:induction false} AnyLearnedIff(classes: seq<ClassRow>, id: int)
    ensures AnyLearned(classes, id) <==> AnyValue(Stamps(ClassesOf(classes, id)))
  {
    var cs := ClassesOf(classes, id);
    var xs := Stamps(cs);
    if AnyLearned(classes, id) {
      var c :| c in classes && c.topicId == id && c.learnedAt.Some?;
      var i :| 0 <= i < |cs| && cs[i] == c;
      assert xs[i].Some?;
    }
    if AnyValue(xs) {
      var i :| 0 <= i < |xs| && xs[i].Some?;
      assert cs[i] in cs;
    }
  }

  // ---------- queryAssignmentsForClass ----------

  /** The assignments whose id is `id`, in table order. */
  function AssignmentsWithId(assignments: seq<AssignmentRow>, id: int): (r: seq<AssignmentRow>)
    ensures forall a :: a in r <==> a in assignments && a.id == id
    ensures forall a :: multiset(r)[a] == if a.id == id then multiset(assignments)[a] else 0
  {
    if |assignments| == 0 then []
    else
      assert assignments == [assignments[0]] + assignments[1..];
      (if assignments[0].id == id then [assignments[0]] else []) + AssignmentsWithId(assignments[1..], id)
  }

  /** `JOIN assignment_topics at ON a.id = at.assignment_id` for the links of topic `topicId`. */
  function JoinLinks(links: seq<Link>, assignments: seq<AssignmentRow>, topicId: int): (r: seq<AssignmentRow>)
    ensures forall a :: a in r <==> a in assignments && Link(a.id, topicId) in links
  {
    if |links| == 0 then []
    else
      var here := if links[0].topicId == topicId then AssignmentsWithId(assignments, links[0].assignmentId) else [];
      var rest := JoinLinks(links[1..], assignments, topicId);
      assert forall l :: l in links <==> l == links[0] || l in links[1..];
      here + rest
  }

  /** An assignment is related to the class `classId` through one of the class's topics. */
  predicate Related(t: Tables, classId: int, a: AssignmentRow)
  {
    a in t.assignments && exists c :: c in t.classes && c.id == classId && Link(a.id, c.topicId) in t.links
  }

  /**
   * How often the join yields the assignment row `a`: summed over the classes
   * with id `classId`, the copies of `a` in the table times the links from
   * `a.id` to that class's topic.
   */
  function JoinCopies(classes: seq<ClassRow>, t: Tables, classId: int, a: AssignmentRow): nat
  {
    if |classes| == 0 then 0
    else
      (if classes[0].id == classId then multiset(t.assignments)[a] * multiset(t.links)[Link(a.id, classes[0].topicId)] else 0)
      + JoinCopies(classes[1..], t, classId, a)
  }

  function JoinClasses(classes: seq<ClassRow>, t: Tables, classId: int): (r: seq<AssignmentRow>)
    ensures forall a :: a in r <==> (a in t.assignments
                                    && exists c :: c in classes && c.id == classId && Link(a.id, c.topicId) in t.links)
  {
    if |classes| == 0 then []
    else
      var c := classes[0];
      var here := if c.id == classId then JoinLinks(t.links, t.assignments, c.topicId) else [];
      var rest := JoinClasses(classes[1..], t, classId);
      assert forall x :: x in classes <==> x == c || x in classes[1..];
      here + rest
  }

  /** Each assignment row is joined once per copy of it times the links from its id to `topicId`. */
  lemma {:induction false} JoinLinksCopies(links: seq<Link>, assignments: seq<AssignmentRow>, topicId: int, a: AssignmentRow)
    ensures multiset(JoinLinks(links, assignments, topicId))[a]
            == multiset(assignments)[a] * multiset(links)[Link(a.id, topicId)]
    decreases |links|
  {
    if |links| > 0 {
      var m := multiset(assignments)[a];
      var k := multiset(links[1..])[Link(a.id, topicId)];
      var hit := if links[0] == Link(a.id, topicId) then 1 else 0;
      var here := if links[0].topicId == topicId then AssignmentsWithId(assignments, links[0].assignmentId) else [];
      var rest := JoinLinks(links[1..], assignments, topicId);
      calc {
        multiset(JoinLinks(links, assignments, topicId))[a];
        multiset(here + rest)[a];
        multiset(here)[a] + multiset(rest)[a];
        { LinkCopies(links[0], assignments, topicId, a); JoinLinksCopies(links[1..], assignments, topicId, a); }
        m * hit + m * k;
        { Distribute(m, hit, k); }
        m * (hit + k);
        { HeadCount(links, Link(a.id, topicId)); }
        m * multiset(links)[Link(a.id, topicId)];
      }
    }
  }

  /** One link contributes every copy of the row when it joins the row's id to `topicId`, and none otherwise. */
  lemma LinkCopies(l: Link, assignments: seq<AssignmentRow>, topicId: int, a: AssignmentRow)
    ensures multiset(if l.topicId == topicId then AssignmentsWithId(assignments, l.assignmentId) else [])[a]
            == multiset(assignments)[a] * (if l == Link(a.id, topicId) then 1 else 0)
  {
  }

  lemma HeadCount<T>(s: seq<T>, x: T)
    requires |s| > 0
    ensures multiset(s)[x] == (if s[0] == x then 1 else 0) + multiset(s[1..])[x]
  {
    assert s == [s[0]] + s[1..];
  }

  lemma Distribute(m: int, k: int, l: int)
    ensures m * (k + l) == m * k + m * l
  {
  }

  /** Summing the previous lemma over the classes with id `classId`. */
  lemma {:induction false} JoinClassesCopies(classes: seq<ClassRow>, t: Tables, classId: int, a: AssignmentRow)
    ensures multiset(JoinClasses(classes, t, classId))[a]
            == JoinCopies(classes, t, classId, a)
    decreases |classes|
  {
    if |classes| > 0 {
      var c := classes[0];
      var here := if c.id == classId then JoinLinks(t.links, t.assignments, c.topicId) else [];
      var rest := JoinClasses(classes[1..], t, classId);
      assert JoinClasses(classes, t, classId) == here + rest;
      ClassCopies(c, t, classId, a);
      JoinClassesCopies(classes[1..], t, classId, a);
    }
  }

  /** One class contributes the copies of the previous lemma when its id is `classId`, and none otherwise. */
  lemma ClassCopies(c: ClassRow, t: Tables, classId: int, a: AssignmentRow)
    ensures multiset(if c.id == classId then JoinLinks(t.links, t.assignments, c.topicId) else [])[a]
            == if c.id == classId then multiset(t.assignments)[a] * multiset(t.links)[Link(a.id, c.topicId)] else 0
  {
    if c.id == classId {
      JoinLinksCopies(t.links, t.assignments, c.topicId, a);
    }
  }

  lemma JoinClassesCopiesAll(classes: seq<ClassRow>, t: Tables, classId: int)
    ensures forall a :: multiset(JoinClasses(classes, t, classId))[a]
                        == JoinCopies(classes, t, classId, a)
  {
    forall a | true
      ensures multiset(JoinClasses(classes, t, classId))[a]
              == JoinCopies(classes, t, classId, a)
    {
      JoinClassesCopies(classes, t, classId, a);
    }
  }

  /**
   * The joined rows before ordering: one per (class, link, assignment)
   * combination, so each assignment row appears once for every copy of it in
   * the table times every link from its id to the topic of a class `classId`.
   */
  function Joined(t: Tables, classId: int): (r: seq<AssignmentRow>)
    ensures forall a :: a in r <==> Related(t, classId, a)
    ensures forall a :: multiset(r)[a] == JoinCopies(t.classes, t, classId, a)
  {
    JoinClassesCopiesAll(t.classes, t, classId);
    JoinClasses(t.classes, t, classId)
  }

  /** `ORDER BY a.due_date` ascending, with NULL due dates last. */
  predicate DueNoLater(a: AssignmentRow, b: AssignmentRow)
  {
    b.due.None? || (a.due.Some? && a.due.value <= b.due.value)
  }

  predicate SortedByDue(s: seq<AssignmentRow>)
  {
    forall i, j :: 0 <= i < j < |s| ==> DueNoLater(s[i], s[j])
  }

  /** Inserts `x` after every row that is due no later than it. */
  function Insert(x: AssignmentRow, s: seq<AssignmentRow>): seq<AssignmentRow>
  {
    if |s| == 0 then [x]
    else if DueNoLater(s[0], x) then [s[0]] + Insert(x, s[1..])
    else [x] + s
  }

  /** Inserting adds exactly `x`. */
  lemma {:induction false} InsertAddsOne(x: AssignmentRow, s: seq<AssignmentRow>)
    ensures multiset(Insert(x, s)) == multiset(s) + multiset{x}
    decreases |s|
  {
    if |s| > 0 && DueNoLater(s[0], x) {
      InsertAddsOne(x, s[1..]);
      assert s == [s[0]] + s[1..];
    }
  }

  /** Inserting into a sorted list keeps it sorted. */
  lemma {:induction false} InsertSorted(x: AssignmentRow, s: seq<AssignmentRow>)
    requires SortedByDue(s)
    ensures SortedByDue(Insert(x, s))
    decreases |s|
  {
    if |s| == 0 {
    } else if DueNoLater(s[0], x) {
      var tail := s[1..];
      var rest := Insert(x, tail);
      HeadFirst(s);
      InsertSorted(x, tail);
      InsertAddsOne(x, tail);
      forall z | z in rest
        ensures DueNoLater(s[0], z)
      {
        assert z in multiset(rest);
      }
      ConsSorted(s[0], rest);
    } else {
      HeadFirst(s);
      forall z | z in s
        ensures DueNoLater(x, z)
      {
        if z != s[0] {
          assert z in s[1..];
        }
      }
      ConsSorted(x, s);
    }
  }

  lemma {:induction false} HeadFirst(s: seq<AssignmentRow>)
    requires SortedByDue(s) && |s| > 0
    ensures SortedByDue(s[1..])
    ensures forall z :: z in s[1..] ==> DueNoLater(s[0], z)
  {
    forall z | z in s[1..]
      ensures DueNoLater(s[0], z)
    {
      var j :| 0 <= j < |s[1..]| && s[1..][j] == z;
      assert s[j + 1] == z;
    }
  }

  lemma {:induction false} ConsSorted(y: AssignmentRow, s: seq<AssignmentRow>)
    requires SortedByDue(s)
    requires forall z :: z in s ==> DueNoLater(y, z)
    ensures SortedByDue([y] + s)
  {
    var r := [y] + s;
    forall i, j | 0 <= i < j < |r|
      ensures DueNoLater(r[i], r[j])
    {
      assert r[j] == s[j - 1];
      if i > 0 {
        assert r[i] == s[i - 1];
      }
    }
  }

  /** A stable sort by due date; the database may order rows with equal keys either way. */
  function SortByDue(s: seq<AssignmentRow>): (r: seq<AssignmentRow>)
    ensures SortedByDue(r)
    ensures multiset(r) == multiset(s)
  {
    if |s| == 0 then []
    else
      var init, last := s[..|s| - 1], s[|s| - 1];
      assert s == init + [last];
      InsertSorted(last, SortByDue(init));
      InsertAddsOne(last, SortByDue(init));
      Insert(last, SortByDue(init))
  }

  /** One result row: `assignment_id`, `title` and `due_date` ("" when NULL). */
  datatype AssignmentLine = AssignmentLine(assignmentId: string, title: Corpus.JString, dueDate: string)

  function Line(a: AssignmentRow, day: int -> string): AssignmentLine
  {
    AssignmentLine(IntToString(a.id), a.title, if a.due.Some? then day(a.due.value) else "")
  }

  /** The rows the query returns: the joined rows in due-date order, at most `limit` of them. */
  function ResultRows(t: Tables, classId: int, limit: nat): (r: seq<AssignmentRow>)
    ensures |r| <= limit && |r| == Min(limit, |Joined(t, classId)|)
    ensures SortedByDue(r)
    ensures multiset(r) <= multiset(Joined(t, classId))
    ensures forall x, y :: x in r && y in multiset(Joined(t, classId)) - multiset(r) ==> DueNoLater(x, y)
  {
    var s := SortByDue(Joined(t, classId));
    var n := Min(limit, |s|);
    TakeFacts(s, n);
    s[..n]
  }

  /** A prefix of a sorted list is sorted, and is due no later than whatever it leaves behind. */
  lemma {:induction false} TakeFacts(s: seq<AssignmentRow>, n: nat)
    requires n <= |s| && SortedByDue(s)
    ensures SortedByDue(s[..n])
    ensures multiset(s[..n]) <= multiset(s)
    ensures forall x, y :: x in s[..n] && y in multiset(s) - multiset(s[..n]) ==> DueNoLater(x, y)
  {
    assert s == s[..n] + s[n..];
    assert multiset(s) == multiset(s[..n]) + multiset(s[n..]);
    forall x, y | x in s[..n] && y in multiset(s) - multiset(s[..n])
      ensures DueNoLater(x, y)
    {
      assert y in multiset(s[n..]);
      var i :| 0 <= i < n && s[..n][i] == x;
      var j :| 0 <= j < |s[n..]| && s[n..][j] == y;
      assert s[i] == x && s[n + j] == y;
    }
  }

  function Min(a: int, b: int): int
  {
    if a <= b then a else b
  }

  /**
   * `queryAssignmentsForClass`: an error (nothing) for a negative limit,
   * otherwise one line per result row, in order: the assignment id as
   * decimal text, the title, and the due date formatted by `day`, or ""
   * when there is none.
   */
  function QueryAssignmentsForClass(t: Tables, classId: int, limit: int, day: int -> string)
    : (r: Option<seq<AssignmentLine>>)
    ensures r.Some? <==> limit >= 0
    ensures r.Some? ==> |r.value| <= limit
    ensures r.Some? ==>
              var rows := ResultRows(t, classId, limit);
              && |r.value| == |rows|
              && (forall i :: 0 <= i < |rows| ==> r.value[i].assignmentId == IntToString(rows[i].id)
                                                   && r.value[i].title == rows[i].title)
              && (forall i :: 0 <= i < |rows| && rows[i].due.None? ==> r.value[i].dueDate == "")
              && (forall i :: 0 <= i < |rows| && rows[i].due.Some? ==> r.value[i].dueDate == day(rows[i].due.value))
  {
    if limit < 0 then None
    else
      var rows := ResultRows(t, classId, limit);
      Some(seq(|rows|, i requires 0 <= i < |rows| => Line(rows[i], day)))
  }

  /** Every result row is an assignment related to the class through one of its topics. */
  lemma {:induction false} RowsRelated(t: Tables, classId: int, limit: nat)
    ensures var rows := ResultRows(t, classId, limit);
            forall i :: 0 <= i < |rows| ==> Related(t, classId, rows[i])
  {
    var rows := ResultRows(t, classId, limit);
    var joined := Joined(t, classId);
    forall i | 0 <= i < |rows|
      ensures Related(t, classId, rows[i])
    {
      assert rows[i] in multiset(rows);
      assert rows[i] in joined;
    }
  }

  /** Rows with a due date come first, in ascending date order; rows without one come last. */
  lemma {:induction false} RowsByDueDate(t: Tables, classId: int, limit: nat)
    ensures var rows := ResultRows(t, classId, limit);
            && (forall i, j :: 0 <= i < j < |rows| && rows[i].due.None? ==> rows[j].due.None?)
            && (forall i, j :: 0 <= i < j < |rows| && rows[j].due.Some? ==> rows[i].due.value <= rows[j].due.value)
  {
    var rows := ResultRows(t, classId, limit);
    forall i, j | 0 <= i < j < |rows|
      ensures DueNoLater(rows[i], rows[j])
    {
    }
  }

  /** When the limit allows it, the query returns every joined row. */
  lemma {:induction false} RowsComplete(t: Tables, classId: int, limit: nat)
    requires limit >= |Joined(t, classId)|
    ensures multiset(ResultRows(t, classId, limit)) == multiset(Joined(t, classId))
  {
    var joined := Joined(t, classId);
    var s := SortByDue(joined);
    assert |s| == |multiset(s)| == |multiset(joined)| == |joined|;
    assert ResultRows(t, classId, limit) == s[..|s|] == s;
  }

  // ---------- the synthetic chunk and its bodies ----------

  /** The fields of the retrieval chunk that `buildSqlChunk` sets. */
  datatype SqlChunk = SqlChunk(chunkId: string, chunkType: string, title: Corpus.JString, text: Corpus.JString)

  const SqlPrefix: string := "SQL-"

  /** `buildSqlChunk`: id "SQL-" followed by the suffix, type "sql_result", title and body as given. */
  function BuildSqlChunk(idSuffix: Corpus.JString, title: Corpus.JString, body: Corpus.JString): (r: SqlChunk)
    ensures r.chunkId == SqlPrefix + Corpus.Show(idSuffix) && r.chunkType == "sql_result"
    ensures r.title == title && r.text == body
  {
    SqlChunk(SqlPrefix + Corpus.Show(idSuffix), "sql_result", title, body)
  }

  /**
   * SQL chunks are told apart from exported chunks by their id: no "SQL-"
   * id reads as an export key, and distinct suffixes give distinct ids.
   */
  lemma {:induction false} SqlChunkIdsApart(a: Corpus.JString, b: Corpus.JString, ta: Corpus.JString, tb: Corpus.JString,
                         xa: Corpus.JString, xb: Corpus.JString)
    ensures ParseKey(BuildSqlChunk(a, ta, xa).chunkId).None?
    ensures Corpus.Show(a) != Corpus.Show(b) ==> BuildSqlChunk(a, ta, xa).chunkId != BuildSqlChunk(b, tb, xb).chunkId
  {
    var id := BuildSqlChunk(a, ta, xa).chunkId;
    assert id[..4] == SqlPrefix;
    DashAtIs(id, 0, 3);
    assert id[..3] == "SQL";
    var idb := BuildSqlChunk(b, tb, xb).chunkId;
    assert id[4..] == Corpus.Show(a) && idb[4..] == Corpus.Show(b);
  }

  /** The first line of both bodies. */
  function Header(topicCode: Corpus.JString): string
  {
    "SQL_RESULT for topic=" + Corpus.Show(topicCode) + "\n"
  }

  /** One `k: v` line per map entry, in the map's order. */
  function RangeLines(range: seq<(string, string)>): seq<string>
  {
    seq(|range|, i requires 0 <= i < |range| => range[i].0 + ": " + range[i].1 + "\n")
  }

  /**
   * `sqlDateRangeBody`: the header, then one `k: v` line per entry. When no
   * key holds a colon and no value a line break, the lines after the header
   * read back as exactly the entries, in order.
   */
  function DateRangeBody(topicCode: Corpus.JString, range: seq<(string, string)>): (r: string)
    ensures StartsWith(r, Header(topicCode))
    ensures Readable(range) ==> ParseEntries(r[|Header(topicCode)|..]) == Some(range)
  {
    BodyReadsBack(range);
    var r := Header(topicCode) + Concat(RangeLines(range));
    assert r[|Header(topicCode)|..] == Concat(RangeLines(range));
    r
  }

  /** Entries that `k: v` lines can carry unambiguously. */
  predicate Readable(range: seq<(string, string)>)
  {
    forall i :: 0 <= i < |range| ==> Lacks(range[i].0, ':') && Lacks(range[i].1, '\n')
  }

  /**
   * Reads `k: v` lines back: the key runs to the first colon, which must be
   * followed by a space, and the value to the end of the line.
   */
  function ParseEntries(s: string): Option<seq<(string, string)>>
    decreases |s|
  {
    if s == "" then Some([])
    else
      var i := IndexOf(s, ':');
      if i + 1 >= |s| || s[i + 1] != ' ' then None
      else
        var line := s[i + 2..];
        var j := IndexOf(line, '\n');
        if j == |line| then None
        else
          match ParseEntries(line[j + 1..])
          case None => None
          case Some(es) => Some([(s[..i], line[..j])] + es)
  }

  lemma {:induction false} EntriesReadBack(range: seq<(string, string)>)
    requires Readable(range)
    ensures ParseEntries(Concat(RangeLines(range))) == Some(range)
  {
    if |range| > 0 {
      var k, v := range[0].0, range[0].1;
      var tail := Concat(RangeLines(range[1..]));
      calc {
        ParseEntries(Concat(RangeLines(range)));
        { LinesCons(range); }
        ParseEntries(k + ": " + v + "\n" + tail);
        { ReadableTail(range); EntriesReadBack(range[1..]); ParseLine(k, v, tail); }
        Some([(k, v)] + range[1..]);
        { assert range == [(k, v)] + range[1..]; }
        Some(range);
      }
    }
  }

  lemma LinesCons(range: seq<(string, string)>)
    requires |range| > 0
    ensures Concat(RangeLines(range)) == range[0].0 + ": " + range[0].1 + "\n" + Concat(RangeLines(range[1..]))
  {
    var ls := RangeLines(range);
    assert ls == [ls[0]] + RangeLines(range[1..]);
    ConcatAppend([ls[0]], RangeLines(range[1..]));
  }

  lemma ReadableTail(range: seq<(string, string)>)
    requires |range| > 0 && Readable(range)
    ensures Readable(range[1..])
  {
    forall i | 0 <= i < |range| - 1
      ensures Lacks(range[1..][i].0, ':') && Lacks(range[1..][i].1, '\n')
    {
      assert range[1..][i] == range[i + 1];
    }
  }

  /** One `k: v` line in front of text that reads back puts `(k, v)` in front of what it reads. */
  lemma {:induction false} ParseLine(k: string, v: string, tail: string)
    requires Lacks(k, ':') && Lacks(v, '\n')
    ensures ParseEntries(tail).Some?
            ==> ParseEntries(k + ": " + v + "\n" + tail) == Some([(k, v)] + ParseEntries(tail).value)
  {
    var s := k + ": " + v + "\n" + tail;
    assert s == k + [':'] + (" " + v + "\n" + tail);
    IndexOfAfter(k, ':', " " + v + "\n" + tail);
    assert s[|k| + 1] == ' ';
    var line := s[|k| + 2..];
    assert line == v + ['\n'] + tail;
    IndexOfAfter(v, '\n', tail);
    assert line[|v| + 1..] == tail && line[..|v|] == v && s[..|k|] == k;
  }

  /** When the entries are readable, the lines after the header read back as them. */
  lemma BodyReadsBack(range: seq<(string, string)>)
    ensures Readable(range) ==> ParseEntries(Concat(RangeLines(range))) == Some(range)
  {
    if Readable(range) {
      EntriesReadBack(range);
    }
  }

  /** `sqlCountBody`: the header, then `Total classes: <n>`. */
  function CountBody(topicCode: Corpus.JString, cnt: int): string
  {
    Header(topicCode) + "Total classes: " + IntToString(cnt) + "\n"
  }

  /** The date-range body of a learned-at range names the earliest, then the latest stamp. */
  lemma {:induction false} DateRangeBodyOfRange(t: Tables, code: string, stamp: int -> string)
    requires QueryLearnedAtRange(t, code, stamp).Some?
    ensures exists lo, hi :: lo <= hi
              && DateRangeBody(Some(code), QueryLearnedAtRange(t, code, stamp).value)
                 == Header(Some(code)) + ("earliest: " + stamp(lo) + "\n") + ("latest: " + stamp(hi) + "\n")
  {
    LearnedRangeFacts(t, code, stamp);
    var range := QueryLearnedAtRange(t, code, stamp).value;
    var lo, hi :| lo <= hi && range == [("earliest", stamp(lo)), ("latest", stamp(hi))];
    TwoLineBody(Some(code), stamp(lo), stamp(hi));
  }

  lemma {:induction false} TwoLineBody(code: Corpus.JString, e: string, l: string)
    ensures DateRangeBody(code, [("earliest", e), ("latest", l)])
            == Header(code) + ("earliest: " + e + "\n") + ("latest: " + l + "\n")
  {
    var x, y := "earliest: " + e + "\n", "latest: " + l + "\n";
    var ls := RangeLines([("earliest", e), ("latest", l)]);
    assert |ls| == 2 && ls[0] == x && ls[1] == y;
    assert ls == [x, y];
    Concat2(x, y);
    assert Header(code) + (x + y) == Header(code) + x + y;
  }

  /** The count body hands the count back: its last line reads back as the number written. */
  lemma {:induction false} CountBodyReadsBack(topicCode: Corpus.JString, cnt: int)
    ensures exists digits :: CountBody(topicCode, cnt) == Header(topicCode) + "Total classes: " + digits + "\n"
                             && ParseInt(digits) == Some(cnt)
  {
    ParseIntToString(cnt);
  }
}
