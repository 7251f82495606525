/**
 * The chunk identifiers the exporter writes: `COURSE-<id>`, `TOPIC-<id>`,
 * `TOPIC_AGG-<id>`, `CLASS-<id>-<part>` and `ASSIGN-<id>`, with a reader
 * that recovers the key from the identifier.
 */
module ChunkIds {
  import opened Wrappers
  import opened Strings

  /** What an identifier names: an entity kind, the row id, and for classes the 1-based part. */
  datatype ChunkKey =
    | CourseKey(id: int)
    | TopicKey(id: int)
    | AggregateKey(id: int)
    | ClassKey(id: int, part: int)
    | AssignmentKey(id: int)

  /** The kind tag an identifier starts with. */
  function Tag(k: ChunkKey): string
  {
    match k
    case CourseKey(_) => "COURSE"
    case TopicKey(_) => "TOPIC"
    case AggregateKey(_) => "TOPIC_AGG"
    case ClassKey(_, _) => "CLASS"
    case AssignmentKey(_) => "ASSIGN"
  }

  /** The numbers after the tag. */
  function Numbers(k: ChunkKey): string
  {
    if k.ClassKey? then IntToString(k.id) + "-" + IntToString(k.part) else IntToString(k.id)
  }

  /** The identifier the exporter writes for a key (the id formats of the five export methods). */
  function RenderKey(k: ChunkKey): string
  {
    Tag(k) + "-" + Numbers(k)
  }

  /** Reads back a decimal `int` as `String.valueOf` writes it. */
  function ParseInt(s: string): Option<int>
  {
    if |s| > 1 && s[0] == '-' && AllDigits(s[1..]) then Some(-(ParseNat(s[1..]) as int))
    else if |s| > 0 && AllDigits(s) then Some(ParseNat(s))
    else None
  }

  lemma {:induction false} ParseIntToString(i: int)
    ensures ParseInt(IntToString(i)) == Some(i)
  {
    var s := IntToString(i);
    if i < 0 {
      assert s[1..] == NatToString(-i);
      ParseNatToString(-i);
    } else {
      ParseNatToString(i);
    }
  }

  /** Index of the first '-' in `s` at or after `from`, or `|s|` if there is none. */
  function DashAt(s: string, from: nat): (j: nat)
    requires from <= |s|
    ensures from <= j <= |s|
    ensures forall k :: from <= k < j ==> s[k] != '-'
    ensures j < |s| ==> s[j] == '-'
    decreases |s| - from
  {
    if from == |s| || s[from] == '-' then from else DashAt(s, from + 1)
  }

  lemma {:induction false} DashAtIs(s: string, from: nat, j: nat)
    requires from <= j <= |s|
    requires forall k :: from <= k < j ==> s[k] != '-'
    requires j < |s| ==> s[j] == '-'
    ensures DashAt(s, from) == j
  {
  }

  /** The key an identifier names, if it has one of the five forms. */
  function ParseKey(s: string): Option<ChunkKey>
  {
    var j := DashAt(s, 0);
    if j == |s| then None else ParseTagged(s[..j], s[j + 1..])
  }

  /** The key named by a tag and the numbers after its dash. */
  function ParseTagged(tag: string, rest: string): Option<ChunkKey>
  {
    if tag == "CLASS" then ParseClassNumbers(rest)
    else
      match ParseInt(rest)
      case None => None
      case Some(n) =>
        if tag == "COURSE" then Some(CourseKey(n))
        else if tag == "TOPIC" then Some(TopicKey(n))
        else if tag == "TOPIC_AGG" then Some(AggregateKey(n))
        else if tag == "ASSIGN" then Some(AssignmentKey(n))
        else None
  }

  /** Reads `<id>-<part>`; the id may carry a sign, so the separator is the first '-' after its first character. */
  function ParseClassNumbers(rest: string): Option<ChunkKey>
  {
    if |rest| == 0 then None
    else
      var j := DashAt(rest, 1);
      if j == |rest| then None
      else
        match (ParseInt(rest[..j]), ParseInt(rest[j + 1..]))
        case (Some(a), Some(b)) => Some(ClassKey(a, b))
        case _ => None
  }

  lemma {:induction false} TagHasNoDash(k: ChunkKey)
    ensures |Tag(k)| > 0
    ensures forall i :: 0 <= i < |Tag(k)| ==> Tag(k)[i] != '-'
  {
  }

  lemma {:induction false} NumbersRead(k: ChunkKey)
    ensures k.ClassKey? ==> ParseClassNumbers(Numbers(k)) == Some(k)
    ensures !k.ClassKey? ==> ParseInt(Numbers(k)) == Some(k.id)
  {
    ParseIntToString(k.id);
    if k.ClassKey? {
      var a, b := IntToString(k.id), IntToString(k.part);
      var rest := a + "-" + b;
      IntToStringDashFree(k.id);
      DashAtIs(rest, 1, |a|);
      assert rest[..|a|] == a;
      assert rest[|a| + 1..] == b;
      ParseIntToString(k.part);
    }
  }

  /** A dash-free tag ends at the first dash, so the rest is read as its numbers. */
  lemma {:induction false} ParseKeySplits(tag: string, rest: string)
    requires forall i :: 0 <= i < |tag| ==> tag[i] != '-'
    ensures ParseKey(tag + "-" + rest) == ParseTagged(tag, rest)
  {
    var s := tag + "-" + rest;
    DashAtIs(s, 0, |tag|);
    assert s[..|tag|] == tag;
    assert s[|tag| + 1..] == rest;
  }

  /** Every identifier the exporter writes reads back as the key it was written for. */
  lemma {:induction false} ParseRenderKey(k: ChunkKey)
    ensures ParseKey(RenderKey(k)) == Some(k)
  {
    TagHasNoDash(k);
    ParseKeySplits(Tag(k), Numbers(k));
    TaggedRead(k);
  }

  lemma {:induction false} TaggedRead(k: ChunkKey)
    ensures ParseTagged(Tag(k), Numbers(k)) == Some(k)
  {
    NumbersRead(k);
    match k
    case CourseKey(_) =>
      assert Tag(k) != "CLASS";
    case TopicKey(_) =>
      assert Tag(k)[0] != "CLASS"[0];
      assert Tag(k) != "COURSE";
    case AggregateKey(_) =>
      assert Tag(k)[0] != "CLASS"[0] && Tag(k)[0] != "COURSE"[0];
      assert Tag(k) != "TOPIC";
    case ClassKey(_, _) =>
    case AssignmentKey(_) =>
      assert Tag(k)[0] != "CLASS"[0] && Tag(k)[0] != "COURSE"[0] && Tag(k)[0] != "TOPIC"[0];
      assert Tag(k) != "TOPIC_AGG";
  }

  /** Distinct keys are written as distinct identifiers. */
  lemma {:induction false} RenderKeyInjective(k1: ChunkKey, k2: ChunkKey)
    requires RenderKey(k1) == RenderKey(k2)
    ensures k1 == k2
  {
    ParseRenderKey(k1);
    ParseRenderKey(k2);
  }
}
