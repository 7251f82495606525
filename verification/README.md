# Learning-assistant RAG core in Dafny

This project models the deterministic core of a learning-assistant
retrieval service. The service turns a course database into retrieval
chunks and routes a user question to SQL, to retrieval, or to both.

- **ChunkExporter.** It renders every course, topic, class and assignment
  row as JSON chunks. Each chunk has an identifier (`COURSE-<id>`,
  `TOPIC-<id>`, `TOPIC_AGG-<id>`, `CLASS-<id>-<part>`, `ASSIGN-<id>`), a
  type, a title, a text and ordered metadata. Class texts are cut into
  overlapping pieces by `splitToChunks`. The export in this model uses
  `splitToChunks` with the corrected hard split (see "## Findings"). The
  function works in three steps:
  - a regular-expression sentence splitter;
  - a greedy first pass that packs sentences into buffers of about
    `targetChars` characters and seeds each new buffer with up to
    `overlapChars` characters of trailing sentences;
  - a post-pass that hard-splits any chunk longer than 1.5 × `targetChars`
    into character windows.
- **IntentClassifier.** It classifies a question as FACTUAL, SEMANTIC or
  MIXED using two case-insensitive keyword patterns, and it recognises
  greetings.
- **SqlService helpers.** These cover resolving a topic code, the
  learned-at range and the class count of a topic, the assignments of a
  class ordered by due date, the synthetic `SQL-` chunk, and its two text
  bodies.
- **QueryResponse.from.** It copies a query result and derives the route
  (SQL, RAG or MIXED) from the intent string.

The model has one module per file:

| module | file | models |
|---|---|---|
| `Wrappers` | wrappers.dfy | `Option` |
| `Strings` | strings.dfy | `String.trim`, ASCII case mapping, `String.join`, decimal rendering |
| `Sentences` | sentences.dfy | `splitIntoSentences`, with the regex `[^.!?\n]+[.!?\n]*` as a reference definition |
| `Packing` | packing.dfy | the first pass of `splitToChunks` and its overlap seed |
| `HardSplit` | hardsplit.dfy | the hard-split loop, both as written and as intended |
| `Segmenter` | segmenter.dfy | `splitToChunks` as a whole |
| `ChunkIds` | chunkids.dfy | the identifier formats and how to read them back |
| `Corpus`, `CorpusProps` | corpus.dfy, corpusprops.dfy | the four exporters, then facts about each chunk |
| `ExportProps` | exportprops.dfy | facts about the whole export file |
| `IntentClassifier` | intent.dfy | `classify` and `isGreeting` |
| `SqlService` | facts.dfy | the SqlService helpers over in-memory tables |
| `Response` | response.dfy | `QueryResponse.from` |

Some inputs are parameters rather than part of the model:

- The database is a set of rows (`Corpus.Course`, `Corpus.Topic`,
  `SqlService.Tables`, …). Each row is already hydrated with the child rows
  its queries return, in the order they return them.
- Timestamps and dates are integers.
- Their textual forms are function parameters:
  - `iso` for `ISO_LOCAL_DATE_TIME`;
  - `stamp` for `LocalDateTime.toString`;
  - `day` for `Date.toString`.
- A nullable Java string is an `Option<string>`. String concatenation and
  `%s` render null as "null".

Three behaviours of the code are easy to miss, and the model keeps them:

- A course with no `created_at` and an assignment with no `due_date` still
  get that metadata key, holding "" (ChunkExporter.java lines 95 and 326).
- The sentence regex skips delimiters that come before the first sentence
  (ChunkExporter.java lines 390-394).
- A text of only spaces gives one empty chunk: the first sentence always
  enters the empty buffer, and trimming it leaves "" (ChunkExporter.java
  lines 349 and 368).

## Model

| member | source | states |
|---|---|---|
| Sentences.SplitIntoSentences | src/main/java/org/example/ChunkExporter.java:388-397 | at least one sentence; a text made only of delimiters comes back whole; any other text yields exactly the regex matches, which concatenate to the text minus its leading delimiters |
| Sentences.Matches | src/main/java/org/example/ChunkExporter.java:390-394 | the successive matches of `[^.!?\n]+[.!?\n]*` are well-formed sentences that together spell the text from its first non-delimiter |
| Sentences.MatchesUnique | src/main/java/org/example/ChunkExporter.java:390-394 | any split into well-formed sentences that spells the covered text is the matcher's split, so the regex has exactly one answer |
| Sentences.MatchesEmptyIff | src/main/java/org/example/ChunkExporter.java:390-396 | the matcher finds nothing exactly when the text is made only of delimiters, which is when the fallback adds the whole text |
| Packing.OverlapSeed | src/main/java/org/example/ChunkExporter.java:354-362 | the overlap seed is a contiguous run of sentences ending just before the triggering sentence; it is at most `overlapChars` long; it stops short of the first sentence only when it already holds `overlapChars` or more, or when the preceding sentence would push it past `overlapChars` |
| Packing.Overlap | src/main/java/org/example/ChunkExporter.java:357-362 | the backward walk returns a seed that is a run ending at the triggering sentence and at most `overlapChars` long; it stops at the start of the text, once the seed holds `overlapChars`, or before the first sentence that would push it past `overlapChars` |
| Packing.FirstPass | src/main/java/org/example/ChunkExporter.java:344-368 | each chunk is the trimmed text of one buffer: the overlap seed, then a run of new consecutive sentences; buffers follow each other from sentence 0, so each sentence is new content of at most one buffer, in order, and what follows the last buffer spells no text; a later sentence joins a buffer only if it fits in `targetChars` or the buffer is empty; every buffer but the last was closed because the next sentence would overflow it |
| Packing.Step | src/main/java/org/example/ChunkExporter.java:348-366 | one iteration of the sentence loop keeps the fold's description of the emitted chunks and the open buffer true for one more sentence |
| Segmenter.Pieces | src/main/java/org/example/ChunkExporter.java:371-382 | a chunk within 1.5 × target is kept as it is; a longer one becomes at least one window, none over the ceiling |
| Segmenter.PostPass | src/main/java/org/example/ChunkExporter.java:370-384 | every chunk gives at least one piece, so the result is never shorter than the input, and every piece is within 1.5 × target |
| Segmenter.PostPassAppend | src/main/java/org/example/ChunkExporter.java:370-384 | the post-pass of a concatenation is the concatenation of the post-passes: each chunk is handled on its own and the pieces keep the chunks' order |
| Segmenter.ShortChunkKept | src/main/java/org/example/ChunkExporter.java:372-373 | a chunk within 1.5 × target comes out as itself, between the pieces of the chunks before it and those after it |
| Segmenter.PostPassKeepsShortChunks | src/main/java/org/example/ChunkExporter.java:372-373 | when every chunk is within the ceiling, the post-pass returns the chunks unchanged and in order |
| Segmenter.SplitToChunks | src/main/java/org/example/ChunkExporter.java:343-385 | with the corrected hard split: every chunk is at most 1.5 × `targetChars`; there is a chunk exactly when the sentences hold some text |
| Segmenter.AsWrittenAgreesWhenFinished | src/main/java/org/example/ChunkExporter.java:343-385 | whenever `splitToChunks` as written finishes, its chunks are exactly those of the corrected version, so the two differ only where the written loop does not end |
| Segmenter.FirstPassEmptyIff | src/main/java/org/example/ChunkExporter.java:345-368 | the first pass emits no chunk exactly when the sentences concatenate to the empty string |
| Segmenter.ContentGivesChunk | src/main/java/org/example/ChunkExporter.java:343-385 | a text that starts with a non-delimiter always gives at least one chunk |
| Segmenter.SingleChunk | src/main/java/org/example/ChunkExporter.java:343-372 | a text whose sentences fit in `targetChars` becomes exactly one chunk, its trimmed sentence text |
| Segmenter.FitsInOneBuffer | src/main/java/org/example/ChunkExporter.java:347-368 | sentences whose total fits in `targetChars` are packed into one buffer, emitted trimmed |
| HardSplit.Bounds | src/main/java/org/example/ChunkExporter.java:375-381 | intended windows: none when the start is at the end; the first starts at the start and the last ends at the end; each ends at `min(len, start + target)`; each next one starts `overlapChars` before the previous end, which is `target - overlap` after the previous start |
| HardSplit.BoundsCover | src/main/java/org/example/ChunkExporter.java:376-378 | every character from the start on lies inside some intended window |
| HardSplit.Windows | src/main/java/org/example/ChunkExporter.java:375-381 | one trimmed text per intended window, none longer than `targetChars`, and some exactly when the chunk is non-empty |
| HardSplit.Trace | src/main/java/org/example/ChunkExporter.java:376-381 | the loop as written, run for at most `fuel` iterations; every window it visits lies inside the chunk |
| HardSplit.AsWrittenFixedPoint | src/main/java/org/example/ChunkExporter.java:377-380 | from start `len - overlapChars`, the window reaches the end and the next start is `len - overlapChars` again, so the loop repeats that window for ever |
| HardSplit.AsWrittenNeverTerminates | src/main/java/org/example/ChunkExporter.java:376-381 | with a positive overlap and a start before the end, the written loop has not finished after any number of iterations |
| HardSplit.AsWrittenAgreesWhenDone | src/main/java/org/example/ChunkExporter.java:375-381 | whenever the written loop has finished, it has visited exactly the intended windows |
| HardSplit.AsWrittenAgreesWithoutOverlap | src/main/java/org/example/ChunkExporter.java:376-381 | with zero overlap the written loop terminates and visits exactly the intended windows |
| Segmenter.SplitToChunksAsWritten | src/main/java/org/example/ChunkExporter.java:343-385 | `splitToChunks` exactly as written, with a step budget for its hard-split loops; no contract of its own, stated by Segmenter.LongFirstPassChunkNeverFinishes and Segmenter.AsWrittenAgreesWhenFinished |
| Segmenter.LongChunkBlocks | src/main/java/org/example/ChunkExporter.java:370-384 | with a positive overlap, one chunk over 1.5 × target anywhere in the list keeps the post-pass as written from finishing, for any step budget |
| Segmenter.LongFirstPassChunkNeverFinishes | src/main/java/org/example/ChunkExporter.java:343-385 | any text whose first pass yields a trimmed chunk over 1.5 × target makes `splitToChunks` as written run for ever when the overlap is positive |
| Segmenter.LongSentenceNeverFinishes | src/main/java/org/example/ChunkExporter.java:343-381 | `splitToChunks` as written never returns for a single printable sentence longer than 1.5 × target when the overlap is positive |
| Segmenter.DefaultsNeverFinish | src/main/java/org/example/ChunkExporter.java:265 | with the exporter's own settings (1200, 250), `splitToChunks` as written never returns on 1801 letters with no delimiter |
| ChunkIds.ParseRenderKey | src/main/java/org/example/ChunkExporter.java:270 | every chunk identifier the exporter formats (`COURSE-`, `TOPIC-`, `TOPIC_AGG-`, `CLASS-<id>-<part>`, `ASSIGN-`), negative ids included, reads back as the key it was made from |
| Strings.IntToStringInjective | src/main/java/org/example/ChunkExporter.java:87 | distinct integers, negative ones included, render as distinct `%d` strings |
| ChunkIds.RenderKeyInjective | src/main/java/org/example/ChunkExporter.java:193 | distinct keys give distinct identifiers, so a topic aggregate never collides with a topic summary or with any other chunk |
| CorpusProps.CourseCounts | src/main/java/org/example/ChunkExporter.java:75-97 | the topic count appears in the text and under `topic_count`, both equal to the number of topics; with no topics the listing reads "None"; with no `created_at` the metadata holds "" |
| CorpusProps.TopicCounts | src/main/java/org/example/ChunkExporter.java:150-175 | the class and assignment counts appear in the text and in the metadata, both equal to the list lengths; with no assignments the list reads "- None" |
| CorpusProps.AggregateCounts | src/main/java/org/example/ChunkExporter.java:186-202 | the aggregate repeats the summary's counts in text and metadata and gives the earliest learning time, or "unknown" |
| CorpusProps.AggregateStamps | src/main/java/org/example/ChunkExporter.java:181-204 | `first_learned` and `last_learned` are present exactly when some class of the topic has a learning time; they are then the minimum and the maximum, and the first is not after the last |
| CorpusProps.ClassParts | src/main/java/org/example/ChunkExporter.java:265-281 | a class gives parts `CLASS-<id>-1..N` with N ≥ 1 in piece order; each part's text is its piece and at most 1800 characters; all parts share the metadata; the title has " (part k/N)" exactly when N > 1 |
| CorpusProps.ClassTextFacts | src/main/java/org/example/ChunkExporter.java:255-262 | a class text states its learning time, or "unknown", and lists "- None" when it has no resources |
| CorpusProps.ClassMetadataFacts | src/main/java/org/example/ChunkExporter.java:275-280 | `learned_at` is present exactly when the class has a learning time and then holds it; `resource_count` is the number of resources |
| CorpusProps.AssignmentFacts | src/main/java/org/example/ChunkExporter.java:310-327 | the due date, or "" when there is none, appears in the text and under `due_date`; `related_topic_count` is the number of related topics; with none the text reads "None" |
| Corpus.CourseChunk | src/main/java/org/example/ChunkExporter.java:75-97 | the course chunk; no contract of its own, stated by CorpusProps.CourseCounts |
| Corpus.TopicChunk | src/main/java/org/example/ChunkExporter.java:150-175 | the topic summary chunk; no contract of its own, stated by CorpusProps.TopicCounts |
| Corpus.AggregateChunk | src/main/java/org/example/ChunkExporter.java:181-204 | the topic aggregate chunk; no contract of its own, stated by CorpusProps.AggregateCounts and CorpusProps.AggregateStamps |
| Corpus.ClassChunks | src/main/java/org/example/ChunkExporter.java:255-281 | the part chunks of one class; no contract of its own, stated by CorpusProps.ClassParts, CorpusProps.ClassTextFacts and CorpusProps.ClassMetadataFacts |
| Corpus.AssignmentChunk | src/main/java/org/example/ChunkExporter.java:310-327 | the assignment chunk; no contract of its own, stated by CorpusProps.AssignmentFacts |
| Corpus.Export | src/main/java/org/example/ChunkExporter.java:42-45 | the whole export file; no contract of its own, stated by ExportProps.ExportIdsDistinct and ExportProps.ExportOrder |
| Corpus.EarliestLearned | src/main/java/org/example/ChunkExporter.java:181-188 | `MIN(learned_at)` skipping NULLs: present exactly when some class has a time, equal to one of those times and not above any of them |
| Corpus.LatestLearned | src/main/java/org/example/ChunkExporter.java:181-189 | `MAX(learned_at)` skipping NULLs: present exactly when some class has a time, equal to one of them and not below any of them |
| ExportProps.ExportIdsDistinct | src/main/java/org/example/ChunkExporter.java:42-45 | when the database ids of each table are distinct, no two chunks of the export file share a `chunk_id` |
| ExportProps.ExportOrder | src/main/java/org/example/ChunkExporter.java:42-45 | every identifier in the file reads back as a key; courses come before topics, topics before classes, classes before assignments; each topic aggregate directly follows its own topic summary |
| IntentClassifier.Classify | src/main/java/org/example/IntentClassifier.java:17-27 | a null query is SEMANTIC; otherwise MIXED exactly when both patterns match, FACTUAL exactly when only the factual one does, SEMANTIC exactly when the factual one does not |
| IntentClassifier.IsGreeting | src/main/java/org/example/IntentClassifier.java:32-39 | a null query is never a greeting; a greeting's normal form is always one of the listed greetings or starts with a listed prefix |
| IntentClassifier.IsGreetingIff | src/main/java/org/example/IntentClassifier.java:32-39 | a query is a greeting exactly when its trimmed lower-case form is one of the ten fixed greetings or starts with "hi ", "hello " or "hey " |
| IntentClassifier.ClassifyIgnoresCaseAndPadding | src/main/java/org/example/IntentClassifier.java:19-22 | surrounding whitespace and ASCII letter case do not change the classification |
| IntentClassifier.IsGreetingIgnoresCaseAndPadding | src/main/java/org/example/IntentClassifier.java:34-38 | surrounding whitespace and ASCII letter case do not change the greeting verdict |
| IntentClassifier.NoLettersIsSemantic | src/main/java/org/example/IntentClassifier.java:12-26 | a query with no letters matches neither pattern and is SEMANTIC |
| IntentClassifier.FactualWordNotSemantic | src/main/java/org/example/IntentClassifier.java:12-25 | a query containing a factual keyword as a whole word is never SEMANTIC |
| IntentClassifier.SemanticWordNotFactual | src/main/java/org/example/IntentClassifier.java:13-26 | a query containing a semantic keyword as a whole word is never FACTUAL |
| IntentClassifier.MixedExample | src/main/java/org/example/IntentClassifier.java:21-24 | "  Why and WHEN? " normalises to "why and when?" and is MIXED |
| IntentClassifier.GreetingExactExample | src/main/java/org/example/IntentClassifier.java:35 | "hello" is a greeting |
| IntentClassifier.GreetingPrefixExample | src/main/java/org/example/IntentClassifier.java:37 | "  Hi there" is a greeting by its "hi " prefix |
| IntentClassifier.HiTechNotGreeting | src/main/java/org/example/IntentClassifier.java:35-38 | "hi-tech topics" is not a greeting: "hi" must be followed by a space |
| IntentClassifier.YoThereNotGreeting | src/main/java/org/example/IntentClassifier.java:35-37 | "yo there" is not a greeting: "yo" has no prefix form |
| IntentClassifier.YoBangNotGreeting | src/main/java/org/example/IntentClassifier.java:35-36 | "yo!" is not a greeting: only hi, hello and hey have a "!" form |
| SqlService.ResolveTopicId | src/main/java/org/example/SqlService.java:31-42 | no id exactly when no topic's code equals the trimmed input ignoring case; otherwise the id of the first topic whose code does |
| SqlService.ResolveIgnoresCaseAndPadding | src/main/java/org/example/SqlService.java:32-34 | surrounding whitespace and ASCII case of the code do not change the resolved id |
| SqlService.ResolveUniqueCode | src/main/java/org/example/SqlService.java:31-42 | when topic codes are distinct ignoring case, a matching topic's id is the one resolved |
| SqlService.ClassesOf | src/main/java/org/example/SqlService.java:79 | `WHERE topic_id = ?` keeps every copy of each class of the given topic and nothing else |
| SqlService.QueryCountClasses | src/main/java/org/example/SqlService.java:74-88 | empty exactly when the topic does not resolve; otherwise the number of classes whose `topic_id` is the resolved id |
| SqlService.CountZeroIsNotAbsent | src/main/java/org/example/SqlService.java:76-84 | a resolved topic with no classes counts 0, not empty |
| SqlService.CountAfterAddingClass | src/main/java/org/example/SqlService.java:79-84 | adding a class raises its own topic's count by one and leaves other topics' counts alone |
| SqlService.QueryLearnedAtRange | src/main/java/org/example/SqlService.java:49-69 | a range is returned only for a resolved topic; the rest is stated by SqlService.LearnedRangeFacts |
| SqlService.LearnedRangeFacts | src/main/java/org/example/SqlService.java:49-69 | empty exactly when the topic does not resolve or none of its classes has a `learned_at`; otherwise "earliest" then "latest", the least and the greatest of those times, with least ≤ greatest |
| SqlService.SortByDue | src/main/java/org/example/SqlService.java:98 | `ORDER BY a.due_date`: the result is ordered by due date, with NULLs last, and is a permutation of its input |
| SqlService.Joined | src/main/java/org/example/SqlService.java:94-98 | a row belongs to the join exactly when it is an assignment linked to the topic of a class with the given id; it appears once per combination of a copy of the row, a class with the given id and a link from the row's id to that class's topic |
| SqlService.ResultRows | src/main/java/org/example/SqlService.java:98 | `ORDER BY a.due_date LIMIT ?`: exactly min(limit, joined count) rows, ordered by due date, drawn from the joined rows, and due no later than every joined row left out |
| SqlService.QueryAssignmentsForClass | src/main/java/org/example/SqlService.java:93-115 | an error exactly when the limit is negative; otherwise at most `limit` lines, one per result row in order, with the id in decimal, the title, and the due date or "" |
| SqlService.RowsRelated | src/main/java/org/example/SqlService.java:94-98 | every returned row is an assignment linked to a topic that has a class with the given id |
| SqlService.RowsByDueDate | src/main/java/org/example/SqlService.java:98 | returned rows with a due date come first, in ascending order; rows without one come last |
| SqlService.RowsComplete | src/main/java/org/example/SqlService.java:94-98 | when the limit is at least the number of joined rows, the result is exactly the joined rows, as a multiset |
| SqlService.BuildSqlChunk | src/main/java/org/example/SqlService.java:121-128 | the id is "SQL-" followed by the suffix, the type is "sql_result", and the title and text are the given ones |
| SqlService.SqlChunkIdsApart | src/main/java/org/example/SqlService.java:117-123 | a "SQL-" id never reads as an exported chunk identifier, and distinct suffixes give distinct ids |
| SqlService.DateRangeBody | src/main/java/org/example/SqlService.java:130-136 | the body starts with the header line; when no key holds a colon and no value a line break, the rest reads back as exactly the entries, in the map's order |
| SqlService.EntriesReadBack | src/main/java/org/example/SqlService.java:134 | the "key: value" lines of readable entries parse back into those entries, in order |
| SqlService.TwoLineBody | src/main/java/org/example/SqlService.java:131-136 | a two-entry range renders as the header line, then "earliest: …", then "latest: …", each line ending in a newline |
| SqlService.DateRangeBodyOfRange | src/main/java/org/example/SqlService.java:131-136 | the body of any range the query returns is the header, then the earliest line, then the latest line, with earliest ≤ latest |
| SqlService.CountBody | src/main/java/org/example/SqlService.java:139-141 | the count body; no contract of its own, stated by SqlService.CountBodyReadsBack |
| SqlService.CountBodyReadsBack | src/main/java/org/example/SqlService.java:139-141 | the count body is the header followed by "Total classes: " and digits that read back as the count |
| Response.From | src/main/java/org/example/dto/QueryResponse.java:106-127 | every field of the result and the latency are copied unchanged, and the route is derived from the intent |
| Response.RouteOf | src/main/java/org/example/dto/QueryResponse.java:116-124 | SQL exactly when the intent equals "FACTUAL" ignoring case; RAG exactly when it does not but equals "SEMANTIC"; MIXED otherwise, null included |
| Response.RouteOfClassifiedIntent | src/main/java/org/example/dto/QueryResponse.java:117-124 | the classifier's three intent names route to SQL, RAG and MIXED respectively |
| Response.RouteIgnoresCase | src/main/java/org/example/dto/QueryResponse.java:118-120 | two intent strings that agree letter by letter up to case get the same route |
| Response.RouteExamples | src/main/java/org/example/dto/QueryResponse.java:117-124 | "factual" routes to SQL, "Semantic" to RAG, "MIXED" to MIXED, and "SEMANTİC" (dotted capital I) to RAG |

## Left out

- Database access is left out: JDBC connections, prepared statements and the per-row sub-queries. Rows are modelled as records whose child lists come in query order.
- JSON serialisation (Jackson), the output file, console output and environment variables are left out. A chunk is a record with ordered metadata.
- Timestamp and date formatting are opaque function parameters, because they call into `java.time`.
- `toLowerCase(Locale.ROOT)` and SQL `UPPER` are modelled on ASCII letters only. Full Unicode case mapping, including characters whose case form has a different length, is not modelled.
- ChunkIds.RenderKey: `%d` in `String.format` is modelled for a default locale whose digits are ASCII. Under a locale with other digits (ar-EG, th-TH-u-nu-thai) `COURSE-%d`, `TOPIC-%d`, `CLASS-%d-%d`, the class number `#%d` and `Total classes: %d` come out with non-ASCII digits, while `"TOPIC_AGG-" + id`, `"ASSIGN-" + id` and `StringBuilder.append(int)` always use ASCII. ChunkIds.ParseRenderKey, Strings.IntToStringInjective and SqlService.CountBodyReadsBack hold under that assumption.
- IntentClassifier.Classify: `\b` is modelled with the ASCII word characters `[a-zA-Z0-9_]`, which is how `java.util.regex` defines it from JDK 19 on without `UNICODE_CHARACTER_CLASS`. Up to JDK 18, `\b` counts every `Character.isLetterOrDigit` character as a word character, so a non-ASCII letter next to a keyword blocks the match there but not in the model.
- IntentClassifier.Classify: in every JDK version, a non-spacing mark that follows a word character counts as a word character for `\b`. The model treats it as a non-word character. For "x\u0301when" the model finds "when" as a whole word and answers FACTUAL, where Java finds no boundary and answers SEMANTIC.
- Segmenter.SplitToChunks: lengths are counted in Unicode scalar values, where Java's `length()` and `substring` count UTF-16 code units. The same holds for Packing.FirstPass, HardSplit.Windows and the 1800-character bound of CorpusProps.ClassParts. Text with characters outside the Basic Multilingual Plane is therefore packed and cut at different places, and Java can cut a window through a surrogate pair, which the model cannot express.
- Response.RouteOf: `equalsIgnoreCase` is modelled for ASCII letters plus the few non-ASCII characters whose case forms meet the letters of "FACTUAL" and "SEMANTIC" (dotless ı, dotted İ, long ſ, Kelvin sign). It is not a general Unicode model.
- Segmenter.SplitToChunks: requires `0 <= overlapChars < targetChars`. The intended hard split is not defined for other settings. The exporter only calls it with 1200 and 250.
- HardSplit.Trace: runs the loop as written for at most `fuel` iterations. Non-termination is stated as "not finished after any fuel".
- SqlService.ResolveTopicId: a null topic code, which throws in `trim`, is not modelled (the code is a plain string). Without an `ORDER BY`, "the first row" is taken as the first row of the table in scan order.
- SqlService.QueryAssignmentsForClass: a negative `LIMIT` is modelled as an error (no result), as PostgreSQL rejects it. Rows with equal due dates keep their join order, where the database may order them arbitrarily.
- SqlService.QueryCountClasses: the `!rs.next()` branch is not modelled, because `COUNT(*)` always returns one row. The same holds for the aggregate query of the learned-at range.
- Export: the `if (ar.next())` guard around the topic aggregate is always true for an aggregate query, so every topic gets its aggregate chunk.
- QueryController, QueryRequest, ShowTables, TestLLM, the router's orchestration, retrieval and generation are outside this model.

## Findings

| source | as written | input that shows it | evidently intended | confidence | as-written member | corrected member |
|---|---|---|---|---|---|---|
| src/main/java/org/example/ChunkExporter.java:376-381 | after the window that reaches the end of the chunk, `idx = end - overlapChars` falls back below `c.length()`, so the loop emits the last window again and again and never exits | `splitToChunks` on 1801 letters with no sentence delimiter, with `targetChars` 1200 and `overlapChars` 250 (the exporter's own settings); any class whose first pass yields a chunk longer than 1800 characters after trimming | stop after the window that ends at the end of the chunk, so windows advance by `targetChars - overlapChars` and the last one ends at the end | not executed | Segmenter.LongFirstPassChunkNeverFinishes | HardSplit.Bounds |
