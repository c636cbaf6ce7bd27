/**
 * The ingestion route (app/api/ingest/route.ts): validation, deduplication,
 * text extraction, the length check, tagging, the source insert and the
 * batched chunk-row inserts, over a store of source rows and chunk rows.
 * Every outside call (hashing, fetching, transcripts, the tagging model,
 * embeddings and the store's insert errors) is a parameter.
 */
module Ingest {
  import opened Wrappers
  import opened Text
  import opened Json
  import opened Chunker
  import opened Tagging
  import opened YouTube

  /** An embedding vector. */
  type Vector = seq<real>

  /**
   * The outside calls the route makes:
   * `sha256` the hex digest; `fetchPage` the page body, `None` when `fetch`
   * throws or the response is not ok; `stripMarkup` the tag and entity
   * replacements applied to that body before whitespace is collapsed;
   * `transcript` the segment texts for a video id, `None` when the fetch
   * throws or gives no array; `embed` one Voyage call, `None` when it fails;
   * `sourceInsertFails` / `chunkInsertFails` whether the store reports an
   * error for an insert.
   */
  datatype Services = Services(
    sha256: string -> string,
    fetchPage: string -> Option<string>,
    stripMarkup: string -> string,
    transcript: string -> Option<seq<string>>,
    tagger: TagServices,
    embed: seq<string> -> Option<seq<Vector>>,
    sourceInsertFails: SourceRow -> bool,
    chunkInsertFails: seq<ChunkRow> -> bool)

  /** A row of `sources`; `url` and `author` are `null` when not given. */
  datatype SourceRow = SourceRow(
    url: Json, kind: Json, title: Json, author: Json, categories: seq<Json>,
    summary: Json, rawText: string, contentHash: Option<string>)

  /** A row of `chunks`; the embedding is absent when the embedding call returned too few vectors. */
  datatype ChunkRow = ChunkRow(sourceId: nat, content: string, chunkIndex: nat, embedding: Option<Vector>)

  /** What the route answers. */
  datatype Response =
    | Ingested(id: nat, chunks: nat, categories: seq<Json>, title: Json, summary: Json)
    | Failed(status: nat, existing: Option<nat>)

  const BadRequest: nat := 400
  const Conflict: nat := 409
  const TooShort: nat := 422
  const ServerError: nat := 500

  /** The shortest extracted text that is ingested. */
  const MinTextLength: nat := 100
  /** How many characters of a pasted text are hashed. */
  const HashedLength: nat := 5000
  /** How many chunks go into one embedding call and one insert. */
  const BatchSize: nat := 20

  // ---------------------------------------------------------------------------
  // Pure helpers
  // ---------------------------------------------------------------------------

  /** `hashText`: the SHA-256 of the first 5000 characters, exactly as given. */
  function HashText(sha256: string -> string, text: string): string {
    sha256(Prefix(text, HashedLength))
  }

  /** Texts that agree on their first 5000 characters hash alike, whatever follows. */
  lemma HashPrefixOnly(sha256: string -> string, a: string, b: string)
    requires Prefix(a, HashedLength) == Prefix(b, HashedLength)
    ensures HashText(sha256, a) == HashText(sha256, b)
  {
  }

  /** `fetchYouTubeTranscript`: the segment texts joined by single spaces. */
  function TranscriptText(svc: Services, url: string): (r: Option<string>)
    ensures r.Some? <==> VideoId(url).Some? && svc.transcript(VideoId(url).value).Some?
                         && |svc.transcript(VideoId(url).value).value| > 0
    ensures r.Some? ==> r.value == Join(svc.transcript(VideoId(url).value).value, " ")
  {
    match VideoId(url)
    case None => None
    case Some(id) =>
      match svc.transcript(id)
      case None => None
      case Some(segments) => if |segments| == 0 then None else Some(Join(segments, " "))
  }

  /**
   * A transcript is as long as its segments plus one space between each two,
   * so it is never shorter than the segments together.
   */
  lemma TranscriptLength(svc: Services, url: string)
    requires TranscriptText(svc, url).Some?
    ensures var segments := svc.transcript(VideoId(url).value).value;
            |TranscriptText(svc, url).value| == TotalLength(segments) + |segments| - 1
  {
    JoinLength(svc.transcript(VideoId(url).value).value, " ");
  }

  /** `fetchAndExtractText`: the page with its markup stripped, whitespace collapsed and trimmed. */
  function PageText(svc: Services, url: string): Option<string> {
    match svc.fetchPage(url)
    case None => None
    case Some(html) => Some(Normalize(svc.stripMarkup(html)))
  }

  /** Extracted page text is already in the form the chunker normalises to. */
  lemma PageTextNormalized(svc: Services, url: string)
    requires PageText(svc, url).Some?
    ensures IsNormalized(PageText(svc, url).value)
    ensures Normalize(PageText(svc, url).value) == PageText(svc, url).value
  {
    NormalizeShape(svc.stripMarkup(svc.fetchPage(url).value));
    NormalizeIdempotent(svc.stripMarkup(svc.fetchPage(url).value));
  }

  // ---------------------------------------------------------------------------
  // The decisions taken before anything is written
  // ---------------------------------------------------------------------------

  /** `body.type || "url"`. */
  function Kind(body: Json): Json
    requires !body.JNull?
  {
    Or(Get(body, "type"), JStr("url"))
  }

  /** The kinds that are fetched from a URL. */
  predicate FetchesUrl(kind: Json) {
    kind == JStr("url") || kind == JStr("youtube")
  }

  /** The validation step fails: a URL kind without a URL, or a text without text or title. */
  predicate Invalid(body: Json, kind: Json)
    requires !body.JNull?
  {
    if FetchesUrl(kind) then !Truthy(Get(body, "url"))
    else if kind == JStr("text") then !Truthy(Get(body, "text")) || !Truthy(Get(body, "title"))
    else false
  }

  /** `.single()`: the one matching row's id, or nothing when no row or several rows match. */
  function Single(ids: set<nat>): (r: Option<nat>)
    ensures r.Some? <==> |ids| == 1
    ensures r.Some? ==> ids == {r.value}
  {
    if |ids| == 1 then
      var id :| id in ids;
      assert |ids - {id}| == 0;
      assert ids == {id};
      Some(id)
    else None
  }

  /** The ids of the rows whose `url` equals `url`. */
  function UrlMatches(sources: map<nat, SourceRow>, url: Json): set<nat> {
    set id | id in sources && sources[id].url == url
  }

  /** The ids of the rows whose `content_hash` equals `hash`. */
  function HashMatches(sources: map<nat, SourceRow>, hash: string): set<nat> {
    set id | id in sources && sources[id].contentHash == Some(hash)
  }

  /**
   * The deduplication step: a 409 naming the one row with the same URL (for
   * `url` and `youtube`) or the same hash (for `text`); a 500 when a text
   * to be hashed is not a string; nothing for other kinds.
   */
  function Duplicate(svc: Services, body: Json, kind: Json, sources: map<nat, SourceRow>): Option<Response>
    requires !body.JNull?
  {
    if FetchesUrl(kind) then
      match Single(UrlMatches(sources, Get(body, "url")))
      case Some(id) => Some(Failed(Conflict, Some(id)))
      case None => None
    else if kind == JStr("text") then
      match Get(body, "text")
      case JStr(text) =>
        (match Single(HashMatches(sources, HashText(svc.sha256, text)))
         case Some(id) => Some(Failed(Conflict, Some(id)))
         case None => None)
      case _ => Some(Failed(ServerError, None))
    else None
  }

  /**
   * The extraction step: the page text for `url`, the transcript for
   * `youtube`, and the given text otherwise. A URL or text that is not a
   * JSON string is taken as an extraction failure here, which the route
   * itself does not always do.
   */
  function ExtractText(svc: Services, body: Json, kind: Json): Option<string>
    requires !body.JNull?
  {
    if kind == JStr("url") then
      match Get(body, "url")
      case JStr(url) => PageText(svc, url)
      case _ => None
    else if kind == JStr("youtube") then
      match Get(body, "url")
      case JStr(url) => TranscriptText(svc, url)
      case _ => None
    else
      match Get(body, "text")
      case JStr(text) => Some(text)
      case _ => None
  }

  /** The caller's categories when they form a non-empty array, the tagger's otherwise. */
  function ResolveCategories(body: Json, tags: Tags): seq<Json>
    requires !body.JNull?
  {
    var given := Get(body, "categories");
    if given.JArr? && |given.items| > 0 then given.items else tags.categories
  }

  /** The caller's title for a text; for other kinds the caller's title, or the tagger's when none is given. */
  function ResolveTitle(body: Json, kind: Json, tags: Tags): Json
    requires !body.JNull?
  {
    if kind == JStr("text") then Get(body, "title") else Or(Get(body, "title"), tags.title)
  }

  /** The source row inserted for an admitted request; only texts carry a content hash. */
  function NewSource(svc: Services, body: Json, kind: Json, rawText: string, tags: Tags): SourceRow
    requires !body.JNull?
  {
    var hash := if kind == JStr("text") && Get(body, "text").JStr? then Some(HashText(svc.sha256, Get(body, "text").s)) else None;
    SourceRow(Or(Get(body, "url"), JNull), kind, ResolveTitle(body, kind, tags), Or(Get(body, "author"), JNull),
              ResolveCategories(body, tags), tags.summary, rawText, hash)
  }

  /** The outcome of everything the route does before its first write. */
  datatype Admission = Rejected(response: Response) | Admitted(row: SourceRow)

  /**
   * The route up to the source insert: a missing or `null` body is a 500
   * (its properties cannot be read, outside the `try`); then validation and
   * deduplication, then the steps that do not look at the store.
   */
  function Admit(svc: Services, body: Option<Json>, sources: map<nat, SourceRow>): Admission {
    if body.None? || body.value.JNull? then Rejected(Failed(ServerError, None))
    else
      var b := body.value;
      var kind := Kind(b);
      if Invalid(b, kind) then Rejected(Failed(BadRequest, None))
      else match Duplicate(svc, b, kind, sources)
        case Some(response) => Rejected(response)
        case None => Prepare(svc, b, kind)
  }

  /**
   * Extraction, the length check and tagging. They can fail only with a 500
   * or, for a text shorter than 100 characters, a 422; an admitted row holds
   * at least 100 characters.
   */
  function Prepare(svc: Services, body: Json, kind: Json): (r: Admission)
    requires !body.JNull?
    ensures r.Rejected? ==> r.response == Failed(ServerError, None) || r.response == Failed(TooShort, None)
    ensures r.Admitted? ==> |r.row.rawText| >= MinTextLength
  {
    match ExtractText(svc, body, kind)
    case None => Rejected(Failed(ServerError, None))
    case Some(rawText) =>
      if |rawText| < MinTextLength then Rejected(Failed(TooShort, None))
      else match AutoTag(svc.tagger, rawText)
        case None => Rejected(Failed(ServerError, None))
        case Some(tags) => Admitted(NewSource(svc, body, kind, rawText, tags))
  }

  /** Validation looks at the body alone: an invalid request is a 400 whatever the store holds. */
  lemma ValidationFirst(svc: Services, body: Json, s1: map<nat, SourceRow>, s2: map<nat, SourceRow>)
    requires !body.JNull? && Invalid(body, Kind(body))
    ensures Admit(svc, Some(body), s1) == Admit(svc, Some(body), s2) == Rejected(Failed(BadRequest, None))
  {
  }

  /**
   * A 409 names a row that holds the same URL (for `url` and `youtube`) or
   * the same content hash (for `text`), and it is the only such row.
   */
  lemma ConflictNamesTheDuplicate(svc: Services, body: Json, sources: map<nat, SourceRow>, id: nat)
    requires !body.JNull?
    requires Admit(svc, Some(body), sources) == Rejected(Failed(Conflict, Some(id)))
    ensures id in sources
    ensures FetchesUrl(Kind(body)) ==> UrlMatches(sources, Get(body, "url")) == {id}
    ensures Kind(body) == JStr("text") ==>
              Get(body, "text").JStr? && HashMatches(sources, HashText(svc.sha256, Get(body, "text").s)) == {id}
  {
    var kind := Kind(body);
    assert !Invalid(body, kind);
    assert Duplicate(svc, body, kind, sources) == Some(Failed(Conflict, Some(id)));
  }

  /** A row stored under a fresh id joins the matches of its own URL and hash, and of nothing else. */
  lemma MatchesInsert(sources: map<nat, SourceRow>, id: nat, row: SourceRow)
    requires id !in sources
    ensures forall url :: UrlMatches(sources[id := row], url) ==
              UrlMatches(sources, url) + (if row.url == url then {id} else {})
    ensures forall hash :: HashMatches(sources[id := row], hash) ==
              HashMatches(sources, hash) + (if row.contentHash == Some(hash) then {id} else {})
  {
  }

  /**
   * A text is refused as a duplicate when a stored text agrees with it on
   * its first 5000 characters, even if the rest differs: the second of two
   * such texts is answered with 409 and the first one's id.
   */
  lemma SamePrefixRejected(svc: Services, sources: map<nat, SourceRow>, id: nat, row: SourceRow, body: Json)
    requires id !in sources
    requires body.JObj? && Kind(body) == JStr("text") && !Invalid(body, JStr("text"))
    requires Get(body, "text").JStr?
    requires row.contentHash.Some?
    requires HashMatches(sources, row.contentHash.value) == {}
    requires exists stored :: row.contentHash == Some(HashText(svc.sha256, stored))
                              && Prefix(stored, HashedLength) == Prefix(Get(body, "text").s, HashedLength)
    ensures Admit(svc, Some(body), sources[id := row]) == Rejected(Failed(Conflict, Some(id)))
  {
    var stored :| row.contentHash == Some(HashText(svc.sha256, stored))
                  && Prefix(stored, HashedLength) == Prefix(Get(body, "text").s, HashedLength);
    HashPrefixOnly(svc.sha256, stored, Get(body, "text").s);
    MatchesInsert(sources, id, row);
  }

  /**
   * The same for URLs: once a row holds a URL, and no other row does, the
   * next request for that URL is answered with 409 and that row's id.
   */
  lemma SameUrlRejected(svc: Services, sources: map<nat, SourceRow>, id: nat, row: SourceRow, body: Json)
    requires id !in sources
    requires body.JObj? && FetchesUrl(Kind(body)) && Truthy(Get(body, "url"))
    requires row.url == Get(body, "url")
    requires UrlMatches(sources, row.url) == {}
    ensures Admit(svc, Some(body), sources[id := row]) == Rejected(Failed(Conflict, Some(id)))
  {
    MatchesInsert(sources, id, row);
  }

  /**
   * An admitted request carries at least 100 characters of text and the
   * tagger's summary; the caller's categories win when they form a non-empty
   * array; a text keeps the caller's title, which validation made non-empty,
   * while other kinds fall back to the tagger's title; and the row stores a
   * content hash exactly when it is a `text` source, the hash of the given
   * text.
   */
  lemma AdmittedRow(svc: Services, body: Json, sources: map<nat, SourceRow>)
    requires !body.JNull? && Admit(svc, Some(body), sources).Admitted?
    ensures var row := Admit(svc, Some(body), sources).row;
            && |row.rawText| >= MinTextLength
            && row.kind == Kind(body)
            && AutoTag(svc.tagger, row.rawText).Some?
            && row.summary == AutoTag(svc.tagger, row.rawText).value.summary
            && (Get(body, "categories").JArr? && |Get(body, "categories").items| > 0 ==>
                  row.categories == Get(body, "categories").items)
            && (!(Get(body, "categories").JArr? && |Get(body, "categories").items| > 0) ==>
                  row.categories == AutoTag(svc.tagger, row.rawText).value.categories)
            && (row.kind == JStr("text") ==> row.title == Get(body, "title") && Truthy(row.title))
            && (row.kind != JStr("text") && Truthy(Get(body, "title")) ==> row.title == Get(body, "title"))
            && (row.kind != JStr("text") && !Truthy(Get(body, "title")) ==>
                  row.title == AutoTag(svc.tagger, row.rawText).value.title)
            && row.url == Or(Get(body, "url"), JNull) && row.author == Or(Get(body, "author"), JNull)
            && (row.contentHash.Some? <==> row.kind == JStr("text"))
            && (row.kind == JStr("text") ==>
                  Get(body, "text") == JStr(row.rawText)
                  && row.contentHash == Some(HashText(svc.sha256, row.rawText)))
  {
    var kind := Kind(body);
    assert !Invalid(body, kind);
    assert Duplicate(svc, body, kind, sources).None?;
    assert Admit(svc, Some(body), sources) == Prepare(svc, body, kind);
    var rawText := ExtractText(svc, body, kind).value;
    var tags := AutoTag(svc.tagger, rawText).value;
    assert Admit(svc, Some(body), sources).row == NewSource(svc, body, kind, rawText, tags);
    if kind == JStr("text") {
      assert Get(body, "text").JStr?;
      assert rawText == Get(body, "text").s;
    }
  }

  /** A text shorter than 100 characters is refused with 422, after the duplicate check. */
  lemma ShortTextRejected(svc: Services, body: Json, sources: map<nat, SourceRow>)
    requires !body.JNull? && !Invalid(body, Kind(body))
    requires Duplicate(svc, body, Kind(body), sources).None?
    requires ExtractText(svc, body, Kind(body)).Some?
    ensures |ExtractText(svc, body, Kind(body)).value| < MinTextLength <==>
              Admit(svc, Some(body), sources) == Rejected(Failed(TooShort, None))
  {
  }

  // ---------------------------------------------------------------------------
  // Batched chunk rows
  // ---------------------------------------------------------------------------

  /** `batch.map((content, j) => ...)`: row `j` of the batch starting at `i` gets index `i + j`. */
  function BatchRows(id: nat, batch: seq<string>, i: nat, vectors: seq<Vector>): seq<ChunkRow> {
    seq(|batch|, j requires 0 <= j < |batch| =>
      ChunkRow(id, batch[j], i + j, if j < |vectors| then Some(vectors[j]) else None))
  }

  /** The batch that starts at `i`. */
  function BatchAt(chunks: seq<string>, i: nat): (batch: seq<string>)
    requires i < |chunks|
    ensures 0 < |batch| <= BatchSize
  {
    chunks[i..Min(i + BatchSize, |chunks|)]
  }

  /** What the batch loop leaves behind: the rows written, the count reported, whether it ran to the end, and the texts sent to each embedding call. */
  datatype BatchRun = BatchRun(rows: seq<ChunkRow>, inserted: nat, ok: bool, calls: seq<seq<string>>)

  /** The batch loop from batch start `i` on; the first failing embedding call or insert ends it. */
  function RunBatches(svc: Services, id: nat, chunks: seq<string>, i: nat): BatchRun
    decreases |chunks| - i
  {
    if i >= |chunks| then BatchRun([], 0, true, [])
    else
      var batch := BatchAt(chunks, i);
      match svc.embed(batch)
      case None => BatchRun([], 0, false, [batch])
      case Some(vectors) =>
        var rows := BatchRows(id, batch, i, vectors);
        if svc.chunkInsertFails(rows) then BatchRun([], 0, false, [batch])
        else
          var rest := RunBatches(svc, id, chunks, i + BatchSize);
          BatchRun(rows + rest.rows, |batch| + rest.inserted, rest.ok, [batch] + rest.calls)
  }

  /** The batches `chunks` is cut into from index `i` on. */
  function Batches(chunks: seq<string>, i: nat): seq<seq<string>>
    decreases |chunks| - i
  {
    if i >= |chunks| then [] else [BatchAt(chunks, i)] + Batches(chunks, i + BatchSize)
  }

  /** Concatenation of a sequence of batches. */
  function Flatten(batches: seq<seq<string>>): seq<string> {
    if batches == [] then [] else batches[0] + Flatten(batches[1..])
  }

  /**
   * The chunks from `i` on fall into ceil((n - i) / 20) batches of at most 20,
   * which, put back together, are exactly those chunks.
   */
  lemma {:induction false} BatchesPartition(chunks: seq<string>, i: nat)
    requires i <= |chunks|
    ensures |Batches(chunks, i)| == (|chunks| - i + BatchSize - 1) / BatchSize
    ensures Flatten(Batches(chunks, i)) == chunks[i..]
    ensures forall k :: 0 <= k < |Batches(chunks, i)| ==> 0 < |Batches(chunks, i)[k]| <= BatchSize
    decreases |chunks| - i
  {
    if i < |chunks| {
      var next := i + BatchSize;
      if next <= |chunks| {
        BatchesPartition(chunks, next);
        assert chunks[i..] == chunks[i..next] + chunks[next..];
      } else {
        assert Batches(chunks, next) == [];
      }
    }
  }

  /**
   * The rows written from batch start `i` on are one per chunk, in chunk
   * order, each with its chunk's text, the source's id and the chunk's own
   * index; the count reported is the number of rows. When every call
   * succeeds all the chunks are written and one embedding call was made per
   * batch; when one fails, whole batches were written up to it.
   */
  lemma {:induction false} RunBatchesRows(svc: Services, id: nat, chunks: seq<string>, i: nat)
    requires i <= |chunks|
    ensures var run := RunBatches(svc, id, chunks, i);
            && |run.rows| == run.inserted <= |chunks| - i
            && (forall k :: 0 <= k < |run.rows| ==>
                  run.rows[k].sourceId == id && run.rows[k].chunkIndex == i + k && run.rows[k].content == chunks[i + k])
            && (run.ok ==> |run.rows| == |chunks| - i && run.calls == Batches(chunks, i))
            && (!run.ok ==> |run.rows| % BatchSize == 0 && |run.rows| < |chunks| - i)
    decreases |chunks| - i
  {
    if i < |chunks| {
      var batch := BatchAt(chunks, i);
      var run := RunBatches(svc, id, chunks, i);
      var next := i + BatchSize;
      if svc.embed(batch).Some? && !svc.chunkInsertFails(BatchRows(id, batch, i, svc.embed(batch).value)) {
        var rows := BatchRows(id, batch, i, svc.embed(batch).value);
        var rest := RunBatches(svc, id, chunks, next);
        assert run == BatchRun(rows + rest.rows, |batch| + rest.inserted, rest.ok, [batch] + rest.calls);
        if next <= |chunks| {
          RunBatchesRows(svc, id, chunks, next);
          assert |batch| == BatchSize;
        } else {
          assert rest == BatchRun([], 0, true, []);
          assert Batches(chunks, next) == [];
        }
        forall k | 0 <= k < |run.rows|
          ensures run.rows[k].sourceId == id && run.rows[k].chunkIndex == i + k && run.rows[k].content == chunks[i + k]
        {
          if k >= |rows| {
            assert run.rows[k] == rest.rows[k - |rows|];
          }
        }
      }
    }
  }

  /** On success every chunk 0..n-1 has exactly one row, carrying its index, and the count is n. */
  lemma AllChunksStored(svc: Services, id: nat, chunks: seq<string>)
    requires RunBatches(svc, id, chunks, 0).ok
    ensures var run := RunBatches(svc, id, chunks, 0);
            && run.inserted == |chunks| && |run.rows| == |chunks|
            && (forall k :: 0 <= k < |chunks| ==> run.rows[k].chunkIndex == k && run.rows[k].content == chunks[k])
            && |run.calls| == (|chunks| + BatchSize - 1) / BatchSize
  {
    RunBatchesRows(svc, id, chunks, 0);
    BatchesPartition(chunks, 0);
  }

  /**
   * The loop's invariant: the rows written and the count so far, followed by
   * what the batches from `i` on produce, make up the whole run.
   */
  predicate Resumes(svc: Services, id: nat, chunks: seq<string>, i: nat,
                    written: seq<ChunkRow>, inserted: nat, all: BatchRun)
  {
    var rest := RunBatches(svc, id, chunks, i);
    written + rest.rows == all.rows && inserted + rest.inserted == all.inserted && rest.ok == all.ok
  }

  /** A failing embedding call or insert ends the run where it stands. */
  lemma BatchStop(svc: Services, id: nat, chunks: seq<string>, i: nat, batch: seq<string>,
                  written: seq<ChunkRow>, inserted: nat, all: BatchRun)
    requires i < |chunks| && batch == BatchAt(chunks, i)
    requires svc.embed(batch).None? || svc.chunkInsertFails(BatchRows(id, batch, i, svc.embed(batch).value))
    requires Resumes(svc, id, chunks, i, written, inserted, all)
    ensures written == all.rows && inserted == all.inserted && !all.ok
  {
    assert RunBatches(svc, id, chunks, i) == BatchRun([], 0, false, [batch]);
  }

  /** A batch that is embedded and inserted moves the invariant on to the next batch start. */
  lemma BatchStep(svc: Services, id: nat, chunks: seq<string>, i: nat, next: nat, batch: seq<string>, rows: seq<ChunkRow>,
                  written: seq<ChunkRow>, inserted: nat, all: BatchRun)
    requires i < |chunks| && batch == BatchAt(chunks, i) && next == i + BatchSize
    requires svc.embed(batch).Some? && rows == BatchRows(id, batch, i, svc.embed(batch).value)
    requires !svc.chunkInsertFails(rows)
    requires Resumes(svc, id, chunks, i, written, inserted, all)
    ensures Resumes(svc, id, chunks, next, written + rows, inserted + |batch|, all)
  {
    var rest := RunBatches(svc, id, chunks, next);
    assert RunBatches(svc, id, chunks, i) == BatchRun(rows + rest.rows, |batch| + rest.inserted, rest.ok, [batch] + rest.calls);
    assert written + (rows + rest.rows) == (written + rows) + rest.rows;
  }

  /** Past the last chunk nothing is left to run. */
  lemma BatchEnd(svc: Services, id: nat, chunks: seq<string>, i: nat,
                 written: seq<ChunkRow>, inserted: nat, all: BatchRun)
    requires i >= |chunks|
    requires Resumes(svc, id, chunks, i, written, inserted, all)
    ensures written == all.rows && inserted == all.inserted && all.ok
  {
    assert RunBatches(svc, id, chunks, i) == BatchRun([], 0, true, []);
  }

  // ---------------------------------------------------------------------------
  // The whole route
  // ---------------------------------------------------------------------------

  /** The `sources` and `chunks` tables; `nextId` is the id the next source row receives. */
  datatype Tables = Tables(sources: map<nat, SourceRow>, chunks: seq<ChunkRow>, nextId: nat)

  /** Ids are below `nextId`, and every chunk row belongs to a stored source. */
  predicate Consistent(t: Tables) {
    && (forall id :: id in t.sources ==> id < t.nextId)
    && (forall k :: 0 <= k < |t.chunks| ==> t.chunks[k].sourceId in t.sources)
  }

  /**
   * What the route writes once a request is admitted: the source insert, and
   * when it succeeds the row takes the next id and the chunk rows of its text
   * follow, batch by batch, up to the first failing batch.
   */
  function Write(svc: Services, row: SourceRow, t: Tables): (Response, Tables) {
    if svc.sourceInsertFails(row) then (Failed(ServerError, None), t)
    else Commit(row, t, RunBatches(svc, t.nextId, Chunks(row.rawText), 0))
  }

  /** The answer and the tables once the source row is inserted and the batch loop has run. */
  function Commit(row: SourceRow, t: Tables, run: BatchRun): (Response, Tables) {
    var response := if run.ok then Ingested(t.nextId, run.inserted, row.categories, row.title, row.summary)
                    else Failed(ServerError, None);
    (response, Tables(t.sources[t.nextId := row], t.chunks + run.rows, t.nextId + 1))
  }

  /** The parts of `Commit`: the tables it leaves and the answer for a run that did or did not finish. */
  lemma CommitParts(row: SourceRow, t: Tables, run: BatchRun)
    ensures Commit(row, t, run).1 == Tables(t.sources[t.nextId := row], t.chunks + run.rows, t.nextId + 1)
    ensures run.ok ==> Commit(row, t, run).0 == Ingested(t.nextId, run.inserted, row.categories, row.title, row.summary)
    ensures !run.ok ==> Commit(row, t, run).0 == Failed(ServerError, None)
  {
  }

  /** One request to the route: its answer and the tables afterwards. Nothing is written unless the request is admitted. */
  function Route(svc: Services, body: Option<Json>, t: Tables): (Response, Tables) {
    match Admit(svc, body, t.sources)
    case Rejected(response) => (response, t)
    case Admitted(row) => Write(svc, row, t)
  }

  /** `Write` with the batch run named. */
  lemma WriteUnfold(svc: Services, row: SourceRow, t: Tables, texts: seq<string>, run: BatchRun)
    requires !svc.sourceInsertFails(row)
    requires texts == Chunks(row.rawText) && run == RunBatches(svc, t.nextId, texts, 0)
    ensures Write(svc, row, t) == Commit(row, t, run)
  {
  }

  /** An admitted request is written. */
  lemma RouteWrites(svc: Services, body: Option<Json>, t: Tables, row: SourceRow)
    requires Admit(svc, body, t.sources) == Admitted(row)
    ensures Route(svc, body, t) == Write(svc, row, t)
  {
  }

  /** A source whose insert succeeds is stored with the chunks of its text (see `StoresSource`). */
  lemma WriteStoresChunks(svc: Services, row: SourceRow, t: Tables)
    requires !svc.sourceInsertFails(row)
    ensures StoresSource(row, t, Chunks(row.rawText), Write(svc, row, t).0, Write(svc, row, t).1)
  {
    var texts := Chunks(row.rawText);
    var run := RunBatches(svc, t.nextId, texts, 0);
    WriteUnfold(svc, row, t, texts, run);
    CommitStores(svc, row, t, texts);
  }

  /**
   * The answer and tables `t'` after storing `row` with chunks `texts` on
   * top of `t`: the row takes the next id; the chunk rows appended after the
   * existing ones are a prefix of the chunks, in order, each carrying the
   * new id and its own index; the answer is a success reporting the id and
   * the number of chunks exactly when all of them were written, and a 500
   * otherwise.
   */
  predicate StoresSource(row: SourceRow, t: Tables, texts: seq<string>, response: Response, t': Tables) {
    && t'.sources == t.sources[t.nextId := row]
    && t'.nextId == t.nextId + 1
    && t.chunks <= t'.chunks
    && |t'.chunks| - |t.chunks| <= |texts|
    && (forall k :: |t.chunks| <= k < |t'.chunks| ==>
          && t'.chunks[k].sourceId == t.nextId
          && t'.chunks[k].chunkIndex == k - |t.chunks|
          && t'.chunks[k].content == texts[k - |t.chunks|])
    && (response.Ingested? <==> |t'.chunks| == |t.chunks| + |texts|)
    && (response.Ingested? ==> response == Ingested(t.nextId, |texts|, row.categories, row.title, row.summary))
    && (response.Failed? ==> response == Failed(ServerError, None))
  }

  /** What `Commit` leaves after the batch loop over `texts`. */
  lemma CommitStores(svc: Services, row: SourceRow, t: Tables, texts: seq<string>)
    ensures var run := RunBatches(svc, t.nextId, texts, 0);
            StoresSource(row, t, texts, Commit(row, t, run).0, Commit(row, t, run).1)
  {
    var run := RunBatches(svc, t.nextId, texts, 0);
    RunBatchesRows(svc, t.nextId, texts, 0);
    CommitParts(row, t, run);
    var chunks' := t.chunks + run.rows;
    forall k | |t.chunks| <= k < |chunks'|
      ensures chunks'[k] == run.rows[k - |t.chunks|]
    {
    }
  }

  /**
   * The route keeps the tables consistent, and it only ever adds: no source
   * row is changed or removed and the earlier chunk rows stay as they were.
   */
  lemma WritePreservesConsistency(svc: Services, row: SourceRow, t: Tables)
    requires Consistent(t)
    ensures var t' := Write(svc, row, t).1;
            && Consistent(t')
            && (forall id :: id in t.sources ==> id in t'.sources && t'.sources[id] == t.sources[id])
            && t.chunks <= t'.chunks
  {
    if !svc.sourceInsertFails(row) {
      WriteStoresChunks(svc, row, t);
      var t' := Write(svc, row, t).1;
      forall k | 0 <= k < |t'.chunks| ensures t'.chunks[k].sourceId in t'.sources {
        if k < |t.chunks| {
          assert t'.chunks[k] == t.chunks[k];
        }
      }
    }
  }

  /** The same for the whole route. */
  lemma RoutePreservesConsistency(svc: Services, body: Option<Json>, t: Tables)
    requires Consistent(t)
    ensures var t' := Route(svc, body, t).1;
            && Consistent(t')
            && (forall id :: id in t.sources ==> id in t'.sources && t'.sources[id] == t.sources[id])
            && t.chunks <= t'.chunks
  {
    var a := Admit(svc, body, t.sources);
    if a.Admitted? {
      WritePreservesConsistency(svc, a.row, t);
      assert Route(svc, body, t) == Write(svc, a.row, t);
    }
  }

  /**
   * A request refused by validation, deduplication, extraction, the length
   * check or tagging writes nothing, and neither does a failed source insert.
   */
  lemma RefusedWritesNothing(svc: Services, body: Option<Json>, t: Tables)
    requires Admit(svc, body, t.sources).Rejected? || svc.sourceInsertFails(Admit(svc, body, t.sources).row)
    ensures Route(svc, body, t).1 == t
    ensures Route(svc, body, t).0.Failed?
  {
  }

  /**
   * Two pasted texts that agree on their first 5000 characters: once the
   * first is stored, and no earlier row had its hash, the second is
   * answered with 409 and the first one's id, and nothing is written.
   */
  lemma SecondTextRejected(svc: Services, first: Json, second: Json, t: Tables)
    requires Consistent(t)
    requires !first.JNull? && Kind(first) == JStr("text")
    requires Admit(svc, Some(first), t.sources).Admitted?
    requires !svc.sourceInsertFails(Admit(svc, Some(first), t.sources).row)
    requires HashMatches(t.sources, Admit(svc, Some(first), t.sources).row.contentHash.value) == {}
    requires second.JObj? && Kind(second) == JStr("text") && !Invalid(second, JStr("text"))
    requires Get(second, "text").JStr?
    requires Get(first, "text").JStr? && Prefix(Get(first, "text").s, HashedLength) == Prefix(Get(second, "text").s, HashedLength)
    ensures var t1 := Route(svc, Some(first), t).1;
            Route(svc, Some(second), t1) == (Failed(Conflict, Some(t.nextId)), t1)
  {
    var row := Admit(svc, Some(first), t.sources).row;
    AdmittedRow(svc, first, t.sources);
    assert t.nextId !in t.sources;
    assert Route(svc, Some(first), t) == Write(svc, row, t);
    WriteStoresChunks(svc, row, t);
    var t1 := Route(svc, Some(first), t).1;
    assert t1.sources == t.sources[t.nextId := row];
    assert row.contentHash == Some(HashText(svc.sha256, row.rawText));
    assert Prefix(row.rawText, HashedLength) == Prefix(Get(second, "text").s, HashedLength);
    SamePrefixRejected(svc, t.sources, t.nextId, row, second);
    assert Admit(svc, Some(second), t1.sources) == Rejected(Failed(Conflict, Some(t.nextId)));
  }

  /** The store the route works on. */
  class Store {
    var sources: map<nat, SourceRow>
    var chunks: seq<ChunkRow>
    var nextId: nat

    function Snapshot(): Tables
      reads this
    {
      Tables(sources, chunks, nextId)
    }

    constructor ()
      ensures Consistent(Snapshot()) && Snapshot() == Tables(map[], [], 0)
    {
      sources := map[];
      chunks := [];
      nextId := 0;
    }

    /**
     * The loop over batches of 20: embed, build the rows, insert them and
     * count them, stopping at the first error (rows already inserted stay).
     */
    method StoreBatches(svc: Services, id: nat, texts: seq<string>) returns (inserted: nat, ok: bool)
      modifies this
      ensures var run := RunBatches(svc, id, texts, 0);
              chunks == old(chunks) + run.rows && inserted == run.inserted && ok == run.ok
      ensures sources == old(sources) && nextId == old(nextId)
    {
      ghost var all := RunBatches(svc, id, texts, 0);
      ghost var written: seq<ChunkRow> := [];
      var i: nat := 0;
      inserted := 0;
      while i < |texts|
        invariant chunks == old(chunks) + written
        invariant sources == old(sources) && nextId == old(nextId)
        invariant Resumes(svc, id, texts, i, written, inserted, all)
        decreases |texts| - i
      {
        var batch := texts[i..Min(i + BatchSize, |texts|)];
        var embeddings := svc.embed(batch);
        if embeddings.None? {
          BatchStop(svc, id, texts, i, batch, written, inserted, all);
          return inserted, false;
        }
        var rows := BatchRows(id, batch, i, embeddings.value);
        if svc.chunkInsertFails(rows) {
          BatchStop(svc, id, texts, i, batch, written, inserted, all);
          return inserted, false;
        }
        var next := i + BatchSize;
        BatchStep(svc, id, texts, i, next, batch, rows, written, inserted, all);
        chunks := chunks + rows;
        written := written + rows;
        inserted := inserted + |batch|;
        i := next;
      }
      BatchEnd(svc, id, texts, i, written, inserted, all);
      return inserted, true;
    }

    /** `POST /api/ingest` for a parsed body (`None` when the body is not JSON). */
    method Ingest(svc: Services, body: Option<Json>) returns (response: Response)
      modifies this
      ensures response == Route(svc, body, old(Snapshot())).0
      ensures Snapshot() == Route(svc, body, old(Snapshot())).1
    {
      ghost var before := Snapshot();
      var admission := Screen(svc, body);
      if admission.Rejected? {
        assert Route(svc, body, before) == (admission.response, before);
        assert Snapshot() == before;
        return admission.response;
      }
      RouteWrites(svc, body, before, admission.row);
      response := WriteSource(svc, admission.row);
    }

    /**
     * The route's steps from the source insert on: the row takes the next
     * id, then the chunks are embedded and inserted batch by batch.
     */
    method WriteSource(svc: Services, row: SourceRow) returns (response: Response)
      modifies this
      ensures response == Write(svc, row, old(Snapshot())).0
      ensures Snapshot() == Write(svc, row, old(Snapshot())).1
    {
      ghost var before := Snapshot();
      if svc.sourceInsertFails(row) {
        return Failed(ServerError, None);
      }
      var id := nextId;
      sources := sources[id := row];
      nextId := nextId + 1;
      var texts := ChunkText(row.rawText);
      var inserted, ok := StoreBatches(svc, id, texts);
      ghost var run := RunBatches(svc, id, texts, 0);
      WriteUnfold(svc, row, before, texts, run);
      CommitParts(row, before, run);
      assert Snapshot() == Tables(before.sources[before.nextId := row], before.chunks + run.rows, before.nextId + 1);
      if !ok {
        return Failed(ServerError, None);
      }
      return Ingested(id, inserted, row.categories, row.title, row.summary);
    }

    /**
     * The route's steps up to the source insert, in order, each returning
     * early on failure: reading the body, validation, the duplicate query,
     * extraction, the length check and tagging. Nothing is written.
     */
    method Screen(svc: Services, body: Option<Json>) returns (admission: Admission)
      ensures admission == Admit(svc, body, sources)
    {
      if body.None? || body.value.JNull? {
        return Rejected(Failed(ServerError, None));
      }
      var b := body.value;
      var kind := Kind(b);
      if Invalid(b, kind) {
        return Rejected(Failed(BadRequest, None));
      }
      var duplicate := Duplicate(svc, b, kind, sources);
      if duplicate.Some? {
        return Rejected(duplicate.value);
      }
      var rawText := ExtractText(svc, b, kind);
      if rawText.None? {
        return Rejected(Failed(ServerError, None));
      }
      if |rawText.value| < MinTextLength {
        return Rejected(Failed(TooShort, None));
      }
      var tags := AutoTag(svc.tagger, rawText.value);
      if tags.None? {
        return Rejected(Failed(ServerError, None));
      }
      return Admitted(NewSource(svc, b, kind, rawText.value, tags.value));
    }
  }
}
