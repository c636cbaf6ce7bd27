/**
 * `getRelevantContext` (app/api/chat/route.ts): embed the query, run the
 * vector search, look up the sources of the matched chunks and assemble one
 * attributed block per chunk. The embedding request, the search and the
 * source lookup are parameters; every failure yields `null`.
 */
module Retrieval {
  import opened Wrappers
  import opened Text

  type Vector = seq<real>

  /**
   * The embedding request: `Failed` for a response that is not ok or a call
   * that throws, otherwise `data?.[0]?.embedding` of its body (`None` when
   * that is missing or `null`).
   */
  datatype EmbedReply = EmbedFailed | EmbedBody(embedding: Option<Vector>)

  /** A row of the `match_chunks` search: the chunk's source id and its text. */
  datatype Match = Match(sourceId: string, content: string)

  /** The search: `SearchFailed` when it reports an error or no data, otherwise the rows in the order returned. */
  datatype SearchReply = SearchFailed | Matches(rows: seq<Match>)

  /** A row of the `sources` lookup; the nullable columns are options. */
  datatype SourceInfo = SourceInfo(id: string, title: Option<string>, author: Option<string>, url: Option<string>)

  /**
   * The three outside calls: the embedding request, the vector search (its
   * threshold and count are fixed arguments of the call) and the lookup of
   * the sources by id (`None` when it yields no data).
   */
  datatype RetrievalServices = RetrievalServices(
    embed: string -> EmbedReply,
    search: Vector -> SearchReply,
    lookup: seq<string> -> Option<seq<SourceInfo>>)

  /** What separates two blocks of context. */
  const Separator: string := "\n\n---\n\n"

  // ---------------------------------------------------------------------------
  // Source ids and the source map
  // ---------------------------------------------------------------------------

  /** The source id of every matched chunk, in order. */
  function SourceIds(rows: seq<Match>): (ids: seq<string>)
    ensures |ids| == |rows|
    ensures forall k :: 0 <= k < |rows| ==> ids[k] == rows[k].sourceId
  {
    seq(|rows|, k requires 0 <= k < |rows| => rows[k].sourceId)
  }

  /** `[...new Set(ids)]` once the ids in `seen` are already in the set: first occurrences, in order. */
  function UniqueFrom(ids: seq<string>, seen: set<string>): seq<string> {
    if ids == [] then []
    else if ids[0] in seen then UniqueFrom(ids[1..], seen)
    else [ids[0]] + UniqueFrom(ids[1..], seen + {ids[0]})
  }

  /** `[...new Set(ids)]`. */
  function Unique(ids: seq<string>): seq<string> {
    UniqueFrom(ids, {})
  }

  /** No element occurs twice. */
  predicate Distinct(s: seq<string>) {
    forall i, j :: 0 <= i < j < |s| ==> s[i] != s[j]
  }

  lemma {:induction false} UniqueFromSpec(ids: seq<string>, seen: set<string>)
    ensures forall x :: x in UniqueFrom(ids, seen) <==> x in ids && x !in seen
    ensures Distinct(UniqueFrom(ids, seen))
  {
    if ids != [] {
      var rest := ids[1..];
      assert ids == [ids[0]] + rest;
      assert forall x :: x in ids <==> x == ids[0] || x in rest;
      if ids[0] in seen {
        UniqueFromSpec(rest, seen);
        assert UniqueFrom(ids, seen) == UniqueFrom(rest, seen);
      } else {
        var seen' := seen + {ids[0]};
        UniqueFromSpec(rest, seen');
        var tail := UniqueFrom(rest, seen');
        var r := [ids[0]] + tail;
        assert UniqueFrom(ids, seen) == r;
        assert forall x :: x in r <==> x == ids[0] || x in tail;
        forall i, j | 0 <= i < j < |r| ensures r[i] != r[j] {
          assert r[j] == tail[j - 1] && tail[j - 1] in tail;
          assert r[j] !in seen';
          if i > 0 {
            assert r[i] == tail[i - 1];
          }
        }
        assert Distinct(r);
      }
    }
  }

  /** The ids sent to the source lookup are the matched chunks' source ids, each once. */
  lemma UniqueSpec(ids: seq<string>)
    ensures forall x :: x in Unique(ids) <==> x in ids
    ensures Distinct(Unique(ids))
  {
    UniqueFromSpec(ids, {});
  }

  /** `new Map(sources.map(s => [s.id, s]))`: a later row with the same id replaces an earlier one. */
  function SourceMap(sources: seq<SourceInfo>): map<string, SourceInfo> {
    if sources == [] then map[]
    else SourceMap(sources[..|sources| - 1])[sources[|sources| - 1].id := sources[|sources| - 1]]
  }

  /** An id is in the map exactly when some row carries it. */
  lemma {:induction false} SourceMapKeys(sources: seq<SourceInfo>, id: string)
    ensures id in SourceMap(sources) <==> exists k :: 0 <= k < |sources| && sources[k].id == id
  {
    if sources != [] {
      var init := sources[..|sources| - 1];
      SourceMapKeys(init, id);
      assert forall k :: 0 <= k < |init| ==> init[k] == sources[k];
    }
  }

  /** An id in the map is mapped to the last row that carries it. */
  lemma {:induction false} SourceMapLast(sources: seq<SourceInfo>, id: string)
    requires id in SourceMap(sources)
    ensures exists k :: 0 <= k < |sources| && SourceMap(sources)[id] == sources[k]
              && sources[k].id == id && forall j :: k < j < |sources| ==> sources[j].id != id
  {
    var last := |sources| - 1;
    if sources[last].id != id {
      var init := sources[..last];
      assert SourceMap(sources) == SourceMap(init)[sources[last].id := sources[last]];
      SourceMapLast(init, id);
      var k :| 0 <= k < |init| && SourceMap(init)[id] == init[k]
               && init[k].id == id && forall j :: k < j < |init| ==> init[j].id != id;
      assert init[k] == sources[k];
      forall j | k < j < |sources| ensures sources[j].id != id {
        if j < last {
          assert sources[j] == init[j];
        }
      }
    }
  }

  /** The map build: one insertion per looked-up row, in order. */
  method BuildSourceMap(sources: seq<SourceInfo>) returns (sourceMap: map<string, SourceInfo>)
    ensures sourceMap == SourceMap(sources)
  {
    sourceMap := map[];
    for k := 0 to |sources|
      invariant sourceMap == SourceMap(sources[..k])
    {
      assert sources[..k + 1][..k] == sources[..k];
      sourceMap := sourceMap[sources[k].id := sources[k]];
    }
    assert sources[..|sources|] == sources;
  }

  // ---------------------------------------------------------------------------
  // Context assembly
  // ---------------------------------------------------------------------------

  /** A nullable column inside a template literal: `null` prints as "null". */
  function Shown(s: Option<string>): string {
    if s.Some? then s.value else "null"
  }

  /**
   * The attribution of a chunk: empty when its source was not found;
   * otherwise the quoted title, then the author and the URL, each only when
   * it is filled, in square brackets.
   */
  function Attribution(source: Option<SourceInfo>): string {
    match source
    case None => ""
    case Some(s) =>
      "[Source: \"" + Shown(s.title) + "\""
      + (if Filled(s.author) then " — " + s.author.value else "")
      + (if Filled(s.url) then " | URL: " + s.url.value else "")
      + "]"
  }

  /** `sourceMap.get(id)`. */
  function Lookup(sourceMap: map<string, SourceInfo>, id: string): Option<SourceInfo> {
    if id in sourceMap then Some(sourceMap[id]) else None
  }

  /** One block per chunk: its attribution, a line feed, then its text. */
  function Blocks(rows: seq<Match>, sourceMap: map<string, SourceInfo>): (blocks: seq<string>)
    ensures |blocks| == |rows|
  {
    seq(|rows|, k requires 0 <= k < |rows| =>
      Attribution(Lookup(sourceMap, rows[k].sourceId)) + "\n" + rows[k].content)
  }

  /** The assembled context: the blocks joined by the separator. */
  function Assemble(rows: seq<Match>, sources: seq<SourceInfo>): string {
    Join(Blocks(rows, SourceMap(sources)), Separator)
  }

  /** What `getRelevantContext(query)` resolves to, `None` standing for `null`. */
  function RelevantContext(svc: RetrievalServices, query: string): Option<string> {
    match svc.embed(query)
    case EmbedFailed => None
    case EmbedBody(embedding) =>
      if embedding.None? then None
      else match svc.search(embedding.value)
        case SearchFailed => None
        case Matches(rows) =>
          if rows == [] then None
          else Some(Assemble(rows, svc.lookup(Unique(SourceIds(rows))).GetOr([])))
  }

  /** `getRelevantContext`: the calls in order, returning `null` at the first that gives nothing. */
  method GetRelevantContext(svc: RetrievalServices, query: string) returns (context: Option<string>)
    ensures context == RelevantContext(svc, query)
  {
    var reply := svc.embed(query);
    if reply.EmbedFailed? {
      return None;
    }
    var embedding := reply.embedding;
    if embedding.None? {
      return None;
    }
    var found := svc.search(embedding.value);
    if found.SearchFailed? || found.rows == [] {
      return None;
    }
    var rows := found.rows;
    var sourceIds := Unique(SourceIds(rows));
    var sources := svc.lookup(sourceIds);
    var sourceMap := BuildSourceMap(sources.GetOr([]));
    return Some(Join(Blocks(rows, sourceMap), Separator));
  }

  // ---------------------------------------------------------------------------
  // Properties
  // ---------------------------------------------------------------------------

  /**
   * There is no context exactly when the embedding call fails, gives no
   * embedding, the search fails, or it matches no chunk.
   */
  lemma NoContextCases(svc: RetrievalServices, query: string)
    ensures RelevantContext(svc, query).None? <==>
              || svc.embed(query).EmbedFailed?
              || svc.embed(query).embedding.None?
              || svc.search(svc.embed(query).embedding.value).SearchFailed?
              || svc.search(svc.embed(query).embedding.value).rows == []
  {
  }

  /**
   * The attribution is empty exactly when the source is unknown. A known
   * source's attribution opens with its quoted title and closes with `]`;
   * it names the author and the URL only when they are filled.
   */
  lemma AttributionShape(source: Option<SourceInfo>)
    ensures Attribution(source) == "" <==> source.None?
    ensures source.Some? ==>
              var a := Attribution(source);
              var head := "[Source: \"" + Shown(source.value.title) + "\"";
              && head <= a
              && a[|a| - 1] == ']'
              && (!Filled(source.value.author) && !Filled(source.value.url) ==> a == head + "]")
              && (Filled(source.value.author) ==> head + " — " + source.value.author.value <= a)
              && (Filled(source.value.author) && Filled(source.value.url) ==>
                    a == head + " — " + source.value.author.value + " | URL: " + source.value.url.value + "]")
              && (Filled(source.value.author) && !Filled(source.value.url) ==>
                    a == head + " — " + source.value.author.value + "]")
              && (!Filled(source.value.author) && Filled(source.value.url) ==>
                    a == head + " | URL: " + source.value.url.value + "]")
  {
    if source.Some? {
      var s := source.value;
      var head := "[Source: \"" + Shown(s.title) + "\"";
      var author := if Filled(s.author) then " — " + s.author.value else "";
      var url := if Filled(s.url) then " | URL: " + s.url.value else "";
      assert Attribution(source) == head + author + url + "]";
      assert Attribution(source) == (head + author) + (url + "]");
    }
  }

  /**
   * A context holds one block per matched chunk, in retrieval order: block
   * `k` is the attribution of chunk `k`'s source (empty when the lookup did
   * not return it), a line feed and chunk `k`'s text; the blocks are joined
   * by the separator, so the context is as long as the blocks plus one
   * separator between each two.
   */
  lemma ContextBlocks(svc: RetrievalServices, query: string)
    requires RelevantContext(svc, query).Some?
    ensures var rows := svc.search(svc.embed(query).embedding.value).rows;
            var sources := svc.lookup(Unique(SourceIds(rows))).GetOr([]);
            var blocks := Blocks(rows, SourceMap(sources));
            && RelevantContext(svc, query).value == Join(blocks, Separator)
            && |blocks| == |rows| > 0
            && (forall k :: 0 <= k < |rows| ==>
                  blocks[k] == Attribution(Lookup(SourceMap(sources), rows[k].sourceId)) + "\n" + rows[k].content
                  && (Lookup(SourceMap(sources), rows[k].sourceId).None? <==>
                        forall j :: 0 <= j < |sources| ==> sources[j].id != rows[k].sourceId))
            && |RelevantContext(svc, query).value| == TotalLength(blocks) + (|rows| - 1) * |Separator|
  {
    var rows := svc.search(svc.embed(query).embedding.value).rows;
    var sources := svc.lookup(Unique(SourceIds(rows))).GetOr([]);
    var blocks := Blocks(rows, SourceMap(sources));
    JoinLength(blocks, Separator);
    forall k | 0 <= k < |rows|
      ensures Lookup(SourceMap(sources), rows[k].sourceId).None? <==>
                forall j :: 0 <= j < |sources| ==> sources[j].id != rows[k].sourceId
    {
      SourceMapKeys(sources, rows[k].sourceId);
    }
  }
}
