# Sidebar: ingestion, chunking and chat retrieval in Dafny

Sidebar is a Next.js app that answers leadership and management questions.
It draws on a curated library of articles, videos and pasted texts. This
project models the core of that app and proves properties of the model:

- **The chunker** (`lib/chunker.ts`). It collapses whitespace and trims,
  then slides a 1000-character window with a 200-character overlap. It cuts
  early at the last `". "` past the window's midpoint, and keeps the chunks
  longer than 50 characters. The module is `Chunker`; the JavaScript string
  built-ins it relies on (`trim`, `slice`, `lastIndexOf`, `join`) are in `Text`.
- **The category constants** (`lib/constants.ts`), module `Constants`.
- **The ingestion route** (`app/api/ingest/route.ts`):
  - validation, then deduplication by URL or by the SHA-256 of a text's first
    5000 characters;
  - extraction (page text, YouTube transcript, or the pasted text), the
    100-character minimum and automatic tagging;
  - the source insert, and the chunk rows embedded and inserted in batches
    of 20.

  The modules are `YouTube` (video-id extraction), `Tagging` (prompt and
  reply parsing), `Json` (the request body as a JavaScript value) and
  `Ingest`. `Ingest.Store` is the store the route mutates.
- **The chat route** (`app/api/chat/route.ts`):
  - the conversion of UI messages to core messages;
  - the choice of the retrieval query;
  - the context block built from matched chunks and their sources;
  - the system prompt;
  - the first-exchange test;
  - the `onFinish` persistence of the history and the generated title.

  The modules are `Retrieval` and `Chat`. `Chat.ConversationStore` is the
  conversations table `onFinish` writes to.

Every outside call is a parameter of the model, given as a record of
functions (`Ingest.Services`, `Tagging.TagServices`,
`Retrieval.RetrievalServices`, `Chat.FinishServices`). These are the hash, `fetch`, the
transcript library, the two language models, the embedding API, the
`match_chunks` search, the source lookup and the store's error reports. A
call that can fail returns an `Option`. Nothing about those services is
assumed beyond their types.

Facts about the code that a reader might not expect:

- **Retrieval is vector search only.** The chat route embeds the query and
  calls `match_chunks`; there is no keyword search.
- **A tagging failure is not swallowed.** The tagging model call sits
  outside `autoTag`'s `try`, so when it throws the route answers 500.
  Only a reply that cannot be parsed falls back to `["other"]`.
- **Deduplication hashes the raw text.** The hash covers the first 5000
  characters exactly as given, with no whitespace normalisation. So texts
  that differ only in spacing are not duplicates, and texts that agree on
  their first 5000 characters are (`Ingest.SamePrefixRejected`).
- **A duplicate is found only when exactly one row matches.** `.single()`
  yields a row only when exactly one row matches. When two or more rows
  match, the request is not treated as a duplicate (`Ingest.Single`).
- **Unknown `type` values are not rejected.** They pass validation, skip
  deduplication and are ingested with the given text.
- **The length filter is strict and applies only on the long path.** It
  keeps chunks longer than 50 characters. Text of at most 1000 characters
  after normalisation returns one chunk without the filter, so blank input
  gives `[""]` (`Chunker.BlankInput`).
- **The chunk count is not a fixed function of the length.** A sentence
  break moves a cut earlier, so a 2500-character text does not always give
  three chunks. The model proves bounds and coverage instead of a count.
- **A missing title prints as `null`.** A source whose title is `null`
  appears as `"null"` in the attribution (`Retrieval.Shown`).

## Model

| member | source | states |
|---|---|---|
| Text.Prefix | app/api/ingest/route.ts:12 | `slice(0, n)` has `min(n, length)` characters and is a prefix of the string |
| Text.LeadingSpaces | lib/chunker.ts:5 | the leading-whitespace count stays within the string and stops at a non-whitespace character |
| Text.LeadingSpacesAreSpaces | lib/chunker.ts:5 | every character counted as leading whitespace is whitespace |
| Text.TrailingSpaces | lib/chunker.ts:5 | the trailing-whitespace count stays within the string after the leading whitespace and stops at a non-whitespace character |
| Text.TrailingSpacesAreSpaces | lib/chunker.ts:5 | every character counted as trailing whitespace is whitespace |
| Text.TrimHi | lib/chunker.ts:5 | the end of the trimmed text lies between its start and the string's end |
| Text.TrimBounds | lib/chunker.ts:5 | `trim` removes only whitespace; what it keeps neither starts nor ends with whitespace |
| Text.TrimTrailingSpace | app/api/ingest/route.ts:108 | trimming ignores one more whitespace character at the end |
| Text.LastIndexOfPair | lib/chunker.ts:17 | `lastIndexOf(". ")` returns -1 or an index where the pair occurs |
| Text.LastIndexOfPairIsLast | lib/chunker.ts:17 | no occurrence starts after the returned index; -1 exactly when there is none |
| Text.LastIndexOfChar | lib/chunker.ts:18 | `lastIndexOf("\n")` returns the last index holding the character (none after it does), or -1 when it does not occur |
| Text.JoinAppend | app/api/chat/route.ts:80 | joining one more part appends the separator and that part |
| Text.JoinLength | app/api/chat/route.ts:80 | a join is as long as its parts plus one separator between each two |
| Text.JoinSeparatorCount | app/api/ingest/route.ts:91 | joining with a one-character separator absent from every part puts exactly one copy of it between each two parts |
| Text.TotalLengthZero | app/api/chat/route.ts:96-99 | parts add up to nothing exactly when every part is empty |
| Text.JoinConcat | app/api/chat/route.ts:96-99 | `join("")` distributes over concatenation of the part lists |
| Constants.CategoriesShape | lib/constants.ts:1-12 | ten category keys, none listed twice, the last being `other` |
| Constants.LabelsTotal | lib/constants.ts:16-27 | the labels are defined for exactly the category keys, and none is empty |
| Constants.LabelsNoLineFeed | lib/constants.ts:1-27 | no category key and no label holds a line feed |
| Json.Or | app/api/ingest/route.ts:127 | `a \|\| b` is one of its operands, truthy exactly when either operand is, and the left one whenever that is truthy |
| Json.Prop | app/api/ingest/route.ts:109-116 | reading a property throws exactly on `null`; a truthy result is always the object's own field under that key |
| Chunker.CollapseShape | lib/chunker.ts:5 | after `replace(/\s+/g, " ")` the only whitespace is single spaces, never two in a row; a non-empty text stays non-empty and starts with whitespace exactly when the input did |
| Chunker.TrimCollapsed | lib/chunker.ts:5 | trimming collapsed text removes at most one character at either end |
| Chunker.NormalizeShape | lib/chunker.ts:5 | the cleaned text has no leading or trailing whitespace, no whitespace but `' '`, no two spaces in a row, and no `'\n'` |
| Chunker.CollapseOfCollapsed | lib/chunker.ts:5 | collapsing collapsed text changes nothing |
| Chunker.NormalizeIdempotent | lib/chunker.ts:5 | cleaning is idempotent |
| Chunker.CollapseOfSpaces | lib/chunker.ts:5 | a non-empty all-whitespace run collapses to one space |
| Chunker.CollapseKeepsNonSpace | lib/chunker.ts:5 | a text with a non-whitespace character still has one after the collapse |
| Chunker.CollapseKeepsText | lib/chunker.ts:5 | collapsing keeps every non-whitespace character, in order |
| Chunker.TrimKeepsText | lib/chunker.ts:5 | trimming keeps every non-whitespace character, in order |
| Chunker.NormalizeKeepsText | lib/chunker.ts:5 | cleaning changes whitespace only: the other characters survive, in order |
| Chunker.NormalizeEmpty | lib/chunker.ts:5 | the cleaned text is empty exactly when the input is empty or all whitespace |
| Chunker.WindowEnd | lib/chunker.ts:12-22 | a window ends between 502 and 1000 characters after its start, so the next start moves forward by at least 302 |
| Chunker.Windows | lib/chunker.ts:11-27 | every window the loop visits starts inside the text and spans between 502 and 1000 characters |
| Chunker.KeepLong | lib/chunker.ts:29 | `filter(c => c.length > 50)` keeps a chunk if and only if it is longer than 50 characters, and adds none |
| Chunker.KeepLongSingle | lib/chunker.ts:29 | one chunk is kept exactly when it has more than 50 characters |
| Chunker.KeepLongAppend | lib/chunker.ts:29 | the filter keeps order and multiplicity: filtering `xs + ys` is filtering `xs`, then `ys` |
| Chunker.ChunkText | lib/chunker.ts:4-30 | the method computes `Chunks(text)`: the short path returns the cleaned text alone; the long path returns the loop's pieces, filtered |
| Chunker.SlideWindows | lib/chunker.ts:8-27 | the loop pushes the trimmed text of every window, in order |
| Chunker.FindWindowEnd | lib/chunker.ts:12-23 | the loop body computes the window end `WindowEnd` defines |
| Chunker.LoopPiecesAreWindowPieces | lib/chunker.ts:11-27 | what the loop pushes from a start on is exactly the trimmed text of each window visited from there |
| Chunker.NoNewlineBreak | lib/chunker.ts:18-19 | on cleaned text the newline search finds nothing, so only `". "` can move a cut |
| Chunker.SentenceBreak | lib/chunker.ts:14-23 | a window short of the end is cut just after its last `". "` when that starts past index 500, and otherwise keeps 1000 characters |
| Chunker.WindowsChain | lib/chunker.ts:11-27 | each next window starts exactly 200 characters before the previous one ends, and the last one ends at least 200 past the text |
| Chunker.WindowsCover | lib/chunker.ts:11-27 | the untrimmed windows cover every position of the text, with no gap |
| Chunker.EndWindows | lib/chunker.ts:11-27 | only the last two windows can reach the end; when both do, the last lies inside the one before it and repeats its tail |
| Chunker.InnerPieceKept | lib/chunker.ts:20-29 | a window that stops before the end keeps at least 500 characters after trimming, so the filter keeps it |
| Chunker.OnlyEndPiecesDropped | lib/chunker.ts:25-29 | every piece the filter drops comes from a window reaching the end of the text |
| Chunker.ChunkLengths | lib/chunker.ts:6-29 | every chunk has at most 1000 characters; on the long path every chunk has more than 50 |
| Chunker.ChunksAreSubstrings | lib/chunker.ts:5-29 | every chunk is a contiguous piece of the cleaned text |
| Chunker.BlankInput | lib/chunker.ts:5-6 | `chunkText` returns `[""]` exactly when the input is empty or all whitespace |
| YouTube.FirstMatchFrom | app/api/ingest/route.ts:17-20 | the regular-expression search finds the leftmost index where the marker is followed by eleven `[a-zA-Z0-9_-]` characters, or reports none |
| YouTube.ExtractYouTubeVideoId | app/api/ingest/route.ts:15-27 | the loop tries the patterns in order and returns the first match |
| YouTube.FirstPatternMatchNone | app/api/ingest/route.ts:22-26 | the search gives `null` exactly when no marker is followed by an id anywhere |
| YouTube.FirstPatternMatchSome | app/api/ingest/route.ts:22-26 | a found id is the eleven characters after the leftmost match of the first marker that matches at all |
| YouTube.VideoIdShape | app/api/ingest/route.ts:16-21 | an id has exactly eleven `[a-zA-Z0-9_-]` characters; `null` exactly when no pattern matches |
| YouTube.ShortLinkExample | app/api/ingest/route.ts:18 | `youtu.be/dQw4w9WgXcQ?t=42` yields `dQw4w9WgXcQ` |
| Tagging.CategoryLinesShape | app/api/ingest/route.ts:89-91 | when keys and labels hold no line feed, the joined list has one line per key (exactly one line feed fewer than keys); each line is `- key: ` followed by that key's label |
| Tagging.CategoryListLines | app/api/ingest/route.ts:89-91 | the prompt's category list has exactly ten lines, the i-th naming the i-th category key |
| Tagging.PromptShape | app/api/ingest/route.ts:95-104 | the prompt is the instructions followed by the first 3000 characters of the content, nothing more (a proof helper that names the parts of the definition) |
| Tagging.PromptPrefixOnly | app/api/ingest/route.ts:104 | contents that agree on their first 3000 characters give the same prompt |
| Tagging.JsonFenceLength | app/api/ingest/route.ts:108 | a match of ```` /```json?\n?/ ```` at the start has 6 to 8 characters |
| Tagging.DropJsonFences | app/api/ingest/route.ts:108 | removing the json fences never lengthens the reply |
| Tagging.DropTicks | app/api/ingest/route.ts:108 | removing the bare fences never lengthens the reply |
| Tagging.DropTicksNoFence | app/api/ingest/route.ts:108 | no run of three backticks survives ```` replace(/```/g, "") ```` |
| Tagging.StripFencesNoFence | app/api/ingest/route.ts:108 | the text handed to `JSON.parse` never holds a code fence |
| Tagging.NoBackticksUnchanged | app/api/ingest/route.ts:108 | text without backticks passes both replacements unchanged |
| Tagging.BareReplyUnchanged | app/api/ingest/route.ts:108 | a reply that is bare, trimmed JSON text reaches `JSON.parse` exactly as it came |
| Tagging.FencedReply | app/api/ingest/route.ts:108 | a reply wrapped in a ```` ```json ```` fence reaches `JSON.parse` as the trimmed text inside the fence |
| Tagging.ReadTagsFallback | app/api/ingest/route.ts:117-119 | an unparsable reply, or `null`, gives exactly `["other"]`, `""`, `""` |
| Tagging.ReadTagsCategories | app/api/ingest/route.ts:111-115 | an array is taken as is, a truthy `category` becomes a one-element list, otherwise `["other"]`; the list is empty exactly when the reply's array is |
| Tagging.ReadTagsText | app/api/ingest/route.ts:116 | for a parsed non-null reply, the title is the reply's `title` when truthy and `""` otherwise, and the same for `summary`; any truthy result comes from the reply |
| Tagging.AutoTagPrefixOnly | app/api/ingest/route.ts:93-105 | the tags depend on the first 3000 characters of the content only |
| Ingest.HashPrefixOnly | app/api/ingest/route.ts:11-13 | texts that agree on their first 5000 characters hash alike |
| Ingest.TranscriptText | app/api/ingest/route.ts:29-39 | a transcript exists exactly for a URL with a video id whose transcript fetch gives at least one segment, and it is the segments joined by `" "` |
| Ingest.TranscriptLength | app/api/ingest/route.ts:38 | a transcript is as long as its segments plus one space between each two |
| Ingest.PageTextNormalized | app/api/ingest/route.ts:41-62 | extracted page text is already in the chunker's cleaned form |
| Ingest.Single | app/api/ingest/route.ts:145-151 | `.single()` yields a row exactly when one row matches, and that row |
| Ingest.Prepare | app/api/ingest/route.ts:173-197 | extraction, the length check and tagging fail only with 500 or 422; an admitted text has at least 100 characters |
| Ingest.ValidationFirst | app/api/ingest/route.ts:129-138 | an invalid request is a 400 whatever the store holds, and writes nothing |
| Ingest.ConflictNamesTheDuplicate | app/api/ingest/route.ts:143-171 | a 409 names the only row with the same URL (url, youtube) or the same hash (text) |
| Ingest.SamePrefixRejected | app/api/ingest/route.ts:157-170 | a text agreeing with the one stored text on its first 5000 characters is answered 409 with that row's id |
| Ingest.SameUrlRejected | app/api/ingest/route.ts:144-156 | a URL held by exactly one row is answered 409 with that row's id |
| Ingest.AdmittedRow | app/api/ingest/route.ts:191-213 | the inserted row: the caller's non-empty category array wins over the tags; a text keeps its title, other kinds fall back to the tags' title; the url and author are kept or `null`; only a text carries its hash |
| Ingest.ShortTextRejected | app/api/ingest/route.ts:184-189 | a pasted text shorter than 100 characters, not a duplicate, is answered 422 |
| Ingest.BatchAt | app/api/ingest/route.ts:227 | a batch holds 1 to 20 chunks |
| Ingest.BatchesPartition | app/api/ingest/route.ts:226-227 | the chunks fall into ceil(n/20) batches of at most 20 that concatenate back to the chunks |
| Ingest.RunBatchesRows | app/api/ingest/route.ts:222-243 | rows are written one per chunk, in order, with the source id and the chunk index; the count is the number of rows; the loop stops at the first failing call |
| Ingest.AllChunksStored | app/api/ingest/route.ts:222-243 | when every call succeeds, every chunk has exactly one row carrying its index, and the count is the number of chunks |
| Ingest.CommitParts | app/api/ingest/route.ts:202-256 | after the insert the source takes the next id; the answer is success with the count when the loop finished, 500 otherwise (a proof helper that names the parts of the definition) |
| Ingest.WriteStoresChunks | app/api/ingest/route.ts:199-256 | an admitted source whose insert succeeds is stored with a prefix of its chunks, each with its index, all of them exactly when the answer is a success |
| Ingest.CommitStores | app/api/ingest/route.ts:217-256 | the same for any chunk list the batch loop runs over |
| Ingest.WritePreservesConsistency | app/api/ingest/route.ts:199-243 | writing keeps ids below the next id and every chunk row attached to a stored source; it only adds rows |
| Ingest.RoutePreservesConsistency | app/api/ingest/route.ts:122-261 | the whole route keeps the store consistent and only adds rows |
| Ingest.RefusedWritesNothing | app/api/ingest/route.ts:129-217 | a refused request, or a failed source insert, leaves the store unchanged |
| Ingest.SecondTextRejected | app/api/ingest/route.ts:157-215 | once a text is stored, a second text with the same first 5000 characters is answered 409 with the first one's id, and nothing is written |
| Ingest.Store.StoreBatches | app/api/ingest/route.ts:222-243 | the batch loop appends exactly the rows and count of the batch run, and leaves the source rows alone |
| Ingest.Store.Ingest | app/api/ingest/route.ts:122-261 | the route answers and leaves the store as `Route` defines |
| Ingest.Store.WriteSource | app/api/ingest/route.ts:199-256 | the steps from the source insert on answer and leave the store as `Write` defines |
| Ingest.Store.Screen | app/api/ingest/route.ts:126-197 | the steps before the insert decide admission as `Admit` defines, and write nothing |
| Retrieval.UniqueFromSpec | app/api/chat/route.ts:58 | `[...new Set(ids)]`, with some ids already seen, holds exactly the ids not yet seen, each once |
| Retrieval.UniqueSpec | app/api/chat/route.ts:58 | the ids sent to the source lookup are the matched chunks' source ids, each once |
| Retrieval.SourceMapKeys | app/api/chat/route.ts:64-66 | an id is in the map exactly when some looked-up row carries it |
| Retrieval.SourceMapLast | app/api/chat/route.ts:64-66 | an id maps to the last row carrying it |
| Retrieval.BuildSourceMap | app/api/chat/route.ts:64-66 | the loop builds the map `SourceMap` defines |
| Retrieval.GetRelevantContext | app/api/chat/route.ts:30-84 | the calls in order give the context `RelevantContext` defines, `null` at the first that gives nothing |
| Retrieval.NoContextCases | app/api/chat/route.ts:44-56 | there is no context exactly when the embedding call fails or gives no vector, the search fails, or it matches no chunk |
| Retrieval.AttributionShape | app/api/chat/route.ts:73-75 | the attribution is empty exactly when the source is unknown; otherwise it is the quoted title, then ` — author` exactly when the author is filled, then ` \| URL: url` exactly when the URL is filled, then `]`, with each of the four cases stated as an equality |
| Retrieval.ContextBlocks | app/api/chat/route.ts:58-80 | one block per matched chunk, in order: attribution, line feed, chunk text, joined by the separator |
| Chat.TextPieces | app/api/chat/route.ts:97-98 | the pieces are at most one per part, and none is empty |
| Chat.GetText | app/api/chat/route.ts:93-102 | a filled content wins; otherwise the text of the parts when there are parts, else `""` |
| Chat.TextPiecesAppend | app/api/chat/route.ts:96-99 | the pieces of two part lists are the pieces of each, in order |
| Chat.TextPiecesNone | app/api/chat/route.ts:97 | there are no pieces exactly when no part is a text part with text |
| Chat.PartsTextAppend | app/api/chat/route.ts:96-99 | the text of two part lists is the first's text followed by the second's |
| Chat.PartsTextEmpty | app/api/chat/route.ts:96-99 | the parts' text is empty exactly when no part is a text part with text |
| Chat.GetTextEmpty | app/api/chat/route.ts:93-102 | a message has no text exactly when its content is empty and no part carries text |
| Chat.CoreMessages | app/api/chat/route.ts:115-121 | the core messages are user or assistant messages with non-empty content, no more than the incoming ones |
| Chat.CoreMessagesAppend | app/api/chat/route.ts:115-121 | the conversion keeps order: it distributes over concatenation |
| Chat.CoreMessagesSingle | app/api/chat/route.ts:115-121 | one message becomes one core message with its role and text, or is dropped |
| Chat.CoreMessagesAllKept | app/api/chat/route.ts:115-121 | nothing is dropped when every message is a user or assistant message with text |
| Chat.LastUserQuerySpec | app/api/chat/route.ts:124-126 | the query is the content of the last user message; none exactly when there is no user message |
| Chat.FirstUserTextSpec | app/api/chat/route.ts:174-175 | the title's user text is the content of the first user message; none exactly when there is no user message |
| Chat.UserCountZero | app/api/chat/route.ts:137-138 | the user count is zero exactly when there is no user message |
| Chat.FirstExchangeIff | app/api/chat/route.ts:137-138 | a first exchange is a conversation with exactly one user message |
| Chat.FirstExchangeQuery | app/api/chat/route.ts:124-175 | in a first exchange the title is made from the same message that served as the retrieval query |
| Chat.SystemWithShape | app/api/chat/route.ts:133-135 | the base prompt comes first; it stands alone exactly when the context is missing or empty; otherwise the heading and the context follow unchanged |
| Chat.SystemForContext | app/api/chat/route.ts:123-135 | without a user message nothing is retrieved; with one, the context is the one retrieved for the last user message |
| Chat.History | app/api/chat/route.ts:147-158 | the stored history has one entry per incoming message plus the reply |
| Chat.HistoryShape | app/api/chat/route.ts:147-158 | every message keeps its role and its id when it had one; the last entry is one assistant message with the reply; parts read back to the message's text |
| Chat.SinglePartText | app/api/chat/route.ts:151 | one text part reads back as its own text |
| Chat.CleanTitle | app/api/chat/route.ts:184 | the title has at most 100 characters, is a prefix of the trimmed answer, and is the whole trimmed answer when that fits |
| Chat.NothingWithoutId | app/api/chat/route.ts:145 | without a conversation id nothing is written |
| Chat.StepsTouchOnlyId | app/api/chat/route.ts:162-185 | the upsert and the title update touch only the row with the id and remove nothing |
| Chat.OthersUntouched | app/api/chat/route.ts:144-189 | `onFinish` touches only the turn's own conversation and removes no row |
| Chat.HistorySaved | app/api/chat/route.ts:162-170 | when the upsert succeeds the row holds the full history, for this user, at this time, whatever the title step does |
| Chat.TitleStepWrites | app/api/chat/route.ts:172-188 | a title is written only in a first exchange when the model answers, and it is the answer trimmed and cut to 100 characters |
| Chat.TitleOnlyFirst | app/api/chat/route.ts:172-188 | over all of `onFinish`, a changed title comes only from a first exchange, from the title model's answer, with at most 100 characters |
| Chat.RequestTitle | app/api/chat/route.ts:115-188 | for a request's own messages, a title is written only when exactly one kept message is a user message, from the title model's answer to the prompt built on the retrieval query |
| Chat.ConversationStore.OnFinish | app/api/chat/route.ts:144-189 | the table after the method is the one `AfterFinish` defines for the request's messages and the core messages converted from them |

## Left out

- Authentication (`requireApprovedUser`) is not modelled. Both routes are
  modelled from the point where the user is approved.
- The wording of the chat route's `SYSTEM_PROMPT` is not modelled. The
  base prompt is a parameter of `Chat.ChatTurn`, and every property holds
  for any base prompt.
- Streaming the chat reply (`streamText`, `toUIMessageStreamResponse`) is
  left out. The reply text is a parameter of `onFinish`.
- Ingest.ExtractText: a `url` or `text` that is not a JSON string is
  treated as an extraction failure (500). The route's `.length` test on
  such a value (an array `text` shorter than 100 elements gives 422) and
  `fetch`'s conversion of a non-string `url` to a string are not modelled.
  Nor is an array `text` of 100 or more elements under a `type` other than
  `url`, `youtube` or `text`: the route then calls the tagger, inserts the
  source row and only fails in `chunkText`, answering 500 with that row
  left in the database, where the model answers 500 and writes nothing.
- The chat route's outer `catch` for a malformed body is left out. The
  messages arrive already parsed.
- Supabase, `fetch`, the YouTube transcript library, the language models,
  the embedding API, SHA-256, random UUIDs and the clock are parameters.
  Only their results are modelled.
- The HTML tag and entity regular expressions of `fetchAndExtractText` are
  the `stripMarkup` parameter. Only the whitespace collapse and trim after
  them are modelled.
- The embedding vectors' contents, the similarity threshold (0.35) and the
  match count (8) belong to the `search` parameter and are not modelled.
- The success message's text is not modelled. This covers the category
  labels joined with `", "` and the error strings of each response. The
  model keeps the status, the id and the fields of the JSON answer.
- String lengths are counted in characters, not UTF-16 code units. The
  model does not separate the two for characters outside the Basic
  Multilingual Plane.
- A dedup query that reports an error is treated as finding no row, as
  `.single()` does in the source. The error itself is not modelled.
- The `user_id` ownership column is stored, but row-level security on the
  conversations table is not modelled.
- Retrieval.UniqueSpec: states the set of ids and that none repeats. It
  does not state that they come in the order of first occurrence.
- Chat.HistoryShape: when a message carries both a filled content and
  parts, the parts are stored and the content is lost. The read-back
  equality is stated only for the other messages.
