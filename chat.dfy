/**
 * One chat turn of `POST /api/chat` (app/api/chat/route.ts): the text of
 * each incoming message, the core messages sent to the model, the
 * retrieval query, the system prompt with its optional context, the
 * first-exchange test, and what `onFinish` writes to the conversations
 * table. The model calls, fresh ids and the clock are parameters.
 */
module Chat {
  import opened Wrappers
  import opened Text
  import opened Retrieval

  /** A part of a message as the client sends it: `{ type, text? }`. */
  datatype Part = Part(kind: string, text: Option<string>)

  /** `IncomingMessage`: optional id, role, optional content, optional parts. */
  datatype IncomingMessage = IncomingMessage(id: Option<string>, role: string, content: Option<string>, parts: Option<seq<Part>>)

  /** A message as the model receives it. */
  datatype CoreMessage = CoreMessage(role: string, content: string)

  // ---------------------------------------------------------------------------
  // getTextFromMessage
  // ---------------------------------------------------------------------------

  /** A part that contributes text: of type `text`, with a non-empty text. */
  predicate IsTextPart(p: Part) {
    p.kind == "text" && Filled(p.text)
  }

  /** `parts.filter(p => p.type === "text" && p.text).map(p => p.text!)`. */
  function TextPieces(parts: seq<Part>): (pieces: seq<string>)
    ensures |pieces| <= |parts|
    ensures forall i :: 0 <= i < |pieces| ==> pieces[i] != ""
  {
    if parts == [] then []
    else (if IsTextPart(parts[0]) then [parts[0].text.value] else []) + TextPieces(parts[1..])
  }

  /** The text of a list of parts: its text pieces joined with nothing between them. */
  function PartsText(parts: seq<Part>): string {
    Join(TextPieces(parts), "")
  }

  /** `getTextFromMessage`: the content when it is filled, else the text of the parts, else "". */
  function GetText(m: IncomingMessage): (r: string)
    ensures Filled(m.content) ==> r == m.content.value
    ensures !Filled(m.content) && m.parts.Some? ==> r == PartsText(m.parts.value)
    ensures !Filled(m.content) && m.parts.None? ==> r == ""
  {
    if Filled(m.content) then m.content.value
    else if m.parts.Some? then PartsText(m.parts.value)
    else ""
  }

  /** The pieces of two lists of parts are the pieces of each, in order. */
  lemma {:induction false} TextPiecesAppend(a: seq<Part>, b: seq<Part>)
    ensures TextPieces(a + b) == TextPieces(a) + TextPieces(b)
  {
    if a != [] {
      assert (a + b)[1..] == a[1..] + b;
      TextPiecesAppend(a[1..], b);
    } else {
      assert a + b == b;
    }
  }

  /** There are no pieces exactly when no part is a text part. */
  lemma {:induction false} TextPiecesNone(parts: seq<Part>)
    ensures TextPieces(parts) == [] <==> forall i :: 0 <= i < |parts| ==> !IsTextPart(parts[i])
  {
    if parts != [] {
      TextPiecesNone(parts[1..]);
      assert forall i :: 1 <= i < |parts| ==> parts[i] == parts[1..][i - 1];
    }
  }

  /** The text of two lists of parts is the text of the first followed by that of the second. */
  lemma PartsTextAppend(a: seq<Part>, b: seq<Part>)
    ensures PartsText(a + b) == PartsText(a) + PartsText(b)
  {
    TextPiecesAppend(a, b);
    JoinConcat(TextPieces(a), TextPieces(b));
  }

  /** The text of the parts is empty exactly when none of them is a text part. */
  lemma PartsTextEmpty(parts: seq<Part>)
    ensures PartsText(parts) == "" <==> forall i :: 0 <= i < |parts| ==> !IsTextPart(parts[i])
  {
    var pieces := TextPieces(parts);
    JoinLength(pieces, "");
    TotalLengthZero(pieces);
    TextPiecesNone(parts);
    if pieces != [] {
      assert pieces[0] != "";
    }
  }

  /**
   * A message has no text exactly when its content is missing or empty and
   * it has no parts or none of its parts is a text part with some text.
   */
  lemma GetTextEmpty(m: IncomingMessage)
    ensures GetText(m) == "" <==>
              !Filled(m.content) && (m.parts.None? || forall i :: 0 <= i < |m.parts.value| ==> !IsTextPart(m.parts.value[i]))
  {
    if m.parts.Some? {
      PartsTextEmpty(m.parts.value);
    }
  }

  // ---------------------------------------------------------------------------
  // Core messages and the retrieval query
  // ---------------------------------------------------------------------------

  /** The roles the model is given. */
  predicate Conversational(role: string) {
    role == "user" || role == "assistant"
  }

  /** Whether an incoming message survives into the core messages. */
  predicate Kept(m: IncomingMessage) {
    Conversational(m.role) && GetText(m) != ""
  }

  /**
   * `coreMessages`: keep the user and assistant messages, take their text,
   * and drop those whose text is empty.
   */
  function CoreMessages(ms: seq<IncomingMessage>): (core: seq<CoreMessage>)
    ensures |core| <= |ms|
    ensures forall i :: 0 <= i < |core| ==> Conversational(core[i].role) && core[i].content != ""
  {
    if ms == [] then []
    else (if Kept(ms[0]) then [CoreMessage(ms[0].role, GetText(ms[0]))] else []) + CoreMessages(ms[1..])
  }

  /** Order is kept: the core messages of two lists are those of the first, then those of the second. */
  lemma {:induction false} CoreMessagesAppend(a: seq<IncomingMessage>, b: seq<IncomingMessage>)
    ensures CoreMessages(a + b) == CoreMessages(a) + CoreMessages(b)
  {
    if a != [] {
      assert (a + b)[1..] == a[1..] + b;
      CoreMessagesAppend(a[1..], b);
    } else {
      assert a + b == b;
    }
  }

  /** A single message becomes one core message with its role and text, or is dropped. */
  lemma CoreMessagesSingle(m: IncomingMessage)
    ensures Kept(m) ==> CoreMessages([m]) == [CoreMessage(m.role, GetText(m))]
    ensures !Kept(m) ==> CoreMessages([m]) == []
  {
    assert [m][1..] == [];
  }

  /** Nothing is dropped when every message is a user or assistant message with some text. */
  lemma {:induction false} CoreMessagesAllKept(ms: seq<IncomingMessage>)
    requires forall i :: 0 <= i < |ms| ==> Kept(ms[i])
    ensures |CoreMessages(ms)| == |ms|
    ensures forall i :: 0 <= i < |ms| ==> CoreMessages(ms)[i] == CoreMessage(ms[i].role, GetText(ms[i]))
  {
    if ms != [] {
      CoreMessagesAllKept(ms[1..]);
      assert forall i :: 1 <= i < |ms| ==> ms[i] == ms[1..][i - 1];
    }
  }

  /** `[...core].reverse().find(m => m.role === "user")?.content`. */
  function LastUserQuery(core: seq<CoreMessage>): Option<string> {
    if core == [] then None
    else if core[|core| - 1].role == "user" then Some(core[|core| - 1].content)
    else LastUserQuery(core[..|core| - 1])
  }

  /**
   * The query is the content of the last user message, and there is none
   * exactly when no message is a user message.
   */
  lemma {:induction false} LastUserQuerySpec(core: seq<CoreMessage>)
    ensures LastUserQuery(core).None? <==> forall i :: 0 <= i < |core| ==> core[i].role != "user"
    ensures LastUserQuery(core).Some? ==>
              exists i :: 0 <= i < |core| && core[i].role == "user" && core[i].content == LastUserQuery(core).value
                          && forall j :: i < j < |core| ==> core[j].role != "user"
  {
    if core != [] && core[|core| - 1].role != "user" {
      var init := core[..|core| - 1];
      LastUserQuerySpec(init);
      assert forall i :: 0 <= i < |init| ==> init[i] == core[i];
      if LastUserQuery(init).Some? {
        var i :| 0 <= i < |init| && init[i].role == "user" && init[i].content == LastUserQuery(init).value
                 && forall j :: i < j < |init| ==> init[j].role != "user";
        assert core[i].role == "user";
      }
    }
  }

  /** `coreMessages.find(m => m.role === "user")?.content`. */
  function FirstUserText(core: seq<CoreMessage>): Option<string> {
    if core == [] then None
    else if core[0].role == "user" then Some(core[0].content)
    else FirstUserText(core[1..])
  }

  /**
   * The title's user text is the content of the first user message, and
   * there is none exactly when no message is a user message.
   */
  lemma {:induction false} FirstUserTextSpec(core: seq<CoreMessage>)
    ensures FirstUserText(core).None? <==> forall i :: 0 <= i < |core| ==> core[i].role != "user"
    ensures FirstUserText(core).Some? ==>
              exists i :: 0 <= i < |core| && core[i].role == "user" && core[i].content == FirstUserText(core).value
                          && forall j :: 0 <= j < i ==> core[j].role != "user"
  {
    if core != [] && core[0].role != "user" {
      var tail := core[1..];
      FirstUserTextSpec(tail);
      assert forall i :: 1 <= i < |core| ==> tail[i - 1] == core[i];
      if FirstUserText(tail).Some? {
        var i :| 0 <= i < |tail| && tail[i].role == "user" && tail[i].content == FirstUserText(tail).value
                 && forall j :: 0 <= j < i ==> tail[j].role != "user";
        assert core[i + 1].role == "user";
      }
    }
  }

  /** The number of user messages among the core messages. */
  function UserCount(core: seq<CoreMessage>): nat {
    if core == [] then 0 else (if core[0].role == "user" then 1 else 0) + UserCount(core[1..])
  }

  /** `isFirstExchange`. */
  predicate IsFirstExchange(core: seq<CoreMessage>) {
    UserCount(core) == 1
  }

  /** `i` is the one index that holds a user message. */
  predicate OnlyUserAt(core: seq<CoreMessage>, i: int) {
    && 0 <= i < |core| && core[i].role == "user"
    && forall j :: 0 <= j < |core| && j != i ==> core[j].role != "user"
  }

  /** The count is zero exactly when there is no user message. */
  lemma {:induction false} UserCountZero(core: seq<CoreMessage>)
    ensures UserCount(core) == 0 <==> forall i :: 0 <= i < |core| ==> core[i].role != "user"
  {
    if core != [] {
      var tail := core[1..];
      UserCountZero(tail);
      assert forall i :: 1 <= i < |core| ==> core[i] == tail[i - 1];
    }
  }

  /** Behind a first message that is not a user message, the only user message moves by one. */
  lemma ShiftOnlyUser(core: seq<CoreMessage>, i: nat)
    requires core != [] && core[0].role != "user"
    ensures OnlyUserAt(core[1..], i) <==> OnlyUserAt(core, i + 1)
  {
    var tail := core[1..];
    if OnlyUserAt(tail, i) {
      forall j | 0 <= j < |core| && j != i + 1 ensures core[j].role != "user" {
        if j > 0 {
          assert core[j] == tail[j - 1];
        }
      }
    }
    if OnlyUserAt(core, i + 1) {
      forall j | 0 <= j < |tail| && j != i ensures tail[j].role != "user" {
        assert tail[j] == core[j + 1];
      }
    }
  }

  /** A first exchange is a conversation with exactly one user message. */
  lemma {:induction false} FirstExchangeIff(core: seq<CoreMessage>)
    ensures IsFirstExchange(core) <==> exists i :: OnlyUserAt(core, i)
  {
    if core != [] {
      var tail := core[1..];
      assert forall i :: 1 <= i < |core| ==> core[i] == tail[i - 1];
      if core[0].role == "user" {
        UserCountZero(tail);
        if UserCount(tail) == 0 {
          assert OnlyUserAt(core, 0);
        } else {
          var j :| 0 <= j < |tail| && tail[j].role == "user";
          assert core[j + 1].role == "user";
          forall i | 0 <= i < |core| ensures !OnlyUserAt(core, i) {
            if i != 0 {
              assert core[0].role == "user";
            }
          }
        }
      } else {
        FirstExchangeIff(tail);
        if exists i :: OnlyUserAt(core, i) {
          var i :| OnlyUserAt(core, i);
          ShiftOnlyUser(core, i - 1);
        }
        if exists i :: OnlyUserAt(tail, i) {
          var i :| OnlyUserAt(tail, i);
          ShiftOnlyUser(core, i);
        }
      }
    }
  }

  /** In a first exchange the title is made from the same message that served as the retrieval query. */
  lemma FirstExchangeQuery(core: seq<CoreMessage>)
    requires IsFirstExchange(core)
    ensures FirstUserText(core).Some? && FirstUserText(core) == LastUserQuery(core)
  {
    FirstExchangeIff(core);
    LastUserQuerySpec(core);
    FirstUserTextSpec(core);
    var i :| OnlyUserAt(core, i);
  }

  // ---------------------------------------------------------------------------
  // The system prompt
  // ---------------------------------------------------------------------------

  /** The heading placed between the system prompt and the retrieved context. */
  const ContextHeading: string := "\n\n## Relevant Context from Curated Sources\n\n"

  /** `systemWithContext` for a given base prompt: the context is appended only when it is filled. */
  function SystemWith(prompt: string, context: Option<string>): string {
    if Filled(context) then prompt + ContextHeading + context.value else prompt
  }

  /**
   * The base prompt always comes first. The system prompt is the base
   * prompt alone exactly when there is no context or it is empty; otherwise
   * the heading follows, then the context itself, unchanged.
   */
  lemma SystemWithShape(prompt: string, context: Option<string>)
    ensures prompt <= SystemWith(prompt, context)
    ensures SystemWith(prompt, context) == prompt <==> !Filled(context)
    ensures Filled(context) ==>
              var s := SystemWith(prompt, context);
              && s[|prompt|..|prompt| + |ContextHeading|] == ContextHeading
              && s[|prompt| + |ContextHeading|..] == context.value
  {
    if Filled(context) {
      var s := SystemWith(prompt, context);
      assert s == prompt + (ContextHeading + context.value);
      assert |s| > |prompt|;
    }
  }

  // ---------------------------------------------------------------------------
  // The turn
  // ---------------------------------------------------------------------------

  /** The parsed request body: the messages and the optional conversation id. */
  datatype ChatRequest = ChatRequest(messages: seq<IncomingMessage>, id: Option<string>)

  /** What the model is asked for: the system prompt, the core messages, and whether this is a first exchange. */
  datatype Turn = Turn(system: string, messages: seq<CoreMessage>, isFirst: bool)

  /**
   * `systemWithContext` for the core messages: the context is retrieved only
   * when there is a user message to serve as the query.
   */
  function SystemFor(prompt: string, svc: RetrievalServices, core: seq<CoreMessage>): string {
    var query := LastUserQuery(core);
    SystemWith(prompt, if Filled(query) then RelevantContext(svc, query.value) else None)
  }

  /**
   * The turn `POST /api/chat` starts for a request. `prompt` stands for the
   * fixed `SYSTEM_PROMPT`, whose wording the model does not look at.
   */
  function ChatTurn(prompt: string, svc: RetrievalServices, request: ChatRequest): Turn {
    var core := CoreMessages(request.messages);
    Turn(SystemFor(prompt, svc, core), core, IsFirstExchange(core))
  }

  /**
   * The base prompt is always a prefix of the system prompt. Without a user
   * message nothing is retrieved and the system prompt is the base prompt;
   * with one, the context is the one retrieved for the last user message.
   */
  lemma SystemForContext(prompt: string, svc: RetrievalServices, core: seq<CoreMessage>)
    requires forall i :: 0 <= i < |core| ==> core[i].content != ""
    ensures prompt <= SystemFor(prompt, svc, core)
    ensures (forall i :: 0 <= i < |core| ==> core[i].role != "user") ==> SystemFor(prompt, svc, core) == prompt
    ensures LastUserQuery(core).Some? ==>
              SystemFor(prompt, svc, core) == SystemWith(prompt, RelevantContext(svc, LastUserQuery(core).value))
  {
    var query := LastUserQuery(core);
    var context := if Filled(query) then RelevantContext(svc, query.value) else None;
    SystemWithShape(prompt, context);
    LastUserQuerySpec(core);
    if query.Some? {
      var i :| 0 <= i < |core| && core[i].role == "user" && core[i].content == query.value
               && forall j :: i < j < |core| ==> core[j].role != "user";
      assert query.value != "";
    }
  }

  // ---------------------------------------------------------------------------
  // onFinish
  // ---------------------------------------------------------------------------

  /** A message as stored in a conversation: id, role and parts. */
  datatype StoredMessage = StoredMessage(id: string, role: string, parts: seq<Part>)

  /** How an incoming message is stored; `generated` is the id made for it when it has none. */
  function Stored(m: IncomingMessage, generated: string): StoredMessage {
    StoredMessage(if Filled(m.id) then m.id.value else generated, m.role,
                  if m.parts.Some? then m.parts.value else [Part("text", Some(GetText(m)))])
  }

  /**
   * `allMessages`: every incoming message, unfiltered and in order, then the
   * model's reply as one assistant message. `newId(k)` is the id generated
   * for position `k` when one is needed.
   */
  function History(messages: seq<IncomingMessage>, reply: string, newId: nat -> string): (h: seq<StoredMessage>)
    ensures |h| == |messages| + 1
  {
    seq(|messages|, k requires 0 <= k < |messages| => Stored(messages[k], newId(k)))
    + [StoredMessage(newId(|messages|), "assistant", [Part("text", Some(reply))])]
  }

  /**
   * The stored list keeps every incoming message's role and, when it had
   * one, its id, and ends with exactly one assistant message whose text is
   * the reply. Reading a stored message's parts back gives the text the
   * message had, unless it carried both a filled content and parts (then
   * the parts are kept and the content is lost).
   */
  lemma HistoryShape(messages: seq<IncomingMessage>, reply: string, newId: nat -> string)
    ensures var h := History(messages, reply, newId);
            && (forall k :: 0 <= k < |messages| ==>
                  h[k].role == messages[k].role
                  && (Filled(messages[k].id) ==> h[k].id == messages[k].id.value)
                  && (messages[k].parts.None? || !Filled(messages[k].content) ==> PartsText(h[k].parts) == GetText(messages[k])))
            && h[|messages|].role == "assistant"
            && PartsText(h[|messages|].parts) == reply
  {
    var h := History(messages, reply, newId);
    forall k | 0 <= k < |messages|
      ensures h[k] == Stored(messages[k], newId(k))
      ensures messages[k].parts.None? || !Filled(messages[k].content) ==> PartsText(h[k].parts) == GetText(messages[k])
    {
      if messages[k].parts.None? {
        SinglePartText(GetText(messages[k]));
      }
    }
    assert h[|messages|] == StoredMessage(newId(|messages|), "assistant", [Part("text", Some(reply))]);
    SinglePartText(reply);
  }

  /** One text part reads back as its own text. */
  lemma SinglePartText(text: string)
    ensures PartsText([Part("text", Some(text))]) == text
  {
    var ps := [Part("text", Some(text))];
    assert ps[1..] == [];
    if text == "" {
      assert TextPieces(ps) == [];
    } else {
      assert TextPieces(ps) == [text];
    }
  }

  /** A row of the conversations table; `title` is `None` while it has the default title. */
  datatype Conversation = Conversation(userId: string, messages: seq<StoredMessage>, updatedAt: string, title: Option<string>)

  /**
   * The calls `onFinish` makes that this model does not look inside: id
   * generation, the clock, whether the upsert and the title update report
   * an error, and the title model (`None` when it throws).
   */
  datatype FinishServices = FinishServices(
    newId: nat -> string,
    now: string,
    upsertFails: bool,
    generateTitle: string -> Option<string>,
    titleUpdateFails: bool)

  /** How many characters a stored title may have. */
  const TitleLength: nat := 100

  /** How many characters of the reply the title prompt carries. */
  const TitleReplyLength: nat := 200

  /** The prompt for the title model. */
  function TitlePrompt(userText: string, reply: string): string {
    "Generate a short title (3-6 words, no quotes, no period) for this conversation:\nUser: " + userText
    + "\nAssistant: " + Prefix(reply, TitleReplyLength)
  }

  /** `title.trim().substring(0, 100)`. */
  function CleanTitle(raw: string): (title: string)
    ensures |title| <= TitleLength
    ensures title <= Trim(raw)
    ensures |Trim(raw)| <= TitleLength ==> title == Trim(raw)
  {
    Prefix(Trim(raw), TitleLength)
  }

  /** The upsert on `id`: the row's user, messages and time are set; a new row keeps the default title. */
  function Upsert(rows: map<string, Conversation>, id: string, userId: string, history: seq<StoredMessage>, now: string): map<string, Conversation> {
    if id in rows then rows[id := rows[id].(userId := userId, messages := history, updatedAt := now)]
    else rows[id := Conversation(userId, history, now, None)]
  }

  /** The upsert step, which leaves the table as it was when the upsert reports an error. */
  function Save(rows: map<string, Conversation>, svc: FinishServices, id: string, userId: string, history: seq<StoredMessage>): map<string, Conversation> {
    if svc.upsertFails then rows else Upsert(rows, id, userId, history, svc.now)
  }

  /** The title update, which changes nothing when no row has the id. */
  function SetTitle(rows: map<string, Conversation>, id: string, title: string): map<string, Conversation> {
    if id in rows then rows[id := rows[id].(title := Some(title))] else rows
  }

  /**
   * The title step: only in a first exchange, and only when the title model
   * answers the prompt and the update reports no error.
   */
  function TitleStep(rows: map<string, Conversation>, svc: FinishServices, id: string, first: bool, prompt: string): map<string, Conversation> {
    if !first then rows
    else match svc.generateTitle(prompt)
      case None => rows
      case Some(raw) => if svc.titleUpdateFails then rows else SetTitle(rows, id, CleanTitle(raw))
  }

  /** The table after `onFinish` for the turn with conversation id `conversationId`. */
  function AfterFinish(rows: map<string, Conversation>, svc: FinishServices, conversationId: Option<string>,
                       userId: string, messages: seq<IncomingMessage>, core: seq<CoreMessage>, reply: string): map<string, Conversation>
  {
    if !Filled(conversationId) then rows
    else
      var id := conversationId.value;
      TitleStep(Save(rows, svc, id, userId, History(messages, reply, svc.newId)), svc, id,
                IsFirstExchange(core), TitlePrompt(FirstUserText(core).GetOr(""), reply))
  }

  /** `AfterFinish` with the history, the first-exchange test and the title prompt named. */
  lemma AfterFinishUnfold(rows: map<string, Conversation>, svc: FinishServices, conversationId: Option<string>,
                          userId: string, messages: seq<IncomingMessage>, core: seq<CoreMessage>, reply: string,
                          history: seq<StoredMessage>, first: bool, prompt: string)
    requires Filled(conversationId) && history == History(messages, reply, svc.newId)
    requires first == IsFirstExchange(core) && prompt == TitlePrompt(FirstUserText(core).GetOr(""), reply)
    ensures AfterFinish(rows, svc, conversationId, userId, messages, core, reply)
              == TitleStep(Save(rows, svc, conversationId.value, userId, history), svc, conversationId.value, first, prompt)
  {
  }

  /** No conversation id, nothing written. */
  lemma NothingWithoutId(rows: map<string, Conversation>, svc: FinishServices, userId: string,
                         messages: seq<IncomingMessage>, core: seq<CoreMessage>, reply: string, conversationId: Option<string>)
    requires !Filled(conversationId)
    ensures AfterFinish(rows, svc, conversationId, userId, messages, core, reply) == rows
  {
  }

  /**
   * Both steps touch only the row `id`: every other row stays as it was, and
   * no row is removed. The upsert leaves a row `id` behind unless it fails.
   */
  lemma StepsTouchOnlyId(rows: map<string, Conversation>, svc: FinishServices, id: string, userId: string,
                         history: seq<StoredMessage>, first: bool, prompt: string)
    ensures var saved := Save(rows, svc, id, userId, history);
            && rows.Keys <= saved.Keys
            && (!svc.upsertFails ==> id in saved)
            && (forall k :: k in saved && k != id ==> k in rows && saved[k] == rows[k])
    ensures var titled := TitleStep(rows, svc, id, first, prompt);
            && titled.Keys == rows.Keys
            && (forall k :: k in titled && k != id ==> titled[k] == rows[k])
            && (id in rows ==> titled[id].(title := rows[id].title) == rows[id])
  {
  }

  /** Only the turn's own conversation is touched, and no row is removed. */
  lemma OthersUntouched(rows: map<string, Conversation>, svc: FinishServices, conversationId: Option<string>,
                        userId: string, messages: seq<IncomingMessage>, core: seq<CoreMessage>, reply: string)
    ensures var after := AfterFinish(rows, svc, conversationId, userId, messages, core, reply);
            && rows.Keys <= after.Keys
            && forall k :: k in after && (!Filled(conversationId) || k != conversationId.value) ==> k in rows && after[k] == rows[k]
  {
    if Filled(conversationId) {
      var id := conversationId.value;
      var history := History(messages, reply, svc.newId);
      var first := IsFirstExchange(core);
      var prompt := TitlePrompt(FirstUserText(core).GetOr(""), reply);
      var saved := Save(rows, svc, id, userId, history);
      StepsTouchOnlyId(rows, svc, id, userId, history, first, prompt);
      StepsTouchOnlyId(saved, svc, id, userId, history, first, prompt);
      assert AfterFinish(rows, svc, conversationId, userId, messages, core, reply) == TitleStep(saved, svc, id, first, prompt);
    }
  }

  /**
   * When the upsert succeeds the conversation holds the full history of the
   * turn, for this user, at this time, whatever the title step does.
   */
  lemma HistorySaved(rows: map<string, Conversation>, svc: FinishServices, conversationId: Option<string>,
                     userId: string, messages: seq<IncomingMessage>, core: seq<CoreMessage>, reply: string)
    requires Filled(conversationId) && !svc.upsertFails
    ensures var after := AfterFinish(rows, svc, conversationId, userId, messages, core, reply);
            && conversationId.value in after
            && after[conversationId.value].messages == History(messages, reply, svc.newId)
            && after[conversationId.value].userId == userId
            && after[conversationId.value].updatedAt == svc.now
  {
    var id := conversationId.value;
    var history := History(messages, reply, svc.newId);
    var first := IsFirstExchange(core);
    var prompt := TitlePrompt(FirstUserText(core).GetOr(""), reply);
    var saved := Save(rows, svc, id, userId, history);
    assert saved[id].messages == history && saved[id].userId == userId && saved[id].updatedAt == svc.now;
    StepsTouchOnlyId(saved, svc, id, userId, history, first, prompt);
    assert AfterFinish(rows, svc, conversationId, userId, messages, core, reply) == TitleStep(saved, svc, id, first, prompt);
  }

  /**
   * The title step writes a title only in a first exchange and only when
   * the title model answers, and what it writes is that answer trimmed and
   * cut to 100 characters; otherwise the title is what it was.
   */
  lemma TitleStepWrites(rows: map<string, Conversation>, svc: FinishServices, id: string, first: bool, prompt: string)
    requires id in rows
    ensures var titled := TitleStep(rows, svc, id, first, prompt);
            titled[id].title != rows[id].title ==>
              && first && svc.generateTitle(prompt).Some? && !svc.titleUpdateFails
              && titled[id].title == Some(CleanTitle(svc.generateTitle(prompt).value))
              && |titled[id].title.value| <= TitleLength
    ensures first && svc.generateTitle(prompt).Some? && !svc.titleUpdateFails ==>
              TitleStep(rows, svc, id, first, prompt)[id].title == Some(CleanTitle(svc.generateTitle(prompt).value))
  {
  }

  /**
   * Over the whole of `onFinish`: a title different from the one the row had
   * (the default title for a new row) is written only in a first exchange,
   * from the title model's answer to the prompt built from the first user
   * message and the reply, and has at most 100 characters.
   */
  lemma TitleOnlyFirst(rows: map<string, Conversation>, svc: FinishServices, conversationId: Option<string>,
                       userId: string, messages: seq<IncomingMessage>, core: seq<CoreMessage>, reply: string)
    requires Filled(conversationId)
    ensures var id := conversationId.value;
            var after := AfterFinish(rows, svc, conversationId, userId, messages, core, reply);
            var before := if id in rows then rows[id].title else None;
            id in after && after[id].title != before ==>
              && IsFirstExchange(core)
              && svc.generateTitle(TitlePrompt(FirstUserText(core).GetOr(""), reply)).Some?
              && after[id].title == Some(CleanTitle(svc.generateTitle(TitlePrompt(FirstUserText(core).GetOr(""), reply)).value))
              && |after[id].title.value| <= TitleLength
  {
    var id := conversationId.value;
    var history := History(messages, reply, svc.newId);
    var first := IsFirstExchange(core);
    var prompt := TitlePrompt(FirstUserText(core).GetOr(""), reply);
    var saved := Save(rows, svc, id, userId, history);
    var after := TitleStep(saved, svc, id, first, prompt);
    assert AfterFinish(rows, svc, conversationId, userId, messages, core, reply) == after;
    StepsTouchOnlyId(rows, svc, id, userId, history, first, prompt);
    StepsTouchOnlyId(saved, svc, id, userId, history, first, prompt);
    if id in after {
      TitleStepWrites(saved, svc, id, first, prompt);
      var before := if id in rows then rows[id].title else None;
      assert saved[id].title == before;
    }
  }

  /**
   * For the messages a request carries: a title is written only when
   * exactly one of the kept messages is a user message, and the title
   * prompt is then built from the same text that served as the retrieval
   * query.
   */
  lemma RequestTitle(rows: map<string, Conversation>, svc: FinishServices, request: ChatRequest,
                     userId: string, reply: string)
    requires Filled(request.id)
    ensures var id := request.id.value;
            var core := CoreMessages(request.messages);
            var after := AfterFinish(rows, svc, request.id, userId, request.messages, core, reply);
            var before := if id in rows then rows[id].title else None;
            id in after && after[id].title != before ==>
              && (exists i :: OnlyUserAt(core, i))
              && LastUserQuery(core).Some?
              && svc.generateTitle(TitlePrompt(LastUserQuery(core).value, reply)).Some?
              && after[id].title == Some(CleanTitle(svc.generateTitle(TitlePrompt(LastUserQuery(core).value, reply)).value))
  {
    var id := request.id.value;
    var core := CoreMessages(request.messages);
    TitleOnlyFirst(rows, svc, request.id, userId, request.messages, core, reply);
    var after := AfterFinish(rows, svc, request.id, userId, request.messages, core, reply);
    var before := if id in rows then rows[id].title else None;
    if id in after && after[id].title != before {
      FirstExchangeIff(core);
      FirstExchangeQuery(core);
    }
  }

  /** The conversations table `onFinish` writes to. */
  class ConversationStore {
    var rows: map<string, Conversation>

    constructor ()
      ensures rows == map[]
    {
      rows := map[];
    }

    /**
     * `onFinish`: return at once without a conversation id; upsert the
     * history (an error is not checked); then, in a first exchange, ask for
     * a title and store it, ignoring any failure.
     */
    method OnFinish(svc: FinishServices, request: ChatRequest, userId: string, reply: string)
      modifies this
      ensures rows == AfterFinish(old(rows), svc, request.id, userId, request.messages,
                                  CoreMessages(request.messages), reply)
    {
      var conversationId := request.id;
      var messages := request.messages;
      var core := CoreMessages(messages);
      if !Filled(conversationId) {
        return;
      }
      var id := conversationId.value;
      var history := History(messages, reply, svc.newId);
      var first := IsFirstExchange(core);
      var prompt := TitlePrompt(FirstUserText(core).GetOr(""), reply);
      AfterFinishUnfold(rows, svc, conversationId, userId, messages, core, reply, history, first, prompt);
      if !svc.upsertFails {
        rows := Upsert(rows, id, userId, history, svc.now);
      }
      if first {
        var title := svc.generateTitle(prompt);
        if title.Some? && !svc.titleUpdateFails {
          rows := SetTitle(rows, id, CleanTitle(title.value));
        }
      }
    }
  }
}
