/**
 * `autoTag` (app/api/ingest/route.ts): the prompt sent to the tagging model,
 * the removal of code fences from its reply, and the parse with its
 * fallbacks. The model call and `JSON.parse` are parameters.
 */
module Tagging {
  import opened Wrappers
  import opened Text
  import opened Json
  import opened Constants

  /**
   * The two outside calls `autoTag` makes: `generateText` (`None` when it
   * throws) and `JSON.parse` (`None` when it throws).
   */
  datatype TagServices = TagServices(generate: string -> Option<string>, parseJson: string -> Option<Json>)

  /** What `autoTag` resolves to. */
  datatype Tags = Tags(categories: seq<Json>, title: Json, summary: Json)

  /** The reply `autoTag` falls back to when the model's reply cannot be read. */
  const FallbackTags: Tags := Tags([JStr(Other)], JStr(""), JStr(""))

  /** How many characters of the content the prompt carries. */
  const PromptContentLength: nat := 3000

  // ---------------------------------------------------------------------------
  // The prompt
  // ---------------------------------------------------------------------------

  /** One line of `categoryList`: `- key: Label`. */
  function CategoryLine(c: string): string
    requires c in CategoryLabels
  {
    "- " + c + ": " + CategoryLabels[c]
  }

  function CategoryLines(cs: seq<string>): (r: seq<string>)
    requires forall i :: 0 <= i < |cs| ==> cs[i] in CategoryLabels
    ensures |r| == |cs|
    ensures forall i :: 0 <= i < |cs| ==> r[i] == CategoryLine(cs[i])
  {
    seq(|cs|, i requires 0 <= i < |cs| => CategoryLine(cs[i]))
  }

  /** `categoryList`: one line per category, in the order of `Categories`. */
  const CategoryList: string := Join(CategoryLines(Categories), "\n")

  /**
   * When no key and no label holds a line feed, the list has one line per
   * key, and each line names its key before the colon and ends with the label.
   */
  lemma CategoryLinesShape(cs: seq<string>)
    requires cs != []
    requires forall i :: 0 <= i < |cs| ==> cs[i] in CategoryLabels
    requires forall i :: 0 <= i < |cs| ==> '\n' !in cs[i] && '\n' !in CategoryLabels[cs[i]]
    ensures multiset(Join(CategoryLines(cs), "\n"))['\n'] == |cs| - 1
    ensures forall i :: 0 <= i < |cs| ==>
      var line := CategoryLines(cs)[i];
      '\n' !in line && line[..|cs[i]| + 4] == "- " + cs[i] + ": " &&
      line[|cs[i]| + 4..] == CategoryLabels[cs[i]]
  {
    var lines := CategoryLines(cs);
    forall i | 0 <= i < |lines|
      ensures '\n' !in lines[i]
    {
      assert lines[i] == "- " + cs[i] + ": " + CategoryLabels[cs[i]];
    }
    JoinSeparatorCount(lines, '\n');
  }

  /** `categoryList` has exactly one line per category: ten lines, in the order of `Categories`. */
  lemma CategoryListLines()
    ensures multiset(CategoryList)['\n'] == |Categories| - 1 == 9
    ensures forall i :: 0 <= i < |Categories| ==>
      CategoryLines(Categories)[i][..|Categories[i]| + 4] == "- " + Categories[i] + ": "
  {
    CategoriesShape();
    LabelsNoLineFeed();
    CategoryLinesShape(Categories);
  }

  const PromptHead: string :=
    "Analyze this content and return a JSON object with exactly these fields:\n"
    + "- \"categories\": an array of 1-3 category keys from the list below that best fit the content (most relevant first):\n"

  const PromptTail: string :=
    "\n- \"title\": a concise title (max 80 chars)\n"
    + "- \"summary\": a 1-2 sentence summary of the key insight\n"
    + "\n"
    + "Return ONLY valid JSON, no markdown fences or explanation.\n"
    + "\n"
    + "Content (first 3000 chars):\n"

  /** The instructions that precede the content in every tagging prompt. */
  function Instructions(): string {
    PromptHead + CategoryList + PromptTail
  }

  /** The prompt `autoTag` sends for `text`. */
  function TagPrompt(text: string): string {
    Prompt(Instructions(), text)
  }

  /** A prompt: the instructions followed by the first 3000 characters of the content. */
  function Prompt(instructions: string, text: string): string {
    instructions + Prefix(text, PromptContentLength)
  }

  /**
   * The prompt is the instructions followed by the first 3000 characters of
   * the content; nothing after them is sent.
   */
  lemma PromptShape(instructions: string, text: string)
    ensures var p := Prompt(instructions, text);
            && p[..|instructions|] == instructions
            && p[|instructions|..] == Prefix(text, PromptContentLength)
            && |p| == |instructions| + Min(|text|, PromptContentLength)
  {
  }

  /** Two contents that agree on their first 3000 characters give the same prompt. */
  lemma PromptPrefixOnly(instructions: string, a: string, b: string)
    requires Prefix(a, PromptContentLength) == Prefix(b, PromptContentLength)
    ensures Prompt(instructions, a) == Prompt(instructions, b)
  {
  }

  // ---------------------------------------------------------------------------
  // Fence removal: response.replace(/```json?\n?/g, "").replace(/```/g, "").trim()
  // ---------------------------------------------------------------------------

  /** Three backticks start at index `i` of `s`. */
  predicate TicksAt(s: string, i: int) {
    0 <= i && i + 2 < |s| && s[i] == '`' && s[i + 1] == '`' && s[i + 2] == '`'
  }

  /** `s` holds no run of three backticks. */
  predicate NoFence(s: string) {
    forall i :: 0 <= i < |s| ==> !TicksAt(s, i)
  }

  /** "```jso" starts at the beginning of `s`. */
  predicate OpensJsonFence(s: string) {
    |s| >= 6 && TicksAt(s, 0) && s[3] == 'j' && s[4] == 's' && s[5] == 'o'
  }

  /**
   * How long the match of /```json?\n?/ at the start of `s` is: "```jso",
   * then an optional 'n', then an optional line feed.
   */
  function JsonFenceLength(s: string): (n: nat)
    requires OpensJsonFence(s)
    ensures 6 <= n <= 8 && n <= |s|
  {
    var k := if |s| > 6 && s[6] == 'n' then 7 else 6;
    if |s| > k && s[k] == '\n' then k + 1 else k
  }

  /** `s.replace(/```json?\n?/g, "")`: matches are removed left to right, without overlap. */
  function DropJsonFences(s: string): (r: string)
    ensures |r| <= |s|
    decreases |s|
  {
    if s == [] then []
    else if OpensJsonFence(s) then DropJsonFences(s[JsonFenceLength(s)..])
    else [s[0]] + DropJsonFences(s[1..])
  }

  /** `s.replace(/```/g, "")`: every run of three backticks is removed, left to right. */
  function DropTicks(s: string): (r: string)
    ensures |r| <= |s|
    decreases |s|
  {
    if s == [] then []
    else if TicksAt(s, 0) then DropTicks(s[3..])
    else [s[0]] + DropTicks(s[1..])
  }

  /** The cleaned reply `autoTag` hands to `JSON.parse`. */
  function StripFences(response: string): string {
    Trim(DropTicks(DropJsonFences(response)))
  }

  /** `DropTicks` keeps the first character of `s` unless `s` starts with three backticks. */
  lemma DropTicksHead(s: string)
    requires DropTicks(s) != [] && DropTicks(s)[0] == '`'
    ensures s != [] && s[0] == '`'
  {
  }

  /** If what `DropTicks` leaves starts with two backticks, so did its input. */
  lemma DropTicksTwoHead(s: string)
    requires |DropTicks(s)| >= 2 && DropTicks(s)[0] == '`' && DropTicks(s)[1] == '`'
    ensures |s| >= 2 && s[0] == '`' && s[1] == '`'
  {
    if !TicksAt(s, 0) {
      assert DropTicks(s) == [s[0]] + DropTicks(s[1..]);
      DropTicksHead(s[1..]);
    }
  }

  /**
   * No run of three backticks survives `replace(/```/g, "")`: a backtick the
   * scan keeps is never followed by two more, even across a removed run.
   */
  lemma {:induction false} DropTicksNoFence(s: string)
    ensures NoFence(DropTicks(s))
    decreases |s|
  {
    if s == [] {
    } else if TicksAt(s, 0) {
      DropTicksNoFence(s[3..]);
    } else {
      var rest := DropTicks(s[1..]);
      DropTicksNoFence(s[1..]);
      var r := DropTicks(s);
      assert r == [s[0]] + rest;
      forall i | 0 <= i < |r| ensures !TicksAt(r, i) {
        if i > 0 {
          assert !TicksAt(rest, i - 1);
        } else if |rest| >= 2 && rest[0] == '`' && rest[1] == '`' {
          DropTicksTwoHead(s[1..]);
          assert s[0] != '`';
        }
      }
    }
  }

  lemma NoFenceSlice(s: string, a: nat, b: nat)
    requires NoFence(s) && a <= b <= |s|
    ensures NoFence(s[a..b])
  {
    var t := s[a..b];
    forall i | 0 <= i < |t| ensures !TicksAt(t, i) {
      if TicksAt(t, i) {
        assert TicksAt(s, a + i);
      }
    }
  }

  /** What `autoTag` hands to `JSON.parse` never holds a code fence. */
  lemma StripFencesNoFence(response: string)
    ensures NoFence(StripFences(response))
  {
    var d := DropTicks(DropJsonFences(response));
    DropTicksNoFence(DropJsonFences(response));
    NoFenceSlice(d, TrimLo(d), TrimHi(d));
  }

  /** Text without backticks passes through both replacements unchanged. */
  lemma {:induction false} NoBackticksUnchanged(s: string)
    requires '`' !in s
    ensures DropJsonFences(s) == s && DropTicks(s) == s
  {
    if s != [] {
      NoBackticksTail(s);
      NoBackticksUnchanged(s[1..]);
      assert s == [s[0]] + s[1..];
    }
  }

  /** A reply that is already bare JSON text reaches `JSON.parse` exactly as it came. */
  lemma BareReplyUnchanged(response: string)
    requires '`' !in response
    requires response != [] ==> !IsSpace(response[0]) && !IsSpace(response[|response| - 1])
    ensures StripFences(response) == response
  {
    NoBackticksUnchanged(response);
    assert TrimLo(response) == 0;
    assert TrailingSpaces(response, 0) == 0;
  }

  /** Without its first character, text without backticks still has none. */
  lemma NoBackticksTail(b: string)
    requires b != [] && '`' !in b
    ensures '`' !in b[1..] && b[0] != '`'
  {
    forall ch | ch in b[1..] ensures ch != '`' {
      var i :| 0 <= i < |b[1..]| && b[1..][i] == ch;
      assert b[i + 1] == ch;
    }
  }

  /** `replace(/```json?\n?/g, "")` keeps text without backticks in front of whatever follows it. */
  lemma {:induction false} NoBackticksJsonPrefix(b: string, t: string)
    requires '`' !in b
    ensures DropJsonFences(b + t) == b + DropJsonFences(t)
  {
    if b != [] {
      var u := b + t;
      NoBackticksTail(b);
      assert u[0] == b[0] && u[1..] == b[1..] + t;
      assert !OpensJsonFence(u);
      assert DropJsonFences(u) == [b[0]] + DropJsonFences(b[1..] + t);
      NoBackticksJsonPrefix(b[1..], t);
      assert b == [b[0]] + b[1..];
    } else {
      assert b + t == t;
    }
  }

  /** `replace(/```/g, "")` keeps text without backticks in front of whatever follows it. */
  lemma {:induction false} NoBackticksTicksPrefix(b: string, t: string)
    requires '`' !in b
    ensures DropTicks(b + t) == b + DropTicks(t)
  {
    if b != [] {
      var u := b + t;
      NoBackticksTail(b);
      assert u[0] == b[0] && u[1..] == b[1..] + t;
      assert !TicksAt(u, 0);
      assert DropTicks(u) == [b[0]] + DropTicks(b[1..] + t);
      NoBackticksTicksPrefix(b[1..], t);
      assert b == [b[0]] + b[1..];
    } else {
      assert b + t == t;
    }
  }

  /**
   * A reply that wraps its JSON in a ```json fence, the formatting the
   * cleanup exists for, reaches `JSON.parse` as the trimmed text inside the
   * fence.
   */
  lemma FencedReply(body: string)
    requires '`' !in body
    ensures StripFences("```json\n" + body + "\n```") == Trim(body)
  {
    var reply := "```json\n" + body + "\n```";
    assert OpensJsonFence(reply) && JsonFenceLength(reply) == 8;
    assert reply[8..] == body + "\n```";
    NoBackticksJsonPrefix(body, "\n```");
    NoBackticksTicksPrefix(body, "\n```");
    assert DropJsonFences("\n```") == "\n```" by {
      assert DropJsonFences("\n```") == "\n" + DropJsonFences("```");
      assert DropJsonFences("```") == "`" + DropJsonFences("``");
      assert DropJsonFences("``") == "`" + DropJsonFences("`");
      assert DropJsonFences("`") == "`" + DropJsonFences("");
    }
    assert DropTicks("\n```") == "\n" by {
      assert DropTicks("\n```") == "\n" + DropTicks("```");
      assert TicksAt("```", 0);
      assert "```"[3..] == "";
    }
    TrimTrailingSpace(body, '\n');
  }

  // ---------------------------------------------------------------------------
  // Reading the parsed reply
  // ---------------------------------------------------------------------------

  /**
   * The `try` block after `JSON.parse`: `categories` as given when it is an
   * array, else `[category]` when that is truthy, else `["other"]`; `title`
   * and `summary` as given when truthy, else "". A parse that throws, or a
   * reply of `null` (whose properties cannot be read), gives the fallback.
   */
  function ReadTags(parsed: Option<Json>): Tags {
    match parsed
    case None => FallbackTags
    case Some(v) =>
      if v.JNull? then FallbackTags
      else
        var cats := Get(v, "categories");
        var category := Get(v, "category");
        var categories :=
          if cats.JArr? then cats.items
          else if Truthy(category) then [category]
          else [JStr(Other)];
        Tags(categories, Or(Get(v, "title"), JStr("")), Or(Get(v, "summary"), JStr("")))
  }

  /** A reply that cannot be parsed, or parses to `null`, gives exactly the fallback, whose one category is a real one. */
  lemma ReadTagsFallback(parsed: Option<Json>)
    requires parsed.None? || parsed == Some(JNull)
    ensures ReadTags(parsed) == FallbackTags
    ensures ReadTags(parsed).categories == [JStr(Other)] && Other in Categories
  {
    CategoriesShape();
  }

  /**
   * How the categories are resolved: an array in the reply is taken as it
   * is (even an empty one), a truthy `category` becomes a one-element list,
   * and otherwise the list is `["other"]`. So the list is empty exactly
   * when the reply's `categories` is an empty array.
   */
  lemma ReadTagsCategories(v: Json)
    requires !v.JNull?
    ensures Get(v, "categories").JArr? ==> ReadTags(Some(v)).categories == Get(v, "categories").items
    ensures !Get(v, "categories").JArr? && Truthy(Get(v, "category")) ==>
              ReadTags(Some(v)).categories == [Get(v, "category")]
    ensures !Get(v, "categories").JArr? && !Truthy(Get(v, "category")) ==>
              ReadTags(Some(v)).categories == [JStr(Other)]
    ensures ReadTags(Some(v)).categories == [] <==> Get(v, "categories") == JArr([])
  {
  }

  /**
   * The title and summary are either a truthy value taken from the reply or
   * "": a truthy `title` or `summary` in the reply is kept as it is, and any
   * other value becomes "".
   */
  lemma ReadTagsText(parsed: Option<Json>)
    ensures var t := ReadTags(parsed);
            && (t.title == JStr("") || Truthy(t.title))
            && (t.summary == JStr("") || Truthy(t.summary))
            && (Truthy(t.title) ==> parsed.Some? && !parsed.value.JNull? && t.title == Get(parsed.value, "title"))
            && (Truthy(t.summary) ==> parsed.Some? && !parsed.value.JNull? && t.summary == Get(parsed.value, "summary"))
    ensures parsed.Some? && !parsed.value.JNull? ==>
              var v := parsed.value;
              && ReadTags(parsed).title == (if Truthy(Get(v, "title")) then Get(v, "title") else JStr(""))
              && ReadTags(parsed).summary == (if Truthy(Get(v, "summary")) then Get(v, "summary") else JStr(""))
  {
  }

  /**
   * `autoTag(text)`: `None` when the model call throws (it sits outside the
   * `try`, so the error reaches the caller); otherwise the reply read as above.
   */
  function AutoTag(svc: TagServices, text: string): Option<Tags> {
    match svc.generate(TagPrompt(text))
    case None => None
    case Some(response) => Some(ReadTags(svc.parseJson(StripFences(response))))
  }

  /** The tags depend on the first 3000 characters of the content only. */
  lemma AutoTagPrefixOnly(svc: TagServices, a: string, b: string)
    requires Prefix(a, PromptContentLength) == Prefix(b, PromptContentLength)
    ensures AutoTag(svc, a) == AutoTag(svc, b)
  {
    PromptPrefixOnly(Instructions(), a, b);
  }
}
