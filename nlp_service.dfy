/**
 * The natural-language parsing service around the model call: the configuration check,
 * the two-message prompt and the request body, reading the answer's content, removing a
 * Markdown code fence, and repairing `limit_days` given as comma-separated text.
 * The HTTP call and `json.loads` are parameters.
 */
module NlpService {
  import opened Wrappers
  import opened Text
  import opened JsonTree

  /** `AI_API_URL`, `AI_API_KEY` and `AI_MODEL_NAME`. */
  datatype AiSettings = AiSettings(apiUrl: Option<string>, apiKey: Option<string>, modelName: Option<string>)

  /** All three settings are set and non-empty. */
  predicate AiConfigured(s: AiSettings)
  {
    Truthy(s.apiUrl) && Truthy(s.apiKey) && Truthy(s.modelName)
  }

  // ---------------------------------------------------------------- prompt and request

  function ChatMessage(role: string, content: string): Json
  {
    JObj(map["role" := JStr(role), "content" := JStr(content)])
  }

  /** The user message: a fixed instruction followed by the quoted query. */
  function UserPromptContent(query: string): (r: string)
    ensures EndsWith(r, "\"" + query + "\"")
  {
    var r := "请将以下用户完整请求解析为JSON格式的指令对象：\n\n用户请求: \"" + query + "\"";
    assert r[|r| - |query| - 2..] == "\"" + query + "\"";
    r
  }

  /**
   * `get_task_parsing_prompt`: exactly a system message and a user message. The system text
   * (the output schema, the current time and the requesting user) is given.
   */
  function TaskParsingPrompt(query: string, systemContent: string): (r: seq<Json>)
    ensures |r| == 2
    ensures r[0] == ChatMessage("system", systemContent)
    ensures r[1] == ChatMessage("user", UserPromptContent(query))
  {
    [ChatMessage("system", systemContent), ChatMessage("user", UserPromptContent(query))]
  }

  /** The model answer quotes the query at the end of the user message. */
  lemma PromptEmbedsQuery(query: string, systemContent: string)
    ensures var m := TaskParsingPrompt(query, systemContent)[1];
      m.JObj? && m.fields["role"] == JStr("user") && m.fields["content"].JStr? &&
      Contains(m.fields["content"].s, query)
  {
    var c := UserPromptContent(query);
    var at := |c| - |query| - 1;
    assert c[at..] == query + "\"";
    ContainsAt(c, query, at);
  }

  /** The request body: the model name, the messages, and a JSON-object response format. */
  function RequestBody(modelName: string, messages: seq<Json>): Json
  {
    JObj(map["model" := JStr(modelName), "messages" := JArr(messages),
             "response_format" := JObj(map["type" := JStr("json_object")])])
  }

  // ---------------------------------------------------------------- reading the answer

  /**
   * `choices[0].message.content` when `choices` is a non-empty list, `message` a non-empty
   * dictionary and `content` non-empty text; anything else yields no content (an answer of
   * another shape raises inside the handler, which then also yields `None`).
   */
  function AnswerContent(answer: Json): (r: Option<string>)
    ensures r.Some? ==> r.value != ""
  {
    if !answer.JObj? then None
    else
      var choices := Get(answer.fields, "choices");
      if !choices.JArr? || |choices.items| == 0 || !choices.items[0].JObj? then None
      else
        var message := Get(choices.items[0].fields, "message");
        if !message.JObj? || message.fields == map[] then None
        else
          var content := Get(message.fields, "content");
          if content.JStr? && content.s != "" then Some(content.s) else None
  }

  /** The answer dictionary the model is expected to send, with `content` as its text. */
  function WellFormedAnswer(content: string): Json
  {
    JObj(map["choices" := JArr([JObj(map["message" := JObj(map["role" := JStr("assistant"), "content" := JStr(content)])])])])
  }

  /** The content of a well-formed answer is read back unchanged; without choices there is none. */
  lemma AnswerContentRoundTrip(content: string)
    requires content != ""
    ensures AnswerContent(WellFormedAnswer(content)) == Some(content)
    ensures AnswerContent(JObj(map["choices" := JArr([])])) == None
  {
    var a := WellFormedAnswer(content);
    var choice := JObj(map["message" := JObj(map["role" := JStr("assistant"), "content" := JStr(content)])]);
    assert Get(a.fields, "choices") == JArr([choice]);
    var message := Get(choice.fields, "message");
    assert message == JObj(map["role" := JStr("assistant"), "content" := JStr(content)]);
    assert "role" in message.fields;
    assert Get(message.fields, "content") == JStr(content);
  }

  /**
   * `content.split(open, 1)[1].rsplit("```", 1)[0].strip()`: the text after the first
   * `open`, cut at the last "```", stripped.
   */
  function FenceBody(content: string, open: string): string
    requires Contains(content, open)
  {
    Strip(BeforeLast(AfterFirst(content, open), "```"))
  }

  /**
   * A leading "```json" fence (after stripping) is removed with everything up to its first
   * occurrence and from the last "```"; a leading plain "```" fence likewise; other text is
   * kept as it is.
   */
  function StripFences(content: string): string
  {
    if StartsWith(Strip(content), "```json") then
      StripPrefixOccurs(content, "```json");
      FenceBody(content, "```json")
    else if StartsWith(Strip(content), "```") then
      StripPrefixOccurs(content, "```");
      FenceBody(content, "```")
    else content
  }

  /** Stripped text that starts with "```json" loses that fence. */
  lemma JsonFenceTaken(s: string)
    requires StartsWith(Strip(s), "```json")
    ensures Contains(s, "```json") && StripFences(s) == FenceBody(s, "```json")
  {
    StripPrefixOccurs(s, "```json");
  }

  /** Stripped text that starts with "```" but not "```json" loses the plain fence. */
  lemma PlainFenceTaken(s: string)
    requires StartsWith(Strip(s), "```") && !StartsWith(Strip(s), "```json")
    ensures Contains(s, "```") && StripFences(s) == FenceBody(s, "```")
  {
    StripPrefixOccurs(s, "```");
  }

  /** A prefix of the stripped text occurs in the text itself. */
  lemma StripPrefixOccurs(s: string, p: string)
    requires StartsWith(Strip(s), p)
    ensures Contains(s, p)
  {
    var l := LStrip(s);
    var a := |s| - |l|;
    assert Strip(s) == RStrip(l);
    assert RStrip(l) == l[..|RStrip(l)|];
    assert p <= l;
    assert l == s[a..];
    ContainsAt(s, p, a);
  }

  /** The body between an opening marker at the very start and a closing "```" at the very end. */
  lemma FenceBodyOf(open: string, body: string)
    ensures Contains(open + body + "```", open)
    ensures FenceBody(open + body + "```", open) == Strip(body)
  {
    var s := open + body + "```";
    assert open <= s;
    ContainsAt(s, open, 0);
    assert Find(s, open) == Some(0);
    assert AfterFirst(s, open) == s[|open|..];
    var t := body + "```";
    assert s[|open|..] == t;
    assert t[|t| - 3..] == "```";
    assert RFind(t, "```") == Some(|body|);
    assert BeforeLast(t, "```") == body;
  }

  /** Text beginning with a marker that starts with a backtick, and ending with a backtick, still starts with the marker once stripped. */
  lemma BacktickedUnstripped(s: string, open: string)
    requires open <= s && |open| >= 1 && open[0] == '`' && |s| >= 1 && s[|s| - 1] == '`'
    ensures StartsWith(Strip(s), open)
  {
    assert !IsSpace('`');
    assert Strip(s) == s;
  }

  /** A body between an opening marker that begins with a backtick and a closing "```" is its own `strip()`, and starts with the marker. */
  lemma FencedUnstripped(open: string, body: string)
    requires |open| >= 1 && open[0] == '`'
    ensures StartsWith(Strip(open + body + "```"), open)
  {
    var s := open + body + "```";
    assert s[|s| - 1] == '`';
    assert open <= s;
    BacktickedUnstripped(s, open);
  }

  /** A "```json" fence around a body gives back the stripped body. */
  lemma JsonFenceRemoved(body: string)
    ensures StripFences("```json" + body + "```") == Strip(body)
  {
    var s := "```json" + body + "```";
    FenceBodyOf("```json", body);
    FencedUnstripped("```json", body);
    JsonFenceTaken(s);
  }

  /** A body that does not begin with "json" behind a plain fence is not a "```json" fence. */
  lemma NotJsonFence(body: string)
    requires !StartsWith(body, "json")
    ensures !StartsWith("```" + body + "```", "```json")
  {
    var s := "```" + body + "```";
    if |body| >= 4 {
      assert body[..4] != "json";
      assert s[..7][3..7] == body[..4];
      assert "```json"[3..7] == "json";
    } else if |s| >= 7 {
      var k := |body|;
      assert s[3 + k] == '`';
      assert "```json"[3 + k] != '`';
      assert s[..7][3 + k] == s[3 + k];
    }
  }

  /** A plain "```" fence around a body that does not begin with "json" gives back the stripped body. */
  lemma PlainFenceRemoved(body: string)
    requires !StartsWith(body, "json")
    ensures StripFences("```" + body + "```") == Strip(body)
  {
    var s := "```" + body + "```";
    FenceBodyOf("```", body);
    FencedUnstripped("```", body);
    NotJsonFence(body);
    PlainFenceTaken(s);
  }

  /** Text whose stripped form does not start with a fence is kept as it is. */
  lemma UnfencedKept(content: string)
    requires !StartsWith(Strip(content), "```")
    ensures StripFences(content) == content
  {
  }

  // ---------------------------------------------------------------- limit_days repair

  /** The String values of a list of texts, in order. */
  function Strings(items: seq<string>): (r: seq<Json>)
    ensures |r| == |items|
    ensures forall k :: 0 <= k < |r| ==> r[k] == JStr(items[k])
  {
    seq(|items|, k requires 0 <= k < |items| => JStr(items[k]))
  }

  /**
   * The items of comma-separated text: split on ',', trimmed, empty ones dropped. Exactly
   * the non-blank pieces appear, each as stripped text without a comma.
   */
  function LimitDaysItems(text: string): (r: seq<Json>)
    ensures forall k :: 0 <= k < |r| ==> r[k].JStr? && r[k].s != "" && Strip(r[k].s) == r[k].s && ',' !in r[k].s
    ensures forall x :: JStr(x) in r <==> x in StripAll(Split(text, ',')) && x != ""
  {
    var items := SplitItems(text, ',');
    StringsMembership(items);
    Strings(items)
  }

  lemma StringsMembership(items: seq<string>)
    ensures forall x :: JStr(x) in Strings(items) <==> x in items
  {
    var r := Strings(items);
    forall x
      ensures JStr(x) in r <==> x in items
    {
      if JStr(x) in r {
        var k :| 0 <= k < |r| && r[k] == JStr(x);
        assert items[k] == x;
      }
      if x in items {
        var k :| 0 <= k < |items| && items[k] == x;
        assert r[k] == JStr(x);
      }
    }
  }

  /** The items keep their order: text joined by a comma lists the first part's items, then the second's. */
  lemma LimitDaysItemsAppend(a: string, b: string)
    ensures LimitDaysItems(a + "," + b) == LimitDaysItems(a) + LimitDaysItems(b)
  {
    assert a + "," + b == a + [','] + b;
    SplitItemsAppend(a, b, ',');
    StringsAppend(SplitItems(a, ','), SplitItems(b, ','));
  }

  lemma StringsAppend(l: seq<string>, m: seq<string>)
    ensures Strings(l + m) == Strings(l) + Strings(m)
  {
  }

  /** Text without a comma is a single item, or none when it is blank. */
  lemma SingleLimitDay(text: string)
    requires ',' !in text
    ensures LimitDaysItems(text) == (if Strip(text) == "" then [] else [JStr(Strip(text))])
  {
    SplitItemsSingle(text, ',');
  }

  /**
   * `fix_limit_days_in_cron_config`: a text `limit_days` becomes the list of its items;
   * every other key, and a `limit_days` that is not text, is left as it is.
   */
  function FixLimitDays(cron: map<string, Json>): (r: map<string, Json>)
    ensures r.Keys == cron.Keys
    ensures forall k :: k in cron && k != "limit_days" ==> r[k] == cron[k]
    ensures "limit_days" in cron && cron["limit_days"].JStr? ==> r["limit_days"] == JArr(LimitDaysItems(cron["limit_days"].s))
    ensures "limit_days" in cron && !cron["limit_days"].JStr? ==> r == cron
  {
    if "limit_days" in cron && cron["limit_days"].JStr? then cron["limit_days" := JArr(LimitDaysItems(cron["limit_days"].s))]
    else cron
  }

  /** The repair applied twice is the repair applied once. */
  lemma FixLimitDaysIdempotent(cron: map<string, Json>)
    ensures FixLimitDays(FixLimitDays(cron)) == FixLimitDays(cron)
  {
  }

  /**
   * The repairs applied to a parsed answer: to a top-level `cron_config` dictionary, and to
   * `update_fields.cron_config` only for UPDATE_TASK. A parsed value that is not a dictionary
   * makes the handler raise, which yields `None`.
   */
  function FixParsed(parsed: Json): (r: Option<Json>)
    ensures r.Some? <==> parsed.JObj?
    ensures r.Some? ==> r.value.JObj? && r.value.fields.Keys == parsed.fields.Keys
    ensures r.Some? ==> forall k :: k in parsed.fields && k != "cron_config" && k != "update_fields" ==> r.value.fields[k] == parsed.fields[k]
  {
    if !parsed.JObj? then None
    else Some(JObj(RepairUpdateFields(RepairTopLevel(parsed.fields))))
  }

  /** The top-level repair: a `cron_config` dictionary has its `limit_days` fixed; nothing else changes. */
  function RepairTopLevel(p: map<string, Json>): (r: map<string, Json>)
    ensures r.Keys == p.Keys
    ensures forall k :: k in p && k != "cron_config" ==> r[k] == p[k]
    ensures "cron_config" in p && p["cron_config"].JObj? ==> r["cron_config"] == JObj(FixLimitDays(p["cron_config"].fields))
    ensures !("cron_config" in p && p["cron_config"].JObj?) ==> r == p
  {
    if "cron_config" in p && p["cron_config"].JObj? then p["cron_config" := JObj(FixLimitDays(p["cron_config"].fields))] else p
  }

  /**
   * The UPDATE_TASK repair: a `cron_config` dictionary inside an `update_fields` dictionary has
   * its `limit_days` fixed; nothing else changes, and nothing at all outside UPDATE_TASK.
   */
  function RepairUpdateFields(p: map<string, Json>): (r: map<string, Json>)
    ensures r.Keys == p.Keys
    ensures forall k :: k in p && k != "update_fields" ==> r[k] == p[k]
    ensures Get(p, "operation") != JStr("UPDATE_TASK") ==> r == p
  {
    var u := Get(p, "update_fields");
    if Get(p, "operation") == JStr("UPDATE_TASK") && u.JObj? && "cron_config" in u.fields && u.fields["cron_config"].JObj? then
      p["update_fields" := JObj(u.fields["cron_config" := JObj(FixLimitDays(u.fields["cron_config"].fields))])]
    else p
  }

  /** Outside UPDATE_TASK the update fields are left alone, whatever they hold. */
  lemma UpdateFieldsOnlyForUpdate(parsed: Json)
    requires parsed.JObj? && Get(parsed.fields, "operation") != JStr("UPDATE_TASK") && "update_fields" in parsed.fields
    ensures FixParsed(parsed).value.fields["update_fields"] == parsed.fields["update_fields"]
  {
  }

  /** After the repairs, a top-level `cron_config` dictionary holds no text `limit_days`. */
  lemma TopLevelRepaired(parsed: Json)
    requires parsed.JObj? && "cron_config" in parsed.fields && parsed.fields["cron_config"].JObj?
    ensures var c := FixParsed(parsed).value.fields["cron_config"];
      c.JObj? && c.fields.Keys == parsed.fields["cron_config"].fields.Keys &&
      ("limit_days" in c.fields ==> !c.fields["limit_days"].JStr?)
  {
  }

  // ---------------------------------------------------------------- the whole call

  /**
   * `parse_natural_language_to_task_info`: `None` without a request when the settings are
   * incomplete; otherwise the request's answer (`None` for an HTTP or network error), its
   * content, the fence removal, decoding (`None` for text that is not JSON) and the repairs.
   */
  function ParseNaturalLanguage(query: string, systemContent: string, settings: AiSettings,
                                http: Json -> Option<Json>, decode: string -> Option<Json>): Option<Json>
  {
    if !AiConfigured(settings) then None
    else
      match http(RequestBody(settings.modelName.value, TaskParsingPrompt(query, systemContent)))
      case None => None
      case Some(answer) =>
        match AnswerContent(answer)
        case None => None
        case Some(content) =>
          match decode(StripFences(content))
          case None => None
          case Some(parsed) => FixParsed(parsed)
  }

  /** Incomplete settings give `None` whatever the network would answer: no request is made. */
  lemma UnconfiguredMakesNoRequest(query: string, systemContent: string, settings: AiSettings,
                                   h1: Json -> Option<Json>, h2: Json -> Option<Json>, decode: string -> Option<Json>)
    requires !AiConfigured(settings)
    ensures ParseNaturalLanguage(query, systemContent, settings, h1, decode) == None
    ensures ParseNaturalLanguage(query, systemContent, settings, h1, decode) == ParseNaturalLanguage(query, systemContent, settings, h2, decode)
  {
  }

  /**
   * A result is the repaired dictionary decoded from the fence-stripped content of the
   * answer to exactly the two-message prompt.
   */
  lemma ParsedResultOrigin(query: string, systemContent: string, settings: AiSettings,
                           http: Json -> Option<Json>, decode: string -> Option<Json>)
    ensures var r := ParseNaturalLanguage(query, systemContent, settings, http, decode);
      r.Some? ==>
        AiConfigured(settings) &&
        var answer := http(RequestBody(settings.modelName.value, TaskParsingPrompt(query, systemContent)));
        answer.Some? && AnswerContent(answer.value).Some? &&
        var parsed := decode(StripFences(AnswerContent(answer.value).value));
        parsed.Some? && parsed.value.JObj? && r == FixParsed(parsed.value)
  {
  }
}
