/**
 * Webhook notifications: placeholder substitution over a JSON payload template, the
 * payload built with or without a template, and the HTTP request the configured method
 * selects. The sending itself is a parameter.
 */
module Notification {
  import opened Wrappers
  import opened Text
  import opened JsonTree
  import opened Schemas

  /** `"{" + key + "}"`. */
  function Braced(key: string): string
  {
    "{" + key + "}"
  }

  /** One key of the replacement table: `{{key}}` first, then `{key}`. */
  function ReplaceKey(s: string, key: string, value: string): string
  {
    Replace(Replace(s, "{" + Braced(key) + "}", value), Braced(key), value)
  }

  /** The string branch of `replace_placeholders_in_data`: the keys of the table in order. */
  function ReplaceKeys(s: string, reps: seq<(string, string)>): string
  {
    if reps == [] then s
    else ReplaceKey(ReplaceKeys(s, reps[..|reps| - 1]), reps[|reps| - 1].0, reps[|reps| - 1].1)
  }

  /** The same string rewrite as a loop over the table. */
  method ReplaceKeysInString(s: string, reps: seq<(string, string)>) returns (r: string)
    ensures r == ReplaceKeys(s, reps)
  {
    r := s;
    for i := 0 to |reps|
      invariant r == ReplaceKeys(s, reps[..i])
    {
      assert reps[..i + 1][..i] == reps[..i];
      var (key, value) := reps[i];
      assert "{{" + key + "}}" == "{" + Braced(key) + "}";
      r := Replace(r, "{{" + key + "}}", value);
      r := Replace(r, "{" + key + "}", value);
    }
    assert reps[..|reps|] == reps;
  }

  /**
   * `replace_placeholders_in_data`: dictionaries keep their keys, lists their length and
   * order, strings are rewritten, and every other leaf is returned as it is.
   */
  function Substitute(j: Json, reps: seq<(string, string)>): (r: Json)
    ensures j.JObj? ==> r.JObj? && r.fields.Keys == j.fields.Keys
    ensures j.JArr? ==> r.JArr? && |r.items| == |j.items|
    ensures j.JStr? ==> r == JStr(ReplaceKeys(j.s, reps))
    ensures (j.JNull? || j.JBool? || j.JInt?) ==> r == j
    decreases j
  {
    match j
    case JObj(fields) => JObj(map k | k in fields :: Substitute(fields[k], reps))
    case JArr(items) => JArr(seq(|items|, i requires 0 <= i < |items| => Substitute(items[i], reps)))
    case JStr(s) => JStr(ReplaceKeys(s, reps))
    case _ => j
  }

  /** Substitution acts on each entry and each item separately. */
  lemma SubstitutePointwise(j: Json, reps: seq<(string, string)>)
    ensures j.JObj? ==> forall k :: k in j.fields ==> Substitute(j, reps).fields[k] == Substitute(j.fields[k], reps)
    ensures j.JArr? ==> forall i :: 0 <= i < |j.items| ==> Substitute(j, reps).items[i] == Substitute(j.items[i], reps)
  {
  }

  // ---------------------------------------------------------------- "no placeholder, no change"

  /** A string that contains `a + q + b` contains `q`. */
  lemma {:induction false} ContainsInner(s: string, a: string, q: string, b: string)
    requires Contains(s, a + q + b)
    ensures Contains(s, q)
    decreases |s|
  {
    if a + q + b <= s {
      assert q <= s[|a|..] by {
        assert (a + q + b)[|a|..|a| + |q|] == q;
      }
      ContainsAt(s, q, |a|);
    } else {
      ContainsInner(s[1..], a, q, b);
    }
  }

  /** A string in which no key of the table appears in braces is returned unchanged. */
  lemma {:induction false} NoPlaceholderUnchanged(s: string, reps: seq<(string, string)>)
    requires forall i :: 0 <= i < |reps| ==> !Contains(s, Braced(reps[i].0))
    ensures ReplaceKeys(s, reps) == s
  {
    if reps != [] {
      NoPlaceholderUnchanged(s, reps[..|reps| - 1]);
      var key := reps[|reps| - 1].0;
      if Contains(s, "{" + Braced(key) + "}") {
        ContainsInner(s, "{", Braced(key), "}");
      }
    }
  }

  /** The double-brace form is replaced first, so `{{key}}` does not leave a stray pair of braces. */
  lemma DoubleBraceFirst()
    ensures ReplaceKeys("{{name}}", [("name", "Bob")]) == "Bob"
  {
    assert [("name", "Bob")][..0] == [];
    assert Replace("{{name}}", "{{name}}", "Bob") == "Bob" by {
      assert "{{name}}"[8..] == "";
    }
  }

  // ---------------------------------------------------------------- the payload

  /** What the executor passes into `send_webhook_notification`. */
  datatype WebhookContext = WebhookContext(
    baseContent: string,
    recipient: string,
    triggeringUserId: Option<string>,
    mentionNickname: Option<string>,
    atTarget: Option<string>,
    taskName: Option<string>,
    taskDescription: Option<string>)

  /** The text sent: prefixed with "@<nickname, else the @ target> " exactly when there is an @ target. */
  function TextContent(c: WebhookContext): (r: string)
    ensures Truthy(c.atTarget) ==> r == "@" + OrElse(c.mentionNickname, c.atTarget.value) + " " + c.baseContent
    ensures !Truthy(c.atTarget) ==> r == c.baseContent
  {
    if Truthy(c.atTarget) then "@" + OrElse(c.mentionNickname, c.atTarget.value) + " " + c.baseContent
    else c.baseContent
  }

  /** The replacement table, in the order the keys are applied. */
  function Replacements(c: WebhookContext): seq<(string, string)>
  {
    [("content", TextContent(c)),
     ("base_content", c.baseContent),
     ("user_id", c.recipient),
     ("triggering_user_id", OrElse(c.triggeringUserId, "")),
     ("target_chat_id", c.recipient),
     ("mention_nickname", OrElse(c.mentionNickname, "")),
     ("task_name", OrElse(c.taskName, "")),
     ("task_description", OrElse(c.taskDescription, ""))]
  }

  /** The payload used when the channel has no (or an empty) template. */
  function SimplePayload(c: WebhookContext): Json
  {
    var item := map["ToUserName" := JStr(c.recipient), "TextContent" := JStr(TextContent(c)), "MsgType" := JInt(0)];
    var item' := if Truthy(c.atTarget) then item["AtWxIDList" := JArr([JStr(c.atTarget.value)])] else item;
    JObj(map["MsgItem" := JArr([JObj(item')])])
  }

  /** The payload has a list under "MsgItem" whose first item is a dictionary. */
  predicate HasFirstItem(p: Json)
  {
    p.JObj? && "MsgItem" in p.fields && p.fields["MsgItem"].JArr? &&
    |p.fields["MsgItem"].items| > 0 && p.fields["MsgItem"].items[0].JObj?
  }

  function FirstItem(p: Json): map<string, Json>
    requires HasFirstItem(p)
  {
    p.fields["MsgItem"].items[0].fields
  }

  /** The payload with its first item replaced. */
  function WithFirstItem(p: Json, item: map<string, Json>): (r: Json)
    requires HasFirstItem(p)
    ensures HasFirstItem(r) && FirstItem(r) == item
  {
    var items := p.fields["MsgItem"].items;
    JObj(p.fields["MsgItem" := JArr(items[0 := JObj(item)])])
  }

  /** The first item after the @ fix-up and the recipient fix-up. */
  function FixedItem(item: map<string, Json>, c: WebhookContext): map<string, Json>
  {
    var withAt :=
      if Truthy(c.atTarget) then item["AtWxIDList" := JArr([JStr(c.atTarget.value)])]
      else if "AtWxIDList" in item && item["AtWxIDList"] == JArr([JStr("string")]) then item["AtWxIDList" := JArr([])]
      else item;
    if Get(withAt, "ToUserName") != JStr(c.recipient) then withAt["ToUserName" := JStr(c.recipient)] else withAt
  }

  /**
   * The templated payload: the template with placeholders substituted, then, when it holds
   * a first message item that is a dictionary, that item's @ list and recipient fixed.
   * The template is a fresh deep copy, so the in-place fix-ups are modelled on values.
   */
  function TemplatePayload(template: map<string, Json>, c: WebhookContext): Json
  {
    var p := Substitute(JObj(template), Replacements(c));
    if HasFirstItem(p) then WithFirstItem(p, FixedItem(FirstItem(p), c)) else p
  }

  /**
   * The payload `send_webhook_notification` sends. The template is a dictionary, so the
   * payload always is one.
   */
  function Payload(w: WebhookChannel, c: WebhookContext): (r: Json)
    ensures r.JObj?
  {
    if w.payloadTemplate.None? || w.payloadTemplate.value == map[] then SimplePayload(c)
    else TemplatePayload(w.payloadTemplate.value, c)
  }

  /**
   * Without a template the payload is one message item addressed to the recipient, of
   * type 0 and carrying the text content, with an @ list exactly when there is an @ target.
   */
  lemma SimplePayloadShape(c: WebhookContext)
    ensures var p := SimplePayload(c);
      HasFirstItem(p) && |p.fields["MsgItem"].items| == 1 &&
      FirstItem(p)["ToUserName"] == JStr(c.recipient) && FirstItem(p)["MsgType"] == JInt(0) &&
      FirstItem(p)["TextContent"] == JStr(TextContent(c)) &&
      ("AtWxIDList" in FirstItem(p) <==> Truthy(c.atTarget)) &&
      (Truthy(c.atTarget) ==> FirstItem(p)["AtWxIDList"] == JArr([JStr(c.atTarget.value)]))
  {
  }

  /**
   * With a template whose first message item is a dictionary, that item is addressed to
   * the recipient; its @ list is the @ target when there is one, the template's literal
   * `["string"]` becomes empty, and any other @ list is left alone. Every other key of the
   * item keeps its substituted value.
   */
  lemma TemplateFixUps(template: map<string, Json>, c: WebhookContext)
    requires HasFirstItem(Substitute(JObj(template), Replacements(c)))
    ensures var sub := FirstItem(Substitute(JObj(template), Replacements(c)));
      var p := TemplatePayload(template, c);
      HasFirstItem(p) && FirstItem(p)["ToUserName"] == JStr(c.recipient) &&
      (Truthy(c.atTarget) ==> FirstItem(p)["AtWxIDList"] == JArr([JStr(c.atTarget.value)])) &&
      (!Truthy(c.atTarget) && "AtWxIDList" in sub && sub["AtWxIDList"] == JArr([JStr("string")]) ==>
        FirstItem(p)["AtWxIDList"] == JArr([])) &&
      (!Truthy(c.atTarget) && "AtWxIDList" in sub && sub["AtWxIDList"] != JArr([JStr("string")]) ==>
        FirstItem(p)["AtWxIDList"] == sub["AtWxIDList"]) &&
      (!Truthy(c.atTarget) ==> ("AtWxIDList" in FirstItem(p) <==> "AtWxIDList" in sub)) &&
      (forall k :: k in sub && k != "ToUserName" && k != "AtWxIDList" ==> k in FirstItem(p) && FirstItem(p)[k] == sub[k])
  {
  }

  /** A template without a first message item that is a dictionary is only substituted. */
  lemma TemplateWithoutItem(template: map<string, Json>, c: WebhookContext)
    requires !HasFirstItem(Substitute(JObj(template), Replacements(c)))
    ensures TemplatePayload(template, c) == Substitute(JObj(template), Replacements(c))
  {
  }

  // ---------------------------------------------------------------- the request

  datatype WebhookRequest =
    | PostJson(url: string, body: Json, headers: Option<map<string, string>>)
    | GetQuery(url: string, params: map<string, Json>, headers: Option<map<string, string>>)

  /**
   * The request the configured method selects, compared upper-cased: POST sends the
   * payload as JSON; GET sends its fields as query parameters, adding the triggering user as
   * `user_id` when the payload has none and there is a triggering user; any other method
   * sends nothing. Either request carries the configured url and headers.
   */
  function BuildRequest(w: WebhookChannel, c: WebhookContext): (r: Option<WebhookRequest>)
    ensures r.None? <==> Upper(w.httpMethod) != "POST" && Upper(w.httpMethod) != "GET"
    ensures Upper(w.httpMethod) == "POST" ==> r == Some(PostJson(w.url, Payload(w, c), w.headers))
    ensures Upper(w.httpMethod) == "GET" ==>
      (r.Some? && r.value.GetQuery? && r.value.url == w.url && r.value.headers == w.headers)
    ensures r.Some? && r.value.GetQuery? ==> var p := Payload(w, c).fields;
      forall k :: k in p ==> k in r.value.params && r.value.params[k] == p[k]
    ensures r.Some? && r.value.GetQuery? ==> var p := Payload(w, c).fields;
      forall k :: k in r.value.params ==> k in p || (k == "user_id" && Truthy(c.triggeringUserId))
    ensures (r.Some? && r.value.GetQuery? && Truthy(c.triggeringUserId) && "user_id" !in Payload(w, c).fields) ==>
      ("user_id" in r.value.params && r.value.params["user_id"] == JStr(c.triggeringUserId.value))
  {
    var p := Payload(w, c);
    var m := Upper(w.httpMethod);
    if m == "POST" then Some(PostJson(w.url, p, w.headers))
    else if m == "GET" then
      var params := if p.JObj? then p.fields else map["content" := JStr(c.baseContent)];
      var params' := if Truthy(c.triggeringUserId) && "user_id" !in params then params["user_id" := JStr(c.triggeringUserId.value)] else params;
      Some(GetQuery(w.url, params', w.headers))
    else None
  }

  /** The method is case-insensitive. */
  lemma MethodCaseInsensitive(w: WebhookChannel, c: WebhookContext)
    ensures BuildRequest(w.(httpMethod := Upper(w.httpMethod)), c).None? <==> BuildRequest(w, c).None?
  {
    UpperIdempotent(w.httpMethod);
  }

  /** `send_webhook_notification`: false without a request, else whether the request succeeded. */
  function SendWebhook(w: WebhookChannel, c: WebhookContext, http: WebhookRequest -> bool): bool
  {
    match BuildRequest(w, c)
    case None => false
    case Some(req) => http(req)
  }

  /** An unsupported method reports failure whatever the network would do. */
  lemma UnsupportedMethodFails(w: WebhookChannel, c: WebhookContext, http: WebhookRequest -> bool)
    requires Upper(w.httpMethod) != "POST" && Upper(w.httpMethod) != "GET"
    ensures !SendWebhook(w, c, http)
  {
  }
}
