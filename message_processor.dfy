/**
 * The bridge's message processor: Dify user ids and the conversation store, the filter for
 * incoming WeChat messages, voice payload padding, the assembly of one Dify query from a
 * batch of messages, and the split of a Dify reply into text and image replies.
 * Downloads, audio conversion and the Dify calls are parameters.
 */
module MessageProcessor {
  import opened Wrappers
  import opened Text
  import opened JsonTree
  import CivilTime
  import DifyHandler
  import WechatClient

  type StandardMessage = WechatClient.StandardMessage

  // ---------------------------------------------------------------- users and conversations

  /** `get_dify_user_id`: no id for an empty sender, else the prefix followed by the sender. */
  function DifyUserId(prefix: string, senderId: Option<string>): (r: Option<string>)
    ensures r.None? <==> !Truthy(senderId)
    ensures r.Some? ==> StartsWith(r.value, prefix) && r.value[|prefix|..] == senderId.value
  {
    if !Truthy(senderId) then None
    else
      var r := prefix + senderId.value;
      assert r[|prefix|..] == senderId.value;
      Some(r)
  }

  /** Different senders get different Dify users, so their conversations never mix. */
  lemma DifyUserIdInjective(prefix: string, a: Option<string>, b: Option<string>)
    requires Truthy(a) && Truthy(b) && a != b
    ensures DifyUserId(prefix, a) != DifyUserId(prefix, b)
  {
  }

  /** The module-level store from a contact (room or sender) to its Dify conversation. */
  class ConversationStore {
    var conversations: map<string, string>

    constructor()
      ensures conversations == map[]
    {
      conversations := map[];
    }

    /** `get_dify_conversation_id`: the stored conversation, if any. */
    method Get(key: Option<string>) returns (r: Option<string>)
      ensures key.Some? && key.value in conversations ==> r == Some(conversations[key.value])
      ensures key.None? || key.value !in conversations ==> r.None?
    {
      if key.Some? && key.value in conversations {
        r := Some(conversations[key.value]);
      } else {
        r := None;
      }
    }

    /**
     * `set_dify_conversation_id`: records the conversation only when both key and id are
     * non-empty; other contacts keep theirs.
     */
    method Set(key: Option<string>, id: Option<string>)
      modifies this
      ensures Truthy(key) && Truthy(id) ==> conversations == old(conversations)[key.value := id.value]
      ensures !(Truthy(key) && Truthy(id)) ==> conversations == old(conversations)
    {
      if Truthy(key) && Truthy(id) {
        conversations := conversations[key.value := id.value];
      }
    }
  }

  /** After a write the store answers with the value written, and an ignored write keeps the old answer. */
  method LastWriteWins(store: ConversationStore, key: string, first: string, second: string) returns (r: Option<string>)
    requires key != "" && first != ""
    modifies store
    ensures r == (if second != "" then Some(second) else Some(first))
  {
    store.Set(Some(key), Some(first));
    store.Set(Some(key), Some(second));
    r := store.Get(Some(key));
  }

  // ---------------------------------------------------------------- incoming filter

  /**
   * `should_process_wechat_message`: a message is handled when it has a sender other than the
   * bot and is text, image or voice; a group message additionally has to mention the bot.
   * `None` stands for a value that is not a (non-empty) dictionary.
   */
  function ShouldProcess(msg: Option<StandardMessage>, botId: string): (r: bool)
    ensures r <==>
      msg.Some? && Truthy(msg.value.senderId) && msg.value.senderId.value != botId &&
      msg.value.kind.Some? && (!msg.value.isGroup || (botId != "" && botId in msg.value.atList))
  {
    if msg.None? then false
    else
      var m := msg.value;
      if !Truthy(m.senderId) then false
      else if m.senderId.value == botId then false
      else if m.kind.None? then false
      else if !m.isGroup then true
      else botId != "" && m.atList != [] && botId in m.atList
  }

  /** A group message that does not mention the bot is ignored, whatever else it holds. */
  lemma GroupNeedsMention(m: StandardMessage, botId: string)
    requires m.isGroup && botId !in m.atList
    ensures !ShouldProcess(Some(m), botId)
  {
  }

  /** The bot's own messages are never processed. */
  lemma OwnMessagesIgnored(m: StandardMessage, botId: string)
    requires m.senderId == Some(botId)
    ensures !ShouldProcess(Some(m), botId)
  {
  }

  // ---------------------------------------------------------------- voice payload

  /** `"".join(s.split())`: every whitespace character removed. */
  function RemoveWhitespace(s: string): (r: string)
    ensures |r| <= |s|
    ensures forall i :: 0 <= i < |r| ==> !IsSpace(r[i])
    ensures (forall i :: 0 <= i < |s| ==> !IsSpace(s[i])) ==> r == s
  {
    if s == [] then []
    else (if IsSpace(s[0]) then [] else [s[0]]) + RemoveWhitespace(s[1..])
  }

  function Repeat(c: char, n: nat): (r: string)
    ensures |r| == n && forall i :: 0 <= i < n ==> r[i] == c
  {
    if n == 0 then [] else [c] + Repeat(c, n - 1)
  }

  /** The base64 text with whitespace removed and '=' added up to a multiple of four characters. */
  function PadBase64(s: string): (r: string)
    ensures var clean := RemoveWhitespace(s);
      |r| % 4 == 0 && clean <= r && |r| - |clean| <= 3 &&
      (forall i :: |clean| <= i < |r| ==> r[i] == '=') &&
      (|clean| % 4 == 0 ==> r == clean)
  {
    var clean := RemoveWhitespace(s);
    var missing := |clean| % 4;
    if missing != 0 then clean + Repeat('=', 4 - missing) else clean
  }

  /** Padding is idempotent: padded text is padded already. */
  lemma PadBase64Idempotent(s: string)
    ensures PadBase64(PadBase64(s)) == PadBase64(s)
  {
    var r := PadBase64(s);
    var clean := RemoveWhitespace(s);
    assert forall i :: 0 <= i < |r| ==> !IsSpace(r[i]) by {
      forall i | 0 <= i < |r|
        ensures !IsSpace(r[i])
      {
        if i < |clean| {
          assert r[i] == clean[i];
        }
      }
    }
  }

  // ---------------------------------------------------------------- batch query

  /** What fetching an image gave: its size in bytes and file name, or the reason it failed. */
  datatype ImageFetch = ImageFetched(size: nat, fileName: string) | ImageUnavailable(reason: string)

  /**
   * What fetching and converting a voice message gave: an MP3 file on disk with its size
   * and name, or the reason it failed and whether a converted path was named but is missing.
   */
  datatype VoiceFetch = VoiceReady(size: nat, fileName: string) | VoiceUnavailable(reason: string, convertedMissing: bool)

  /**
   * The services a batch uses: the size setting, the two fetchers, the Dify upload and
   * speech-to-text calls (their replies), and Python's `str` of a non-text JSON value.
   */
  datatype BatchEnv = BatchEnv(
    maxFileSizeSetting: string,
    fetchImage: StandardMessage -> ImageFetch,
    fetchVoice: StandardMessage -> VoiceFetch,
    upload: (Option<string>, nat, string) -> Json,
    stt: (Option<string>, string) -> Json,
    show: Json -> string)

  /** What one message adds: at most one content part, one file reference and one error. */
  datatype Contribution = Contribution(part: Option<string>, file: Option<Json>, error: Option<string>)

  /** Python's `str` in an f-string: text as is, other values rendered. */
  function PyStr(j: Json, show: Json -> string): string
  {
    if j.JStr? then j.s else show(j)
  }

  /** The name the logs and error texts use: the nickname when set, else the sender id. */
  function SenderLabel(m: StandardMessage): string
  {
    if Truthy(m.senderNickname) then m.senderNickname.value
    else if m.senderId.Some? then m.senderId.value
    else "None"
  }

  /**
   * The shape every contribution has: an error comes with its bracketed text as the part and
   * no file, and a file comes with a part and no error.
   */
  predicate Shaped(c: Contribution)
  {
    (c.error.Some? ==> c.part == Some("[" + c.error.value + "]") && c.file.None?) &&
    (c.file.Some? ==> c.error.None? && c.part.Some?)
  }

  /** An error becomes both an error entry and a bracketed content part. */
  function Failure(err: string): (c: Contribution)
    ensures c.error == Some(err) && c.part == Some("[" + err + "]") && c.file.None?
    ensures Shaped(c)
  {
    Contribution(Some("[" + err + "]"), None, Some(err))
  }

  /** A text message without content. */
  function EmptyTextError(who: string, nth: string): string
  {
    "系统消息：来自 " + who + " 的第 " + nth + " 条文本消息内容为空。"
  }

  /**
   * An image: fetched, checked against the upload limit, uploaded; a reply with a truthy
   * "id" gives a file reference and a "[图片: name]" part, anything else an error.
   */
  function ImageContribution(who: string, nth: string, m: StandardMessage, user: Option<string>, env: BatchEnv): (c: Contribution)
    ensures Shaped(c)
  {
    match env.fetchImage(m)
    case ImageUnavailable(reason) =>
      Failure("系统消息：来自 " + who + " 的第 " + nth + " 张图片数据获取失败 (" + reason + ")。")
    case ImageFetched(size, hint) =>
      if size == 0 then
        Failure("系统消息：来自 " + who + " 的第 " + nth + " 张图片数据获取失败 (" + hint + ")。")
      else if size > DifyHandler.MaxFileSizeBytes(env.maxFileSizeSetting) then
        Failure("系统消息：来自 " + who + " 的第 " + nth + " 张图片 '" + hint + "' (大小: " +
                CivilTime.PadNumber(size, 0) + " bytes) 超出Dify上传限制。")
      else
        var reply := env.upload(user, size, hint);
        if reply.JObj? && IsTruthy(Get(reply.fields, "id")) then
          var name := if "name" in reply.fields then reply.fields["name"] else JStr(hint);
          Contribution(
            Some("[图片: " + PyStr(name, env.show) + "]"),
            Some(JObj(map["type" := JStr("image"), "transfer_method" := JStr("local_file"),
                          "upload_file_id" := reply.fields["id"]])),
            None)
        else
          var detail :=
            if reply.JObj? then (if "error" in reply.fields then PyStr(reply.fields["error"], env.show) else "上传响应无效")
            else env.show(reply);
          Failure("系统消息：来自 " + who + " 的第 " + nth + " 张图片 '" + hint + "' 上传Dify失败 (" + detail + ")。")
  }

  /**
   * A voice message: converted to MP3, checked against the speech-to-text limit, recognised;
   * recognised text becomes a "[语音转文字: …]" part (a placeholder for blank text), anything
   * else an error.
   */
  function VoiceContribution(who: string, nth: string, m: StandardMessage, user: Option<string>, env: BatchEnv): (c: Contribution)
    ensures Shaped(c) && c.file.None?
  {
    match env.fetchVoice(m)
    case VoiceUnavailable(reason, missing) =>
      Failure("系统消息：来自 " + who + " 的第 " + nth + " 条语音数据处理失败 (" + reason + ")。" +
              (if missing then " (转换后文件未找到)" else ""))
    case VoiceReady(size, hint) =>
      var limit := DifyHandler.SttLimit(env.maxFileSizeSetting);
      if size > limit then
        Failure("系统消息：转换后的MP3文件 '" + hint + "' (大小: " + CivilTime.PadNumber(size, 0) +
                " bytes) 超出STT处理限制 (" + DifyHandler.IntString(limit / DifyHandler.Megabyte) + "MB)。")
      else
        var reply := env.stt(user, hint);
        if reply.JObj? && reply.fields != map[] && !IsTruthy(Get(reply.fields, "error")) && "text" in reply.fields then
          match reply.fields["text"]
          case JStr(t) =>
            Contribution(Some("[语音转文字: " + (if Strip(t) == "" then "[空语音或无法识别]" else t) + "]"), None, None)
          case _ =>
            Failure("系统消息：来自 " + who + " 的第 " + nth + " 条语音 '" + hint + "' Dify STT调用时出错。")
        else
          var detail :=
            if reply.JObj? then (if "error" in reply.fields then PyStr(reply.fields["error"], env.show) else "未知STT错误")
            else env.show(reply);
          Failure("系统消息：来自 " + who + " 的第 " + nth + " 条语音 '" + hint + "' Dify STT失败 (" + detail + ")。")
  }

  /** The contribution of the message at position `i` (counted from 1 in the texts). */
  function Contribute(i: nat, m: StandardMessage, user: Option<string>, env: BatchEnv): (c: Contribution)
    ensures Shaped(c)
    ensures m.kind.None? ==> c == Contribution(None, None, None)
  {
    var who := SenderLabel(m);
    var nth := CivilTime.PadNumber(i + 1, 0);
    match m.kind
    case None => Contribution(None, None, None)
    case Some(k) =>
      match k
      case TextMessage =>
        if m.content.None? then Failure(EmptyTextError(who, nth))
        else Contribution(Some(m.content.value), None, None)
      case ImageMessage => ImageContribution(who, nth, m, user, env)
      case VoiceMessage => VoiceContribution(who, nth, m, user, env)
  }

  /** A text message without content adds exactly one error and its bracketed placeholder. */
  lemma EmptyTextMessage(i: nat, m: StandardMessage, user: Option<string>, env: BatchEnv)
    requires m.kind == Some(WechatClient.TextMessage) && m.content.None?
    ensures var c := Contribute(i, m, user, env);
      c.error == Some(EmptyTextError(SenderLabel(m), CivilTime.PadNumber(i + 1, 0))) &&
      c.part == Some("[" + c.error.value + "]") && c.file.None?
  {
  }

  /** The contributions of a batch, message by message. */
  function Contributions(msgs: seq<StandardMessage>, user: Option<string>, env: BatchEnv): (cs: seq<Contribution>)
    ensures |cs| == |msgs| && forall i :: 0 <= i < |msgs| ==> cs[i] == Contribute(i, msgs[i], user, env)
  {
    seq(|msgs|, i requires 0 <= i < |msgs| => Contribute(i, msgs[i], user, env))
  }

  function OptList<T>(o: Option<T>): seq<T>
  {
    if o.Some? then [o.value] else []
  }

  /** The content parts, in message order. */
  function PartsOf(cs: seq<Contribution>): seq<string>
  {
    if cs == [] then [] else PartsOf(cs[..|cs| - 1]) + OptList(cs[|cs| - 1].part)
  }

  /** The file references, in message order. */
  function FilesOf(cs: seq<Contribution>): seq<Json>
  {
    if cs == [] then [] else FilesOf(cs[..|cs| - 1]) + OptList(cs[|cs| - 1].file)
  }

  /** The errors, in message order. */
  function ErrorsOf(cs: seq<Contribution>): seq<string>
  {
    if cs == [] then [] else ErrorsOf(cs[..|cs| - 1]) + OptList(cs[|cs| - 1].error)
  }

  /** Every file and every error comes with a content part, so there are at least as many parts. */
  lemma {:induction false} CountsBound(cs: seq<Contribution>)
    requires forall k :: 0 <= k < |cs| ==> Shaped(cs[k])
    ensures |FilesOf(cs)| + |ErrorsOf(cs)| <= |PartsOf(cs)| <= |cs|
  {
    if cs != [] {
      CountsBound(cs[..|cs| - 1]);
    }
  }

  /** A batch's contributions satisfy the bound. */
  lemma BatchCountsBound(msgs: seq<StandardMessage>, user: Option<string>, env: BatchEnv)
    ensures var cs := Contributions(msgs, user, env);
      |FilesOf(cs)| + |ErrorsOf(cs)| <= |PartsOf(cs)| <= |msgs|
  {
    CountsBound(Contributions(msgs, user, env));
  }

  /** The prefix elements: room, sender and nickname for a group, sender and nickname otherwise; blank ones left out. */
  function PrefixElements(m: StandardMessage): (r: seq<string>)
    ensures |r| <= (if m.isGroup then 3 else 2)
  {
    var sender := if Truthy(m.senderId) then ["好友ID：" + m.senderId.value] else [];
    var nick := if Truthy(m.senderNickname) && Strip(m.senderNickname.value) != "" then ["好友昵称：" + m.senderNickname.value] else [];
    if m.isGroup then (if Truthy(m.roomId) then ["群ID：" + m.roomId.value] else []) + sender + nick
    else sender + nick
  }

  /** A group's prefix is its room followed by what a private message from the same sender would list. */
  lemma GroupAddsRoom(m: StandardMessage)
    requires m.isGroup
    ensures PrefixElements(m) ==
      (if Truthy(m.roomId) then ["群ID：" + m.roomId.value] else []) + PrefixElements(m.(isGroup := false))
  {
    var p := m.(isGroup := false);
    assert p.senderId == m.senderId && p.senderNickname == m.senderNickname && !p.isGroup;
  }

  /** The elements joined by '，' inside brackets and followed by a space; empty without elements. */
  function QueryPrefix(m: StandardMessage): (r: string)
    ensures r == "" <==> PrefixElements(m) == []
    ensures r != "" ==> StartsWith(r, "[") && EndsWith(r, "] ")
  {
    var e := PrefixElements(m);
    if e == [] then "" else
      var r := "[" + Join(e, "，") + "] ";
      assert r[|r| - 2..] == "] ";
      r
  }

  /** Two or three labelled elements joined by `sep` between brackets, written out. */
  lemma BracketedJoin(o: string, cl: string, sep: string, la: string, va: string, lb: string, vb: string, lc: string, vc: string)
    ensures o + Join([lb + vb, lc + vc], sep) + cl == o + lb + vb + sep + lc + vc + cl
    ensures o + Join([la + va, lb + vb, lc + vc], sep) + cl == o + la + va + sep + lb + vb + sep + lc + vc + cl
  {
    var a, b, c := la + va, lb + vb, lc + vc;
    assert [a, b, c][1..] == [b, c] && [b, c][1..] == [c];
    assert Join([b, c], sep) == b + sep + c;
    assert Join([a, b, c], sep) == a + sep + (b + sep + c);
  }

  /** A group message with room, sender and a non-blank nickname names all three, in that order. */
  lemma GroupPrefixFull(m: StandardMessage)
    requires m.isGroup && Truthy(m.roomId) && Truthy(m.senderId) && Truthy(m.senderNickname)
    requires Strip(m.senderNickname.value) != ""
    ensures QueryPrefix(m) ==
      "[" + "群ID：" + m.roomId.value + "，" + "好友ID：" + m.senderId.value + "，" + "好友昵称：" + m.senderNickname.value + "] "
  {
    var a, b, c := "群ID：" + m.roomId.value, "好友ID：" + m.senderId.value, "好友昵称：" + m.senderNickname.value;
    assert PrefixElements(m) == [a, b, c];
    BracketedJoin("[", "] ", "，", "群ID：", m.roomId.value, "好友ID：", m.senderId.value, "好友昵称：", m.senderNickname.value);
  }

  /** A private message with sender and a non-blank nickname names both, and no room. */
  lemma PrivatePrefixFull(m: StandardMessage)
    requires !m.isGroup && Truthy(m.senderId) && Truthy(m.senderNickname)
    requires Strip(m.senderNickname.value) != ""
    ensures QueryPrefix(m) == "[" + "好友ID：" + m.senderId.value + "，" + "好友昵称：" + m.senderNickname.value + "] "
  {
    var b, c := "好友ID：" + m.senderId.value, "好友昵称：" + m.senderNickname.value;
    assert PrefixElements(m) == [b, c];
    BracketedJoin("[", "] ", "，", "", "", "好友ID：", m.senderId.value, "好友昵称：", m.senderNickname.value);
  }

  /** A blank nickname is left out exactly as a missing one. */
  lemma BlankNicknameOmitted(m: StandardMessage, blank: string)
    requires Strip(blank) == ""
    ensures PrefixElements(m.(senderNickname := Some(blank))) == PrefixElements(m.(senderNickname := None))
  {
    var with, without := m.(senderNickname := Some(blank)), m.(senderNickname := None);
    assert with.senderId == without.senderId && with.roomId == without.roomId && with.isGroup == without.isGroup;
    assert !(Truthy(with.senderNickname) && Strip(with.senderNickname.value) != "");
  }

  /**
   * The content part of the query: the non-empty parts joined by newlines and stripped;
   * when that is empty, a note that attachments were uploaded, else that errors occurred,
   * else that nothing could be handled.
   */
  function MessageContent(parts: seq<string>, files: seq<Json>, errors: seq<string>): (r: string)
    ensures r != ""
    ensures Strip(Join(NonEmpty(parts), "\n")) != "" ==> r == Strip(Join(NonEmpty(parts), "\n"))
    ensures Strip(Join(NonEmpty(parts), "\n")) == "" ==>
      r == (if files != [] then "附件已上传，请处理。"
            else if errors != [] then "处理消息时发生错误，详情见错误列表。"
            else "收到空消息或所有消息均未能处理。")
  {
    var joined := Strip(Join(NonEmpty(parts), "\n"));
    if joined != "" then joined
    else if files != [] then "附件已上传，请处理。"
    else if errors != [] then "处理消息时发生错误，详情见错误列表。"
    else "收到空消息或所有消息均未能处理。"
  }

  /**
   * `prepare_batched_query_for_dify`: collects each message's part, file and error in order,
   * then puts the first message's prefix before the content. An empty batch yields an empty
   * query, no files and a single error.
   */
  method PrepareBatchedQuery(msgs: seq<StandardMessage>, user: Option<string>, env: BatchEnv)
    returns (query: string, files: seq<Json>, errors: seq<string>)
    ensures msgs == [] ==> query == "" && files == [] && errors == ["没有消息可处理"]
    ensures msgs != [] ==> var cs := Contributions(msgs, user, env);
      files == FilesOf(cs) && errors == ErrorsOf(cs) &&
      query == QueryPrefix(msgs[0]) + MessageContent(PartsOf(cs), files, errors)
  {
    if msgs == [] {
      return "", [], ["没有消息可处理"];
    }
    var parts: seq<string> := [];
    files := [];
    errors := [];
    ghost var cs := Contributions(msgs, user, env);
    for i := 0 to |msgs|
      invariant parts == PartsOf(cs[..i]) && files == FilesOf(cs[..i]) && errors == ErrorsOf(cs[..i])
    {
      var c := Contribute(i, msgs[i], user, env);
      assert cs[..i + 1][..i] == cs[..i];
      if c.part.Some? {
        parts := parts + [c.part.value];
      }
      if c.file.Some? {
        files := files + [c.file.value];
      }
      if c.error.Some? {
        errors := errors + [c.error.value];
      }
    }
    assert cs[..|msgs|] == cs;
    query := QueryPrefix(msgs[0]) + MessageContent(parts, files, errors);
  }

  // ---------------------------------------------------------------- reply: Markdown images

  /** A reply to send: text, or an image by URL with its alternative text. */
  datatype Action = TextAction(content: string) | ImageAction(url: string, alt: Json)

  /** A stretch of the answer: plain text, or a Markdown image `![alt](url)`. */
  datatype Piece = TextPiece(text: string) | ImagePiece(alt: string, url: string)

  function ImageMarkup(alt: string, url: string): string
  {
    "![" + alt + "](" + url + ")"
  }

  /** Where a Markdown image sits in a text: its "![", its "](" and its closing ')'. */
  datatype Span = Span(start: nat, altEnd: nat, close: nat)

  predicate SpanIn(s: string, m: Span)
  {
    m.start + 2 <= m.altEnd && m.altEnd + 2 <= m.close < |s| &&
    s[m.start] == '!' && s[m.start + 1] == '[' && s[m.altEnd] == ']' && s[m.altEnd + 1] == '(' && s[m.close] == ')'
  }

  /**
   * A match of `!\[(.*?)\]\((.*?)\)` starting at `i`. Both groups are lazy and '.' does not
   * match a newline, so the alternative text ends at the first "](" and the URL at the first
   * ')', with no newline before either; when that fails, no longer groups can succeed.
   */
  function MatchAt(s: string, i: nat): (r: Option<Span>)
    requires i <= |s|
    ensures r.Some? ==> r.value.start == i && SpanIn(s, r.value)
  {
    if i + 2 > |s| || s[i] != '!' || s[i + 1] != '[' then None
    else match AltEnd(s, i + 2)
      case None => None
      case Some(j) =>
        match UrlEnd(s, j + 2)
        case None => None
        case Some(k) => Some(Span(i, j, k))
  }

  /** Where the lazy alternative text from `x` on ends: the first "](", with no newline before it. */
  function AltEnd(s: string, x: nat): (r: Option<nat>)
    requires x <= |s|
    ensures r.Some? ==> x <= r.value && r.value + 2 <= |s| && s[r.value] == ']' && s[r.value + 1] == '('
    ensures r.Some? ==> forall t :: x <= t < r.value ==> s[t] != '\n' && !(s[t] == ']' && s[t + 1] == '(')
    decreases |s| - x
  {
    if x + 2 <= |s| && s[x] == ']' && s[x + 1] == '(' then Some(x)
    else if x == |s| || s[x] == '\n' then None
    else AltEnd(s, x + 1)
  }

  /** Where the lazy URL from `x` on ends: the first ')', with no newline before it. */
  function UrlEnd(s: string, x: nat): (r: Option<nat>)
    requires x <= |s|
    ensures r.Some? ==> x <= r.value < |s| && s[r.value] == ')'
    ensures r.Some? ==> forall t :: x <= t < r.value ==> s[t] != '\n' && s[t] != ')'
    decreases |s| - x
  {
    if x == |s| || s[x] == '\n' then None
    else if s[x] == ')' then Some(x)
    else UrlEnd(s, x + 1)
  }

  /** The leftmost match at or after `i`, as `re.split` finds it. */
  function FirstImageFrom(s: string, i: nat): (r: Option<Span>)
    requires i <= |s|
    ensures r.Some? ==> i <= r.value.start && SpanIn(s, r.value)
    decreases |s| - i
  {
    if MatchAt(s, i).Some? then MatchAt(s, i)
    else if i == |s| then None
    else FirstImageFrom(s, i + 1)
  }

  /**
   * The match found is the leftmost one: it is a match at its start, no position before it
   * starts one, and when none is found no position starts one.
   */
  lemma {:induction false} FirstImageLeftmost(s: string, i: nat)
    requires i <= |s|
    ensures FirstImageFrom(s, i).Some? ==> var m := FirstImageFrom(s, i).value;
      MatchAt(s, m.start) == Some(m) && forall p :: i <= p < m.start ==> MatchAt(s, p).None?
    ensures FirstImageFrom(s, i).None? ==> forall p :: i <= p <= |s| ==> MatchAt(s, p).None?
    decreases |s| - i
  {
    if MatchAt(s, i).Some? {
      assert FirstImageFrom(s, i) == MatchAt(s, i);
    } else if i < |s| {
      FirstImageLeftmost(s, i + 1);
      assert FirstImageFrom(s, i) == FirstImageFrom(s, i + 1);
    }
  }

  /** The answer cut at each Markdown image, left to right. */
  function SplitImages(s: string): (r: seq<Piece>)
    ensures |r| >= 1
    decreases |s|
  {
    match FirstImageFrom(s, 0)
    case None => [TextPiece(s)]
    case Some(m) =>
      [TextPiece(s[..m.start]), ImagePiece(s[m.start + 2..m.altEnd], s[m.altEnd + 2..m.close])] + SplitImages(s[m.close + 1..])
  }

  function Render(pieces: seq<Piece>): string
  {
    if pieces == [] then ""
    else (match pieces[0] case TextPiece(t) => t case ImagePiece(a, u) => ImageMarkup(a, u)) + Render(pieces[1..])
  }

  /** A text cut around a match: the text before it, the markup, and the text after. */
  lemma MarkupAt(s: string, p: nat, j: nat, k: nat)
    requires SpanIn(s, Span(p, j, k))
    ensures s == s[..p] + ImageMarkup(s[p + 2..j], s[j + 2..k]) + s[k + 1..]
  {
    assert s[p..p + 2] == "![" && s[j..j + 2] == "](";
    assert s[p..k + 1] == s[p..p + 2] + s[p + 2..j] + s[j..j + 2] + s[j + 2..k] + [s[k]];
    assert s == s[..p] + s[p..k + 1] + s[k + 1..];
  }

  /** Rendering a text piece and an image piece followed by more pieces. */
  lemma RenderTwo(t: string, alt: string, url: string, rest: seq<Piece>)
    ensures Render([TextPiece(t), ImagePiece(alt, url)] + rest) == t + ImageMarkup(alt, url) + Render(rest)
  {
    var ps := [TextPiece(t), ImagePiece(alt, url)] + rest;
    assert ps[1..] == [ImagePiece(alt, url)] + rest;
    assert ps[1..][1..] == rest;
  }

  /** One step of the cut: the text before the first image, the image, and the cut of the rest. */
  lemma SplitStep(s: string, m: Span)
    requires FirstImageFrom(s, 0) == Some(m)
    ensures SplitImages(s) ==
      [TextPiece(s[..m.start]), ImagePiece(s[m.start + 2..m.altEnd], s[m.altEnd + 2..m.close])] + SplitImages(s[m.close + 1..])
  {
  }

  /** The last step of the round trip: the rest renders back, so the whole does. */
  lemma RoundTripStep(s: string, m: Span, pieces: seq<Piece>, rest: seq<Piece>)
    requires SpanIn(s, m)
    requires pieces == [TextPiece(s[..m.start]), ImagePiece(s[m.start + 2..m.altEnd], s[m.altEnd + 2..m.close])] + rest
    requires Render(rest) == s[m.close + 1..]
    ensures Render(pieces) == s
  {
    RenderTwo(s[..m.start], s[m.start + 2..m.altEnd], s[m.altEnd + 2..m.close], rest);
    MarkupAt(s, m.start, m.altEnd, m.close);
  }

  /** Text without a match renders back as itself. */
  lemma RoundTripNoImage(s: string)
    requires FirstImageFrom(s, 0).None?
    ensures Render(SplitImages(s)) == s
  {
    assert SplitImages(s) == [TextPiece(s)];
    assert [TextPiece(s)][1..] == [];
  }

  /** Cutting loses nothing: the pieces put back together are the answer. */
  lemma {:induction false} SplitImagesRoundTrip(s: string)
    ensures Render(SplitImages(s)) == s
    decreases |s|
  {
    match FirstImageFrom(s, 0)
    case None => RoundTripNoImage(s);
    case Some(m) =>
      SplitStep(s, m);
      SplitImagesRoundTrip(s[m.close + 1..]);
      RoundTripStep(s, m, SplitImages(s), SplitImages(s[m.close + 1..]));
  }

  /** Text without "![" is a single text piece. */
  lemma {:induction false} NoMarkupFrom(s: string, i: nat)
    requires i <= |s| && !Contains(s, "![")
    ensures FirstImageFrom(s, i).None?
    decreases |s| - i
  {
    if "![" <= s[i..] {
      ContainsAt(s, "![", i);
    }
    if i < |s| {
      NoMarkupFrom(s, i + 1);
    }
  }

  /** The reply of a corrected split: each non-blank text piece stripped, each image with a URL. */
  function PieceActions(p: Piece): seq<Action>
  {
    match p
    case TextPiece(t) => if Strip(t) != "" then [TextAction(Strip(t))] else []
    case ImagePiece(alt, url) => if url != "" then [ImageAction(url, JStr(alt))] else []
  }

  /** The replies of each element in turn, one list after the other. */
  function FlatMap<T>(xs: seq<T>, f: T -> seq<Action>): seq<Action>
  {
    if xs == [] then [] else FlatMap(xs[..|xs| - 1], f) + f(xs[|xs| - 1])
  }

  lemma FlatMapSnoc<T>(xs: seq<T>, x: T, f: T -> seq<Action>)
    ensures FlatMap(xs + [x], f) == FlatMap(xs, f) + f(x)
  {
    assert (xs + [x])[..|xs|] == xs;
  }

  function AnswerActions(pieces: seq<Piece>): seq<Action>
  {
    FlatMap(pieces, PieceActions)
  }

  /** Plain text without Markdown images gives one stripped text reply, none if blank. */
  lemma PlainAnswer(s: string)
    requires !Contains(s, "![")
    ensures AnswerActions(SplitImages(s)) == (if Strip(s) != "" then [TextAction(Strip(s))] else [])
  {
    NoMarkupFrom(s, 0);
    assert SplitImages(s) == [TextPiece(s)];
    var none: seq<Piece> := [];
    FlatMapSnoc(none, TextPiece(s), PieceActions);
    assert none + [TextPiece(s)] == [TextPiece(s)];
  }

  /**
   * The answer's replies with the split done as intended (images separated from text, no
   * captured group repeated): text and image replies in the answer's order.
   */
  method AnswerToActions(answer: string) returns (actions: seq<Action>)
    ensures actions == AnswerActions(SplitImages(answer))
  {
    var pieces := SplitImages(answer);
    actions := PiecesToActions(pieces);
  }

  /** The replies of the pieces in turn: each non-blank text stripped, each image with a URL. */
  method PiecesToActions(pieces: seq<Piece>) returns (actions: seq<Action>)
    ensures actions == AnswerActions(pieces)
  {
    actions := [];
    for i := 0 to |pieces|
      invariant actions == AnswerActions(pieces[..i])
    {
      assert pieces[..i + 1] == pieces[..i] + [pieces[i]];
      FlatMapSnoc(pieces[..i], pieces[i], PieceActions);
      match pieces[i]
      case TextPiece(t) =>
        var text := Strip(t);
        if text != "" {
          actions := actions + [TextAction(text)];
        }
      case ImagePiece(alt, url) =>
        if url != "" {
          actions := actions + [ImageAction(url, JStr(alt))];
        }
    }
    assert pieces[..|pieces|] == pieces;
  }

  // ---------------------------------------------------------------- reply: the split as written

  /**
   * What `re.split` returns for the pattern wrapped in a capturing group: each text piece,
   * and for every image the whole markup followed by the two inner groups.
   */
  function SplitPartsAsWritten(pieces: seq<Piece>): seq<string>
  {
    if pieces == [] then []
    else
      (match pieces[0]
       case TextPiece(t) => [t]
       case ImagePiece(alt, url) => [ImageMarkup(alt, url), alt, url]) + SplitPartsAsWritten(pieces[1..])
  }

  /**
   * `re.fullmatch` of the image pattern on a whole part: it must start with "![", end with ')'
   * and hold no newline, and the alternative text runs to the first "](". A match gives back
   * the two groups, which put together again are the part.
   */
  function FullMatch(part: string): (r: Option<(string, string)>)
    ensures r.Some? ==> part == ImageMarkup(r.value.0, r.value.1)
  {
    if |part| >= 5 && part[0] == '!' && part[1] == '[' && part[|part| - 1] == ')' && '\n' !in part then
      match AltEnd(part, 2)
      case None => None
      case Some(j) =>
        var n := |part| - 1;
        assert part == part[..2] + part[2..j] + part[j..j + 2] + part[j + 2..n] + [part[n]];
        assert part[..2] == "![" && part[j..j + 2] == "](";
        Some((part[2..j], part[j + 2..n]))
    else None
  }

  /** Markup whose alternative text holds no "](" and neither group a newline is matched back into its groups. */
  lemma FullMatchMarkup(alt: string, url: string)
    requires '\n' !in alt && '\n' !in url
    requires forall t :: 0 <= t < |alt| ==> !(alt[t] == ']' && (t + 1 < |alt| && alt[t + 1] == '('))
    requires |alt| > 0 ==> alt[|alt| - 1] != ']'
    ensures FullMatch(ImageMarkup(alt, url)) == Some((alt, url))
  {
    var part := ImageMarkup(alt, url);
    var j := 2 + |alt|;
    assert forall t :: 2 <= t < j ==> part[t] == alt[t - 2];
    assert part[j] == ']' && part[j + 1] == '(';
    assert '\n' !in part by {
      assert forall t :: j + 2 <= t < |part| - 1 ==> part[t] == url[t - j - 2];
    }
    AltEndAt(part, 2, j);
    assert part[2..j] == alt;
    assert part[j + 2..|part| - 1] == url;
  }

  /** When the first "](" from `x` on is at `j` and no newline comes before it, the alternative text ends there. */
  lemma {:induction false} AltEndAt(s: string, x: nat, j: nat)
    requires x <= j && j + 2 <= |s| && s[j] == ']' && s[j + 1] == '('
    requires forall t :: x <= t < j ==> s[t] != '\n' && !(s[t] == ']' && s[t + 1] == '(')
    ensures AltEnd(s, x) == Some(j)
    decreases j - x
  {
    if x < j {
      AltEndAt(s, x + 1, j);
    }
  }

  /** One part as the source loop treats it: skipped when empty, an image when it matches, else stripped text. */
  function PartAction(p: string): seq<Action>
  {
    if p == "" then []
    else match FullMatch(p)
      case Some(g) => if g.1 != "" then [ImageAction(g.1, JStr(g.0))] else []
      case None => if Strip(p) != "" then [TextAction(Strip(p))] else []
  }

  function PartActions(parts: seq<string>): seq<Action>
  {
    FlatMap(parts, PartAction)
  }

  /** The answer's replies as the source computes them. */
  function AnswerActionsAsWritten(answer: string): seq<Action>
  {
    PartActions(SplitPartsAsWritten(SplitImages(answer)))
  }

  /** A non-empty run of ASCII letters and digits: no whitespace, bracket, parenthesis or newline. */
  predicate PlainWord(w: string)
  {
    w != [] && forall t :: 0 <= t < |w| ==> IsAsciiAlnum(w[t])
  }

  /** When the first ')' from `x` on is at `k` and no newline comes before it, the URL ends there. */
  lemma {:induction false} UrlEndAt(s: string, x: nat, k: nat)
    requires x <= k < |s| && s[k] == ')'
    requires forall t :: x <= t < k ==> s[t] != '\n' && s[t] != ')'
    ensures UrlEnd(s, x) == Some(k)
    decreases k - x
  {
    if x < k {
      UrlEndAt(s, x + 1, k);
    }
  }

  /** The markup of an image of plain words is matched from its first character to its last. */
  lemma LoneImageMatch(alt: string, url: string)
    requires PlainWord(alt) && PlainWord(url)
    ensures FirstImageFrom(ImageMarkup(alt, url), 0) == Some(Span(0, 2 + |alt|, 4 + |alt| + |url|))
  {
    var s := ImageMarkup(alt, url);
    var j := 2 + |alt|;
    var k := j + 2 + |url|;
    assert |s| == k + 1;
    assert forall t :: 2 <= t < j ==> s[t] == alt[t - 2];
    assert forall t :: j + 2 <= t < k ==> s[t] == url[t - j - 2];
    AltEndAt(s, 2, j);
    UrlEndAt(s, j + 2, k);
    assert MatchAt(s, 0) == Some(Span(0, j, k));
  }

  /** An answer that is a single image of plain words is one image with empty text around it. */
  lemma SplitLoneImage(alt: string, url: string)
    requires PlainWord(alt) && PlainWord(url)
    ensures SplitImages(ImageMarkup(alt, url)) == [TextPiece(""), ImagePiece(alt, url), TextPiece("")]
  {
    var s := ImageMarkup(alt, url);
    var m := Span(0, 2 + |alt|, 4 + |alt| + |url|);
    LoneImageMatch(alt, url);
    SplitStep(s, m);
    assert s[..0] == "" && s[2..m.altEnd] == alt && s[m.altEnd + 2..m.close] == url && s[m.close + 1..] == "";
    assert SplitImages("") == [TextPiece("")] by {
      assert MatchAt("", 0).None?;
    }
  }

  /** The parts `re.split` returns for one image between two texts: the markup, then its two groups again. */
  lemma LoneImageParts(a: string, alt: string, url: string, b: string)
    ensures SplitPartsAsWritten([TextPiece(a), ImagePiece(alt, url), TextPiece(b)]) == [a, ImageMarkup(alt, url), alt, url, b]
  {
    var pieces := [TextPiece(a), ImagePiece(alt, url), TextPiece(b)];
    var last := [TextPiece(b)];
    assert pieces[1..] == [ImagePiece(alt, url)] + last;
    assert pieces[1..][1..] == last;
    assert last[1..] == [];
    assert SplitPartsAsWritten(last) == [b];
  }

  /** A plain word on its own part does not match the pattern and is sent as text. */
  lemma PlainWordAction(w: string)
    requires PlainWord(w)
    ensures PartAction(w) == [TextAction(w)]
  {
    assert IsAsciiAlnum(w[0]) && IsAsciiAlnum(w[|w| - 1]);
    assert !IsSpace(w[0]) && !IsSpace(w[|w| - 1]);
    assert Strip(w) == w;
    assert FullMatch(w).None?;
  }

  /** The markup of an image of plain words matches and is sent as that image. */
  lemma MarkupAction(alt: string, url: string)
    requires PlainWord(alt) && PlainWord(url)
    ensures PartAction(ImageMarkup(alt, url)) == [ImageAction(url, JStr(alt))]
  {
    assert IsAsciiAlnum(alt[|alt| - 1]);
    assert '\n' !in alt by {
      assert forall t :: 0 <= t < |alt| ==> IsAsciiAlnum(alt[t]);
    }
    assert '\n' !in url by {
      assert forall t :: 0 <= t < |url| ==> IsAsciiAlnum(url[t]);
    }
    FullMatchMarkup(alt, url);
  }

  lemma ThreeInFive(x: Action, y: Action, z: Action)
    ensures [x, y, z] == [] + [x] + [y] + [z] + []
  {
  }

  /** Five parts, each with its known actions. */
  lemma FivePartActions(a: string, b: string, c: string, d: string, e: string,
                        fa: seq<Action>, fb: seq<Action>, fc: seq<Action>, fd: seq<Action>, fe: seq<Action>, all: seq<Action>)
    requires PartAction(a) == fa && PartAction(b) == fb && PartAction(c) == fc && PartAction(d) == fd && PartAction(e) == fe
    requires all == fa + fb + fc + fd + fe
    ensures PartActions([a, b, c, d, e]) == all
  {
    FlatMapOfFive(a, b, c, d, e, PartAction);
  }

  /** Five elements, one after the other. */
  lemma FlatMapOfFive<T>(a: T, b: T, c: T, d: T, e: T, f: T -> seq<Action>)
    ensures FlatMap([a, b, c, d, e], f) == f(a) + f(b) + f(c) + f(d) + f(e)
  {
    var x0: seq<T> := [];
    FlatMapSnoc(x0, a, f);
    FlatMapSnoc(x0 + [a], b, f);
    FlatMapSnoc(x0 + [a] + [b], c, f);
    FlatMapSnoc(x0 + [a] + [b] + [c], d, f);
    FlatMapSnoc(x0 + [a] + [b] + [c] + [d], e, f);
    assert x0 + [a] + [b] + [c] + [d] + [e] == [a, b, c, d, e];
  }

  /** Three elements, one after the other. */
  lemma FlatMapOfThree<T>(a: T, b: T, c: T, f: T -> seq<Action>)
    ensures FlatMap([a, b, c], f) == f(a) + f(b) + f(c)
  {
    var x0: seq<T> := [];
    FlatMapSnoc(x0, a, f);
    FlatMapSnoc(x0 + [a], b, f);
    FlatMapSnoc(x0 + [a] + [b], c, f);
    assert x0 + [a] + [b] + [c] == [a, b, c];
  }

  /**
   * With the captured groups in the split, an image's alternative text and URL come back as
   * two extra text replies after the image; the intended split sends the image alone. This
   * holds for every answer that is a single image whose alternative text and URL are plain
   * words, "![a](u)" for instance.
   */
  lemma CapturedGroupsRepeated(alt: string, url: string)
    requires PlainWord(alt) && PlainWord(url)
    ensures AnswerActionsAsWritten(ImageMarkup(alt, url)) == [ImageAction(url, JStr(alt)), TextAction(alt), TextAction(url)]
    ensures AnswerActions(SplitImages(ImageMarkup(alt, url))) == [ImageAction(url, JStr(alt))]
  {
    SplitLoneImage(alt, url);
    assert PartAction("") == [];
    LoneImageAsWritten("", alt, url, "");
    LoneImageIntended(alt, url);
  }

  /** The replies the source sends for one image between two texts without replies: the image, then its two groups as text. */
  lemma LoneImageAsWritten(a: string, alt: string, url: string, b: string)
    requires PartAction(a) == [] && PartAction(b) == []
    requires PlainWord(alt) && PlainWord(url)
    ensures PartActions(SplitPartsAsWritten([TextPiece(a), ImagePiece(alt, url), TextPiece(b)]))
         == [ImageAction(url, JStr(alt)), TextAction(alt), TextAction(url)]
  {
    var img, ta, tu := ImageAction(url, JStr(alt)), TextAction(alt), TextAction(url);
    var none: seq<Action> := [];
    LoneImageParts(a, alt, url, b);
    PlainWordAction(alt);
    PlainWordAction(url);
    MarkupAction(alt, url);
    ThreeInFive(img, ta, tu);
    FivePartActions(a, ImageMarkup(alt, url), alt, url, b, none, [img], [ta], [tu], none, [img, ta, tu]);
  }

  /** The replies the intended split sends for the pieces of a lone image: the image alone. */
  lemma LoneImageIntended(alt: string, url: string)
    requires PlainWord(url)
    ensures AnswerActions([TextPiece(""), ImagePiece(alt, url), TextPiece("")]) == [ImageAction(url, JStr(alt))]
  {
    assert PieceActions(TextPiece("")) == [] by {
      assert Strip("") == "";
    }
    assert PieceActions(ImagePiece(alt, url)) == [ImageAction(url, JStr(alt))];
    FlatMapOfThree(TextPiece(""), ImagePiece(alt, url), TextPiece(""), PieceActions);
  }

  // ---------------------------------------------------------------- reply: generated files and errors

  /** A `message_files` entry that is an image with a URL. */
  predicate IsImageFile(f: Json)
  {
    f.JObj? && Get(f.fields, "type") == JStr("image") && Get(f.fields, "url").JStr? && Get(f.fields, "url").s != ""
  }

  function FileUrl(f: Json): string
    requires IsImageFile(f)
  {
    Get(f.fields, "url").s
  }

  /** The file's name, or "Dify生成的图片" when it has none. */
  function FileAlt(f: Json): Json
    requires f.JObj?
  {
    if "name" in f.fields then f.fields["name"] else JStr("Dify生成的图片")
  }

  predicate HasImageUrl(actions: seq<Action>, url: string)
  {
    exists k :: 0 <= k < |actions| && actions[k].ImageAction? && actions[k].url == url
  }

  predicate HasText(actions: seq<Action>)
  {
    exists k :: 0 <= k < |actions| && actions[k].TextAction?
  }

  /**
   * One generated file: an image whose URL is not yet among the replies is appended, and
   * without answer text a "[图片]" text goes first if there is no text reply yet.
   */
  function AddFile(actions: seq<Action>, f: Json, hasAnswer: bool): (r: seq<Action>)
    ensures !IsImageFile(f) || HasImageUrl(actions, FileUrl(f)) ==> r == actions
    ensures IsImageFile(f) && !HasImageUrl(actions, FileUrl(f)) ==>
      r == (if !hasAnswer && !HasText(actions) then [TextAction("[图片]")] else []) + actions + [ImageAction(FileUrl(f), FileAlt(f))]
  {
    if !IsImageFile(f) || HasImageUrl(actions, FileUrl(f)) then actions
    else
      var a := actions + [ImageAction(FileUrl(f), FileAlt(f))];
      if !hasAnswer && !HasText(a) then
        assert !HasText(actions) by {
          forall k | 0 <= k < |actions|
            ensures !actions[k].TextAction?
          {
            assert a[k] == actions[k];
          }
        }
        [TextAction("[图片]")] + a
      else
        assert !hasAnswer ==> HasText(actions) by {
          if !hasAnswer {
            var k :| 0 <= k < |a| && a[k].TextAction?;
            assert k < |actions|;
            assert actions[k] == a[k];
          }
        }
        a
  }

  function AddFiles(actions: seq<Action>, files: seq<Json>, hasAnswer: bool): seq<Action>
  {
    if files == [] then actions
    else AddFile(AddFiles(actions, files[..|files| - 1], hasAnswer), files[|files| - 1], hasAnswer)
  }

  /** The image URLs among the replies. */
  function ImageUrls(actions: seq<Action>): set<string>
  {
    set k | 0 <= k < |actions| && actions[k].ImageAction? :: actions[k].url
  }

  /** The URLs of the image files in a list of generated files. */
  function FileUrls(files: seq<Json>): set<string>
  {
    set k | 0 <= k < |files| && IsImageFile(files[k]) :: FileUrl(files[k])
  }

  lemma FileUrlsSnoc(files: seq<Json>, f: Json)
    ensures FileUrls(files + [f]) == FileUrls(files) + (if IsImageFile(f) then {FileUrl(f)} else {})
  {
    var all := files + [f];
    forall u | u in FileUrls(all)
      ensures u in FileUrls(files) + (if IsImageFile(f) then {FileUrl(f)} else {})
    {
      var k :| 0 <= k < |all| && IsImageFile(all[k]) && FileUrl(all[k]) == u;
      if k < |files| {
        assert all[k] == files[k];
      }
    }
    forall u | u in FileUrls(files)
      ensures u in FileUrls(all)
    {
      var k :| 0 <= k < |files| && IsImageFile(files[k]) && FileUrl(files[k]) == u;
      assert all[k] == files[k];
    }
    if IsImageFile(f) {
      assert all[|files|] == f;
    }
  }

  /** One file adds its URL, when it is an image, and drops no reply. */
  lemma AddFileUrls(actions: seq<Action>, f: Json, hasAnswer: bool)
    ensures ImageUrls(AddFile(actions, f, hasAnswer)) == ImageUrls(actions) + (if IsImageFile(f) then {FileUrl(f)} else {})
    ensures |AddFile(actions, f, hasAnswer)| >= |actions|
  {
    var after := AddFile(actions, f, hasAnswer);
    if IsImageFile(f) && !HasImageUrl(actions, FileUrl(f)) {
      var added := ImageAction(FileUrl(f), FileAlt(f));
      var head: seq<Action> := if !hasAnswer && !HasText(actions) then [TextAction("[图片]")] else [];
      assert after == head + actions + [added];
      forall u | u in ImageUrls(after)
        ensures u in ImageUrls(actions) + {FileUrl(f)}
      {
        var k :| 0 <= k < |after| && after[k].ImageAction? && after[k].url == u;
        if |head| <= k < |head| + |actions| {
          assert after[k] == actions[k - |head|];
        }
      }
      forall u | u in ImageUrls(actions)
        ensures u in ImageUrls(after)
      {
        var k :| 0 <= k < |actions| && actions[k].ImageAction? && actions[k].url == u;
        assert after[k + |head|] == actions[k];
      }
      assert after[|after| - 1] == added;
    } else if IsImageFile(f) {
      var k :| 0 <= k < |actions| && actions[k].ImageAction? && actions[k].url == FileUrl(f);
      assert FileUrl(f) in ImageUrls(actions);
    }
  }

  /**
   * Adding files never drops a reply and never loses an image URL: the URLs after are those
   * before together with the image files' URLs.
   */
  lemma {:induction false} AddFilesUrls(actions: seq<Action>, files: seq<Json>, hasAnswer: bool)
    ensures ImageUrls(AddFiles(actions, files, hasAnswer)) == ImageUrls(actions) + FileUrls(files)
    ensures |AddFiles(actions, files, hasAnswer)| >= |actions|
  {
    if files != [] {
      var init, f := files[..|files| - 1], files[|files| - 1];
      AddFilesUrls(actions, init, hasAnswer);
      AddFileUrls(AddFiles(actions, init, hasAnswer), f, hasAnswer);
      assert init + [f] == files;
      FileUrlsSnoc(init, f);
    }
  }

  /** No image URL is sent twice. */
  predicate DistinctImageUrls(actions: seq<Action>)
  {
    forall a, b :: 0 <= a < b < |actions| && actions[a].ImageAction? && actions[b].ImageAction? ==> actions[a].url != actions[b].url
  }

  lemma AddFileDistinct(actions: seq<Action>, f: Json, hasAnswer: bool)
    requires DistinctImageUrls(actions)
    ensures DistinctImageUrls(AddFile(actions, f, hasAnswer))
  {
    if IsImageFile(f) && !HasImageUrl(actions, FileUrl(f)) {
      var added := ImageAction(FileUrl(f), FileAlt(f));
      var head: seq<Action> := if !hasAnswer && !HasText(actions) then [TextAction("[图片]")] else [];
      var after := head + actions + [added];
      assert AddFile(actions, f, hasAnswer) == after;
      forall a, b | 0 <= a < b < |after| && after[a].ImageAction? && after[b].ImageAction?
        ensures after[a].url != after[b].url
      {
        assert a >= |head|;
        assert after[a] == actions[a - |head|];
        if b < |after| - 1 {
          assert after[b] == actions[b - |head|];
        }
      }
    }
  }

  /**
   * The pass over the generated files adds no image twice: replies whose image URLs are
   * distinct stay so, whatever files Dify lists, duplicates included.
   */
  lemma {:induction false} AddFilesDistinct(actions: seq<Action>, files: seq<Json>, hasAnswer: bool)
    requires DistinctImageUrls(actions)
    ensures DistinctImageUrls(AddFiles(actions, files, hasAnswer))
  {
    if files != [] {
      AddFilesDistinct(actions, files[..|files| - 1], hasAnswer);
      AddFileDistinct(AddFiles(actions, files[..|files| - 1], hasAnswer), files[|files| - 1], hasAnswer);
    }
  }

  /** Adding a file whose image URL is already a reply changes nothing. */
  lemma DuplicateFileSkipped(actions: seq<Action>, f: Json, hasAnswer: bool)
    requires IsImageFile(f) && HasImageUrl(actions, FileUrl(f))
    ensures AddFile(actions, f, hasAnswer) == actions
  {
  }

  /**
   * The detail of an error reply: the JSON details' message, else the title or body text
   * found in the text details (`htmlDetail`), else the error itself.
   */
  function ErrorDetail(f: map<string, Json>, htmlDetail: string -> Option<string>, show: Json -> string): string
    requires "error" in f
  {
    var dj := Get(f, "details_json");
    if dj.JObj? && "message" in dj.fields then PyStr(dj.fields["message"], show)
    else
      var d := Get(f, "details");
      if d.JStr? && d.s != "" then
        match htmlDetail(d.s)
        case Some(x) => x
        case None => PyStr(f["error"], show)
      else PyStr(f["error"], show)
  }

  /** What `send_chat_message` handed back: nothing (or an empty value), an error text, or a dictionary. */
  datatype ChatReply = NoReply | StringReply(text: string) | DictReply(fields: map<string, Json>)

  const DefaultErrorText: string := "抱歉，AI服务暂时无法响应，请稍后再试。"

  /** The answer text when it is non-empty text. */
  function AnswerText(f: map<string, Json>): (r: Option<string>)
    ensures r.Some? ==> r.value != ""
  {
    var a := Get(f, "answer");
    if a.JStr? && a.s != "" then Some(a.s) else None
  }

  /** The generated files, when the reply has a list of them. */
  function MessageFiles(f: map<string, Json>): seq<Json>
  {
    var m := Get(f, "message_files");
    if m.JArr? then m.items else []
  }

  /**
   * The replies to a Dify answer (with the corrected split): one text for a missing, text
   * or error reply; otherwise the answer's pieces, then the generated images not yet sent,
   * then a fallback when nothing is left.
   */
  function ResponseActions(reply: ChatReply, htmlDetail: string -> Option<string>, show: Json -> string): seq<Action>
  {
    match reply
    case NoReply => [TextAction(DefaultErrorText)]
    case StringReply(s) => [TextAction(s)]
    case DictReply(f) =>
      if f == map[] then [TextAction(DefaultErrorText)]
      else if "error" in f then [TextAction("AI 服务暂时遇到问题：" + ErrorDetail(f, htmlDetail, show))]
      else
        var answer := AnswerText(f);
        var fromAnswer := if answer.Some? then AnswerActions(SplitImages(answer.value)) else [];
        var files := MessageFiles(f);
        var all := AddFiles(fromAnswer, files, answer.Some?);
        if all != [] then all
        else if answer.None? && files == [] then [TextAction(DefaultErrorText)]
        else if answer.Some? then [TextAction("[AI回复了空内容或无效格式]")]
        else []
  }

  /** A missing, text or error reply gives exactly one text reply. */
  lemma SingleTextReply(reply: ChatReply, htmlDetail: string -> Option<string>, show: Json -> string)
    requires !reply.DictReply? || reply.fields == map[] || "error" in reply.fields
    ensures var r := ResponseActions(reply, htmlDetail, show); |r| == 1 && r[0].TextAction?
    ensures reply.DictReply? && reply.fields != map[] ==>
      StartsWith(ResponseActions(reply, htmlDetail, show)[0].content, "AI 服务暂时遇到问题：")
  {
  }

  /** The list of replies is empty only for a reply with neither answer text nor image, but with a file list. */
  lemma EmptyOnlyWithoutAnswer(reply: ChatReply, htmlDetail: string -> Option<string>, show: Json -> string)
    ensures ResponseActions(reply, htmlDetail, show) == [] ==>
      reply.DictReply? && "error" !in reply.fields && AnswerText(reply.fields).None? &&
      MessageFiles(reply.fields) != [] &&
      forall k :: 0 <= k < |MessageFiles(reply.fields)| ==> !IsImageFile(MessageFiles(reply.fields)[k])
  {
    if reply.DictReply? && reply.fields != map[] && "error" !in reply.fields && AnswerText(reply.fields).None? {
      var files := MessageFiles(reply.fields);
      AddFilesUrls([], files, false);
      if exists k :: 0 <= k < |files| && IsImageFile(files[k]) {
        var k :| 0 <= k < |files| && IsImageFile(files[k]);
        assert FileUrl(files[k]) in ImageUrls(AddFiles([], files, false));
      }
    }
  }

  /** With neither answer text nor files the default apology is sent. */
  lemma NothingGivesApology(f: map<string, Json>, htmlDetail: string -> Option<string>, show: Json -> string)
    requires f != map[] && "error" !in f && AnswerText(f).None? && MessageFiles(f) == []
    ensures ResponseActions(DictReply(f), htmlDetail, show) == [TextAction(DefaultErrorText)]
  {
  }

  /**
   * One entry of `message_files`: an image whose URL no reply carries yet is appended, with
   * "[图片]" put first when there is neither answer text nor a text reply.
   */
  method AddGeneratedFile(actions: seq<Action>, file: Json, hasAnswer: bool) returns (r: seq<Action>)
    ensures r == AddFile(actions, file, hasAnswer)
  {
    r := actions;
    if IsImageFile(file) {
      var url := FileUrl(file);
      var already := false;
      var j := 0;
      while j < |actions| && !already
        invariant 0 <= j <= |actions|
        invariant !already ==> forall k :: 0 <= k < j ==> !(actions[k].ImageAction? && actions[k].url == url)
        invariant already ==> HasImageUrl(actions, url)
        decreases |actions| - j, if already then 0 else 1
      {
        if actions[j].ImageAction? && actions[j].url == url {
          already := true;
        } else {
          j := j + 1;
        }
      }
      if !already {
        r := actions + [ImageAction(url, FileAlt(file))];
        if !hasAnswer && !HasText(r) {
          r := [TextAction("[图片]")] + r;
        }
      }
    }
  }

  /** The pass over `message_files`, entry by entry. */
  method AddGeneratedFiles(actions: seq<Action>, files: seq<Json>, hasAnswer: bool) returns (r: seq<Action>)
    ensures r == AddFiles(actions, files, hasAnswer)
  {
    r := actions;
    for i := 0 to |files|
      invariant r == AddFiles(actions, files[..i], hasAnswer)
    {
      assert files[..i + 1][..i] == files[..i];
      r := AddGeneratedFile(r, files[i], hasAnswer);
    }
    assert files[..|files|] == files;
  }

  /**
   * `prepare_wechat_response` (with the corrected split): the answer's replies, then a pass
   * over the generated files that looks for each image URL among the replies before adding it.
   */
  method PrepareWechatResponse(reply: ChatReply, htmlDetail: string -> Option<string>, show: Json -> string)
    returns (actions: seq<Action>)
    ensures actions == ResponseActions(reply, htmlDetail, show)
  {
    if reply.NoReply? || (reply.DictReply? && reply.fields == map[]) {
      return [TextAction(DefaultErrorText)];
    }
    if reply.StringReply? {
      return [TextAction(reply.text)];
    }
    var f := reply.fields;
    if "error" in f {
      return [TextAction("AI 服务暂时遇到问题：" + ErrorDetail(f, htmlDetail, show))];
    }
    var answer := AnswerText(f);
    actions := [];
    if answer.Some? {
      actions := AnswerToActions(answer.value);
    }
    var files := MessageFiles(f);
    actions := AddGeneratedFiles(actions, files, answer.Some?);
    if actions == [] {
      if answer.None? && files == [] {
        actions := [TextAction(DefaultErrorText)];
      } else if answer.Some? {
        actions := [TextAction("[AI回复了空内容或无效格式]")];
      }
    }
  }
}
