/**
 * The WeChat client's text logic: the synchronisation URL, the normalisation of a raw
 * pushed message into the bridge's standard message, and the text-send request body.
 * The WebSocket connection, the HTTP calls and the XML parser are not modelled; what the
 * XML parser finds in a message is given with it.
 */
module WechatClient {
  import opened Wrappers
  import opened Text
  import opened JsonTree
  import CivilTime

  // ---------------------------------------------------------------- synchronisation URL

  /** Base URL with "http://" turned into "ws://" and "https://" into "wss://", then the sync path and token. */
  function WsUrl(baseUrl: string, token: string): string
  {
    Replace(Replace(baseUrl, "http://", "ws://"), "https://", "wss://") + "/ws/GetSyncMsg?key=" + token
  }

  /** Text that starts with a character other than the pattern's first contains it only in its tail. */
  lemma ContainsPastHead(s: string, p: string)
    requires s != [] && p != [] && s[0] != p[0]
    ensures Contains(s, p) <==> Contains(s[1..], p)
  {
  }

  /** "ws://" followed by text without "https://" has none either. */
  lemma NoHttpsAfterWs(rest: string)
    requires !Contains(rest, "https://")
    ensures !Contains("ws://" + rest, "https://")
  {
    var s := "ws://" + rest;
    ContainsPastHead(s, "https://");
    assert s[1..] == "s://" + rest;
    ContainsPastHead(s[1..], "https://");
    assert s[1..][1..] == "://" + rest;
    ContainsPastHead(s[1..][1..], "https://");
    assert s[1..][1..][1..] == "//" + rest;
    ContainsPastHead(s[1..][1..][1..], "https://");
    assert s[1..][1..][1..][1..] == "/" + rest;
    ContainsPastHead(s[1..][1..][1..][1..], "https://");
    assert s[1..][1..][1..][1..][1..] == rest;
  }

  /** An http base URL becomes a ws URL and nothing else in it changes. */
  lemma WsUrlFromHttp(rest: string, token: string)
    requires !Contains(rest, "http://") && !Contains(rest, "https://")
    ensures WsUrl("http://" + rest, token) == "ws://" + rest + "/ws/GetSyncMsg?key=" + token
  {
    var s := "http://" + rest;
    assert s[|"http://"|..] == rest;
    assert Replace(s, "http://", "ws://") == "ws://" + rest;
    NoHttpsAfterWs(rest);
  }

  /** An https base URL becomes a wss URL and nothing else in it changes. */
  lemma WsUrlFromHttps(rest: string, token: string)
    requires !Contains(rest, "http://") && !Contains(rest, "https://")
    ensures WsUrl("https://" + rest, token) == "wss://" + rest + "/ws/GetSyncMsg?key=" + token
  {
    var s := "https://" + rest;
    assert !Contains(s, "http://") by {
      var p := "http://";
      assert s[4] != p[4];
      assert !(p <= s);
      forall i | 1 <= i < 8
        ensures s[i..][1..] == s[i + 1..] && s[i] != p[0]
      {
      }
      assert s[8..] == rest;
      ContainsPastHead(s[7..], p);
      ContainsPastHead(s[6..], p);
      ContainsPastHead(s[5..], p);
      ContainsPastHead(s[4..], p);
      ContainsPastHead(s[3..], p);
      ContainsPastHead(s[2..], p);
      ContainsPastHead(s[1..], p);
    }
    assert s[|"https://"|..] == rest;
    assert Replace(s, "https://", "wss://") == "wss://" + rest;
  }

  // ---------------------------------------------------------------- the raw message

  /** The `img` element of an image message's XML: its three URL attributes. */
  datatype ImageNode = ImageNode(hdUrl: Option<string>, midUrl: Option<string>, thumbUrl: Option<string>)

  /** The `voicemsg` element of a voice message's XML. */
  datatype VoiceNode = VoiceNode(voiceFormat: Option<string>, cdnUrl: Option<string>, voiceUrl: Option<string>)

  /**
   * What the XML parser finds: the text of `atuserlist` in `msg_source`, the `img` element
   * and the `voicemsg` element of the content. `None` stands for a parse error, a missing
   * element, or (for `atuserlist`) an empty text.
   */
  datatype XmlView = XmlView(atUserList: Option<string>, image: Option<ImageNode>, voice: Option<VoiceNode>)

  /**
   * A pushed message after JSON decoding. `newMsgId` is `str(new_msg_id)` and is `None`
   * when that field is absent or falsy; `msgId` is `msg_id` as text.
   */
  datatype RawMessage = RawMessage(
    newMsgId: Option<string>,
    msgId: string,
    msgType: Option<int>,
    fromUserName: string,
    content: string,
    pushContent: string,
    msgSource: string,
    imgBuffer: Option<string>,
    imgBufferLen: int,
    xml: XmlView)

  datatype MessageKind = TextMessage | ImageMessage | VoiceMessage

  /** The normalised message handed to the processor. */
  datatype StandardMessage = StandardMessage(
    id: string,
    kind: Option<MessageKind>,
    isGroup: bool,
    senderId: Option<string>,
    senderNickname: Option<string>,
    roomId: Option<string>,
    content: Option<string>,
    fileUrl: Option<string>,
    fileDataB64: Option<string>,
    atList: seq<string>,
    voiceFormatCode: Option<string>)

  /** `new_msg_id` when present, else the clock in milliseconds and `msg_id` joined by '_'. */
  function MessageId(raw: RawMessage, nowMillis: nat): (r: string)
    ensures raw.newMsgId.Some? ==> r == raw.newMsgId.value
    ensures raw.newMsgId.None? ==> EndsWith(r, "_" + raw.msgId)
  {
    match raw.newMsgId
    case Some(id) => id
    case None =>
      var r := CivilTime.PadNumber(nowMillis, 0) + "_" + raw.msgId;
      assert r[|r| - |raw.msgId| - 1..] == "_" + raw.msgId;
      r
  }

  // ---------------------------------------------------------------- group sender prefix

  /** The length of the leading run of ASCII letters and digits. */
  function AlnumRun(s: string): (n: nat)
    ensures n <= |s|
    ensures forall i :: 0 <= i < n ==> IsAsciiAlnum(s[i])
    ensures n < |s| ==> !IsAsciiAlnum(s[n])
  {
    if s != [] && IsAsciiAlnum(s[0]) then 1 + AlnumRun(s[1..]) else 0
  }

  /**
   * The match of `^(wxid_[a-zA-Z0-9]+?):\n`: the sender id. Because the lazy run cannot
   * cross ':', it is the whole leading alphanumeric run after "wxid_".
   */
  function SenderPrefix(content: string): (r: Option<string>)
    ensures r.Some? ==> StartsWith(r.value, "wxid_") && |r.value| > 5 && StartsWith(content, r.value + ":\n")
    ensures r.Some? ==> forall i :: 5 <= i < |r.value| ==> IsAsciiAlnum(r.value[i])
  {
    if !StartsWith(content, "wxid_") then None
    else
      var k := AlnumRun(content[5..]);
      if k >= 1 && StartsWith(content[5 + k..], ":\n") then
        var id := content[..5 + k];
        assert content[..5 + k + 2] == id + ":\n";
        Some(id)
      else None
  }

  /** The id is recovered from "wxid_<id>:\n" followed by text that does not continue the id. */
  lemma SenderPrefixOf(id: string, rest: string)
    requires id != [] && forall i :: 0 <= i < |id| ==> IsAsciiAlnum(id[i])
    ensures SenderPrefix("wxid_" + id + ":\n" + rest) == Some("wxid_" + id)
  {
    var s := "wxid_" + id + ":\n" + rest;
    assert s[5..] == id + ":\n" + rest;
    AlnumRunStops(id, ":\n" + rest);
    assert s[5 + |id|..] == ":\n" + rest;
    assert s[..5 + |id|] == "wxid_" + id;
  }

  lemma {:induction false} AlnumRunStops(id: string, tail: string)
    requires forall i :: 0 <= i < |id| ==> IsAsciiAlnum(id[i])
    requires tail != [] && !IsAsciiAlnum(tail[0])
    ensures AlnumRun(id + tail) == |id|
    decreases |id|
  {
    if id != [] {
      assert (id + tail)[1..] == id[1..] + tail;
      AlnumRunStops(id[1..], tail);
    }
  }

  // ---------------------------------------------------------------- nicknames

  /**
   * What may follow a group nickname in `push_content`, after optional whitespace:
   * "在群聊中", or ':' with at least one non-space character somewhere after it
   * (this covers both the ":\s*@" and the ":\s*\S" branches of the pattern).
   */
  predicate GroupNickTail(t: string)
  {
    var u := LStrip(t);
    StartsWith(u, "在群聊中") || (u != [] && u[0] == ':' && LStrip(u[1..]) != [])
  }

  /**
   * The end of the lazy group `(.+?)` of `^(.+?)(?:\s*在群聊中|\s*:\s*@|\s*:\s*\S)`, searching
   * from `i`: the first position at or after `i` after which the tail matches, before a newline
   * (which '.' does not match) is swallowed.
   */
  function GroupNickEnd(s: string, i: nat): (r: Option<nat>)
    requires 1 <= i
    ensures r.Some? ==> i <= r.value <= |s| && NickTailAt(s, r.value)
    ensures r.Some? ==> forall j :: i - 1 <= j < r.value ==> s[j] != '\n'
    ensures r.Some? ==> forall j :: i <= j < r.value ==> !NickTailAt(s, j)
    decreases |s| - i
  {
    if i > |s| then None
    else if s[i - 1] == '\n' then None
    else if NickTailAt(s, i) then Some(i)
    else GroupNickEnd(s, i + 1)
  }

  /** The text from position `j` of `s` on may follow a group nickname. */
  predicate NickTailAt(s: string, j: nat)
    requires j <= |s|
  {
    GroupNickTail(s[j..])
  }

  /** The stripped lazy group, when the pattern matches and the group is not blank. */
  function GroupNickname(push: string): (r: Option<string>)
    ensures r.Some? ==> r.value != [] && Strip(r.value) == r.value && '\n' !in r.value
  {
    if push == [] then None
    else match GroupNickEnd(push, 1)
      case None => None
      case Some(e) =>
        var n := Strip(push[..e]);
        assert '\n' !in push[..e];
        StripWithin(push[..e], '\n');
        StripIdempotent(push[..e]);
        if n != [] then Some(n) else None
  }

  /** A tail that starts with neither whitespace, '在' nor ':' does not end a group nickname. */
  lemma NotNickTail(t: string)
    requires t != [] && !IsSpace(t[0]) && t[0] != '在' && t[0] != ':'
    ensures !GroupNickTail(t)
  {
    assert LStrip(t) == t;
  }

  /** "momo在群聊中@了你" names "momo". */
  lemma GroupNicknameExample()
    ensures GroupNickname("momo在群聊中@了你") == Some("momo")
  {
    var s := "momo在群聊中@了你";
    assert s[4..] == "在群聊中@了你";
    assert LStrip(s[4..]) == s[4..];
    assert GroupNickTail(s[4..]);
    assert GroupNickEnd(s, 4) == Some(4);
    NotNickTail(s[3..]);
    assert GroupNickEnd(s, 3) == Some(4);
    NotNickTail(s[2..]);
    assert GroupNickEnd(s, 2) == Some(4);
    NotNickTail(s[1..]);
    assert GroupNickEnd(s, 1) == Some(4);
    assert s[..4] == "momo";
    assert Strip("momo") == "momo";
  }

  /**
   * The match of `^(.*?)\s*:` in a private message's `push_content`, stripped: the text before
   * the first ':', provided no newline lies before the whitespace that precedes that ':'.
   */
  function PrivateNickname(push: string): (r: Option<string>)
    ensures r.Some? ==> r.value != [] && Strip(r.value) == r.value && ':' !in r.value && '\n' !in r.value
    ensures ':' !in push ==> r.None?
  {
    if ':' !in push then None
    else
      var c := IndexOfChar(push, ':');
      var g := RStrip(push[..c]);
      if '\n' in g then None
      else
        var n := Strip(g);
        assert ':' !in g by { assert g == push[..c][..|g|]; }
        StripWithin(g, ':');
        StripWithin(g, '\n');
        StripIdempotent(g);
        if n != [] then Some(n) else None
  }

  /** A name without ':' or a newline that neither starts nor ends with whitespace, followed by ':', is the nickname. */
  lemma PrivateNicknameOf(name: string, rest: string)
    requires IsStrippedWord(name) && ':' !in name && '\n' !in name
    ensures PrivateNickname(name + ":" + rest) == Some(name)
  {
    var s := name + ":" + rest;
    assert s[|name|] == ':';
    assert s[..|name|] == name;
    assert ':' in s;
    var c := IndexOfChar(s, ':');
    assert c == |name|;
    assert RStrip(name) == name;
  }

  /** "张三: 你好" names "张三". */
  lemma PrivateNicknameExample()
    ensures PrivateNickname("张三: 你好") == Some("张三")
  {
    assert !IsSpace('三') && !IsSpace('张');
    assert "张三: 你好" == "张三" + ":" + " 你好";
    PrivateNicknameOf("张三", " 你好");
  }

  /**
   * `at_users_str.split(',')`, each item trimmed, blank items dropped: exactly the non-blank
   * pieces appear, each stripped and without a comma.
   */
  function AtList(text: string): (r: seq<string>)
    ensures forall k :: 0 <= k < |r| ==> r[k] != [] && Strip(r[k]) == r[k] && ',' !in r[k]
    ensures forall x :: x in r <==> x in StripAll(Split(text, ',')) && x != ""
  {
    SplitItems(text, ',')
  }

  /** Mentions keep their order: a comma-joined list mentions the first part's users, then the second's. */
  lemma AtListAppend(a: string, b: string)
    ensures AtList(a + "," + b) == AtList(a) + AtList(b)
  {
    SplitItemsAppend(a, b, ',');
    assert a + "," + b == a + [','] + b;
  }

  /** A single user id, padded or not, is one mention. */
  lemma AtListSingle(id: string)
    requires ',' !in id && Strip(id) != ""
    ensures AtList(id) == [Strip(id)]
  {
    SplitItemsSingle(id, ',');
  }

  // ---------------------------------------------------------------- normalisation

  /** The truthy value among the three image URLs, in the order hd, mid, thumb. */
  function ImageUrl(n: ImageNode): (r: Option<string>)
    ensures Truthy(n.hdUrl) ==> r == n.hdUrl
    ensures !Truthy(n.hdUrl) && Truthy(n.midUrl) ==> r == n.midUrl
    ensures !Truthy(n.hdUrl) && !Truthy(n.midUrl) && Truthy(n.thumbUrl) ==> r == n.thumbUrl
    ensures !Truthy(n.hdUrl) && !Truthy(n.midUrl) && !Truthy(n.thumbUrl) ==> r.None?
  {
    if Truthy(n.hdUrl) then n.hdUrl
    else if Truthy(n.midUrl) then n.midUrl
    else if Truthy(n.thumbUrl) then n.thumbUrl
    else None
  }

  /** The voice URL: cdnurl when truthy, else voiceurl when truthy, else none. */
  function VoiceUrl(n: VoiceNode): (r: Option<string>)
    ensures Truthy(n.cdnUrl) ==> r == n.cdnUrl
    ensures !Truthy(n.cdnUrl) && Truthy(n.voiceUrl) ==> r == n.voiceUrl
    ensures !Truthy(n.cdnUrl) && !Truthy(n.voiceUrl) ==> r.None?
  {
    if Truthy(n.cdnUrl) then n.cdnUrl
    else if Truthy(n.voiceUrl) then n.voiceUrl
    else None
  }

  predicate IsGroupName(name: string)
  {
    EndsWith(name, "@chatroom")
  }

  /** The kinds the client keeps: text (1), image (3) and voice (34). */
  function KindOf(msgType: Option<int>): (r: Option<MessageKind>)
    ensures r == Some(TextMessage) <==> msgType == Some(1)
    ensures r == Some(ImageMessage) <==> msgType == Some(3)
    ensures r == Some(VoiceMessage) <==> msgType == Some(34)
  {
    match msgType
    case Some(1) => Some(TextMessage)
    case Some(3) => Some(ImageMessage)
    case Some(34) => Some(VoiceMessage)
    case _ => None
  }

  /** A message with only its id set, as the dictionary starts out. */
  function EmptyMessage(id: string): StandardMessage
  {
    StandardMessage(id, None, false, None, None, None, None, None, None, [], None)
  }

  /**
   * The first half of `_parse_wechat_message`: who sent the message and where. A group
   * message takes its room from the sender name and its sender from the "wxid_…:\n" prefix
   * of the content, which is then cut off and stripped; a private message takes its sender
   * from the sender name and keeps the content. Returns the message and the content left for
   * the second half.
   */
  method ReadSender(raw: RawMessage, id: string) returns (msg: StandardMessage, body: string)
    ensures msg.id == id && msg.kind.None? && msg.content.None? && msg.fileUrl.None? &&
      msg.fileDataB64.None? && msg.voiceFormatCode.None?
    ensures msg.isGroup <==> IsGroupName(raw.fromUserName)
    ensures msg.isGroup ==>
      msg.roomId == Some(raw.fromUserName) &&
      msg.senderId == SenderPrefix(raw.content) &&
      body == (if msg.senderId.Some? then Strip(raw.content[|msg.senderId.value| + 2..]) else raw.content) &&
      msg.senderNickname == GroupNickname(raw.pushContent) &&
      msg.atList == (if raw.msgSource != "" && raw.xml.atUserList.Some? then AtList(raw.xml.atUserList.value) else [])
    ensures !msg.isGroup ==>
      msg.roomId.None? &&
      msg.senderId == Some(raw.fromUserName) &&
      body == raw.content &&
      msg.senderNickname == PrivateNickname(raw.pushContent) &&
      msg.atList == []
  {
    msg := EmptyMessage(id);
    body := raw.content;
    if IsGroupName(raw.fromUserName) {
      msg := msg.(isGroup := true, roomId := Some(raw.fromUserName));
      var sender := SenderPrefix(raw.content);
      if sender.Some? {
        msg := msg.(senderId := sender);
        body := Strip(raw.content[|sender.value| + 2..]);
      }
      if raw.pushContent != "" {
        var nick := GroupNickname(raw.pushContent);
        if nick.Some? {
          msg := msg.(senderNickname := nick);
        }
      }
      if raw.msgSource != "" && raw.xml.atUserList.Some? {
        msg := msg.(atList := AtList(raw.xml.atUserList.value));
      }
    } else {
      msg := msg.(isGroup := false, senderId := Some(raw.fromUserName));
      body := raw.content;
      if raw.pushContent != "" {
        var nick := PrivateNickname(raw.pushContent);
        if nick.Some? {
          msg := msg.(senderNickname := nick);
        }
      }
    }
  }

  /** The fields the second half of `_parse_wechat_message` does not touch are equal. */
  predicate SameSender(a: StandardMessage, b: StandardMessage)
  {
    a.id == b.id && a.isGroup == b.isGroup && a.senderId == b.senderId &&
    a.senderNickname == b.senderNickname && a.roomId == b.roomId && a.atList == b.atList
  }

  /**
   * The second half of `_parse_wechat_message`: the kind and what goes with it. Text keeps
   * the content left by the first half; an image gets a placeholder and the best of its URLs;
   * a voice message gets a placeholder, its format code and URL and the pushed audio buffer.
   * Any other kind gives `None`.
   */
  method ReadKind(raw: RawMessage, msg: StandardMessage, body: string) returns (r: Option<StandardMessage>)
    requires msg.kind.None? && msg.content.None? && msg.fileUrl.None? && msg.fileDataB64.None? && msg.voiceFormatCode.None?
    ensures r.None? <==> KindOf(raw.msgType).None?
    ensures r.Some? ==> SameSender(r.value, msg) && r.value.kind == KindOf(raw.msgType)
    ensures r.Some? && r.value.kind == Some(TextMessage) ==>
      r.value.content == Some(body) && r.value.fileUrl.None? && r.value.fileDataB64.None? &&
      r.value.voiceFormatCode.None?
    ensures r.Some? && r.value.kind == Some(ImageMessage) ==> var m := r.value;
      m.content == Some("[图片]") &&
      m.fileUrl == (if raw.content != "" && raw.xml.image.Some? then ImageUrl(raw.xml.image.value) else None) &&
      m.fileDataB64.None? && m.voiceFormatCode.None?
    ensures r.Some? && r.value.kind == Some(VoiceMessage) ==> var m := r.value;
      m.content == Some("[语音]") &&
      (m.fileDataB64.Some? <==> Truthy(raw.imgBuffer) && raw.imgBufferLen > 0) &&
      (m.fileDataB64.Some? ==> m.fileDataB64 == raw.imgBuffer) &&
      (raw.content == "" || raw.xml.voice.None? ==> m.fileUrl.None? && m.voiceFormatCode.None?) &&
      (raw.content != "" && raw.xml.voice.Some? ==> m.voiceFormatCode == raw.xml.voice.value.voiceFormat) &&
      (raw.content != "" && raw.xml.voice.Some? ==> m.fileUrl == VoiceUrl(raw.xml.voice.value))
  {
    var m := msg;
    if raw.msgType == Some(1) {
      m := m.(kind := Some(TextMessage), content := Some(body));
    } else if raw.msgType == Some(3) {
      m := m.(kind := Some(ImageMessage), content := Some("[图片]"));
      if raw.content != "" && raw.xml.image.Some? {
        var url := ImageUrl(raw.xml.image.value);
        if url.Some? {
          m := m.(fileUrl := url);
        }
      }
    } else if raw.msgType == Some(34) {
      m := m.(kind := Some(VoiceMessage), content := Some("[语音]"));
      if raw.content != "" && raw.xml.voice.Some? {
        var node := raw.xml.voice.value;
        m := m.(voiceFormatCode := node.voiceFormat);
        var url := if Truthy(node.cdnUrl) then node.cdnUrl else node.voiceUrl;
        if Truthy(url) {
          m := m.(fileUrl := url);
        }
        assert m.fileUrl == VoiceUrl(node);
      }
      if Truthy(raw.imgBuffer) && raw.imgBufferLen > 0 {
        m := m.(fileDataB64 := raw.imgBuffer);
      }
    } else {
      return None;
    }
    return Some(m);
  }

  /**
   * `_parse_wechat_message`: fills the standard message field by field. Returns `None`
   * for a kind other than text, image or voice, and for a message without a sender (a group
   * message without the "wxid_…:\n" prefix, or a private message with an empty sender).
   */
  method ParseWechatMessage(raw: RawMessage, nowMillis: nat) returns (r: Option<StandardMessage>)
    ensures r.None? <==>
      KindOf(raw.msgType).None? ||
      (IsGroupName(raw.fromUserName) && SenderPrefix(raw.content).None?) ||
      (!IsGroupName(raw.fromUserName) && raw.fromUserName == "")
    ensures r.Some? ==> var m := r.value;
      m.id == MessageId(raw, nowMillis) &&
      m.kind == KindOf(raw.msgType) &&
      (m.isGroup <==> IsGroupName(raw.fromUserName)) &&
      m.senderId.Some? && m.senderId.value != ""
    ensures r.Some? && r.value.isGroup ==> var m := r.value;
      m.roomId == Some(raw.fromUserName) &&
      m.senderId == SenderPrefix(raw.content) &&
      m.senderNickname == GroupNickname(raw.pushContent) &&
      m.atList == (if raw.msgSource != "" && raw.xml.atUserList.Some? then AtList(raw.xml.atUserList.value) else [])
    ensures r.Some? && !r.value.isGroup ==> var m := r.value;
      m.roomId.None? &&
      m.senderId == Some(raw.fromUserName) &&
      m.senderNickname == PrivateNickname(raw.pushContent) &&
      m.atList == []
    ensures r.Some? && r.value.kind == Some(TextMessage) ==> var m := r.value;
      m.content == Some(
        if m.isGroup then Strip(raw.content[|m.senderId.value| + 2..]) else raw.content) &&
      m.fileUrl.None? && m.fileDataB64.None? && m.voiceFormatCode.None?
    ensures r.Some? && r.value.kind == Some(ImageMessage) ==> var m := r.value;
      m.content == Some("[图片]") &&
      m.fileUrl == (if raw.content != "" && raw.xml.image.Some? then ImageUrl(raw.xml.image.value) else None) &&
      m.fileDataB64.None? && m.voiceFormatCode.None?
    ensures r.Some? && r.value.kind == Some(VoiceMessage) ==> var m := r.value;
      m.content == Some("[语音]") &&
      (m.fileDataB64.Some? <==> Truthy(raw.imgBuffer) && raw.imgBufferLen > 0) &&
      (m.fileDataB64.Some? ==> m.fileDataB64 == raw.imgBuffer) &&
      (raw.content == "" || raw.xml.voice.None? ==> m.fileUrl.None? && m.voiceFormatCode.None?) &&
      (raw.content != "" && raw.xml.voice.Some? ==>
        m.voiceFormatCode == raw.xml.voice.value.voiceFormat && m.fileUrl == VoiceUrl(raw.xml.voice.value))
  {
    var msg, body := ReadSender(raw, MessageId(raw, nowMillis));
    r := ReadKind(raw, msg, body);
    if r.Some? && (r.value.senderId.None? || r.value.senderId.value == "") {
      r := None;
    }
    if r.Some? && r.value.isGroup {
      assert SenderPrefix(raw.content).Some?;
    }
  }

  // ---------------------------------------------------------------- sending text

  /**
   * The `SendTextMessage` body: one text item for the recipient; the mention list is attached
   * only when it is non-empty and the recipient is a group.
   */
  function SendTextBody(recipient: string, content: string, atList: Option<seq<string>>): (r: Json)
    ensures r.JObj? && r.fields.Keys == {"MsgItem"} && r.fields["MsgItem"].JArr? && |r.fields["MsgItem"].items| == 1
    ensures var item := r.fields["MsgItem"].items[0];
      item.JObj? && "TextContent" in item.fields && "ToUserName" in item.fields && "MsgType" in item.fields &&
      item.fields["TextContent"] == JStr(content) &&
      item.fields["ToUserName"] == JStr(recipient) &&
      item.fields["MsgType"] == JInt(1) &&
      ("AtWxIDList" in item.fields <==> atList.Some? && atList.value != [] && IsGroupName(recipient)) &&
      item.fields.Keys <= {"TextContent", "ToUserName", "MsgType", "AtWxIDList"}
    ensures var item := r.fields["MsgItem"].items[0];
      "AtWxIDList" in item.fields ==> var ids := item.fields["AtWxIDList"];
        ids.JArr? && |ids.items| == |atList.value| &&
        forall k :: 0 <= k < |ids.items| ==> ids.items[k] == JStr(atList.value[k])
  {
    var item := map["TextContent" := JStr(content), "ToUserName" := JStr(recipient), "MsgType" := JInt(1)];
    var item' :=
      if atList.Some? && atList.value != [] && IsGroupName(recipient) then
        item["AtWxIDList" := JArr(seq(|atList.value|, k requires 0 <= k < |atList.value| => JStr(atList.value[k])))]
      else item;
    JObj(map["MsgItem" := JArr([JObj(item')])])
  }
}
