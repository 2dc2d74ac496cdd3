/**
 * The Dify client's request logic: the upload size limit, the header selection, the chat
 * request body, and the checks and MIME fallbacks of file upload and speech to text.
 * Sending a request and the standard MIME guess are parameters.
 */
module DifyHandler {
  import opened Wrappers
  import opened Text
  import opened JsonTree
  import CivilTime

  const Megabyte: nat := 1024 * 1024

  /** The limit the speech-to-text service itself is assumed to have: 15 MB. */
  const SttServiceLimit: nat := 15 * Megabyte

  /** `int(MAX_FILE_SIZE_MB) * 1024 * 1024`, or 15 MB when the setting is not an integer. */
  function MaxFileSizeBytes(setting: string): (r: int)
    ensures ParseInt(setting).None? ==> r == 15 * Megabyte
    ensures ParseInt(setting).Some? ==> r == ParseInt(setting).value * Megabyte
  {
    match ParseInt(setting)
    case Some(n) => n * Megabyte
    case None => 15 * Megabyte
  }

  /** A missing or malformed setting falls back to the same 15 MB as the default "15". */
  lemma DefaultLimit()
    ensures MaxFileSizeBytes("15") == 15 * Megabyte
    ensures MaxFileSizeBytes("fifteen") == MaxFileSizeBytes("15")
  {
    FifteenParses();
    WordDoesNotParse();
  }

  lemma FifteenParses()
    ensures ParseInt("15") == Some(15)
  {
    assert AllDigits("15");
    assert DigitsValue("15") == 15 by {
      assert "15"[..1] == "1";
      assert DigitsValue("1") == 1 by { assert "1"[..0] == ""; }
    }
  }

  lemma WordDoesNotParse()
    ensures ParseInt("fifteen") == None
  {
    var w := "fifteen";
    assert !IsSpace(w[0]) && !IsSpace(w[|w| - 1]);
    assert Strip(w) == w;
    assert !IsDigit(w[0]);
  }

  /** `str(n)` for an integer. */
  function IntString(n: int): string
  {
    if n < 0 then "-" + CivilTime.PadNumber(-n, 0) else CivilTime.PadNumber(n, 0)
  }

  // ---------------------------------------------------------------- configuration and headers

  /** What the handler is built from: the API key, the base URL and the size setting. */
  datatype DifyConfig = DifyConfig(apiKey: string, baseUrl: string, maxFileSizeSetting: string)

  function Bearer(c: DifyConfig): string
  {
    "Bearer " + c.apiKey
  }

  /** The default headers: the bearer key and a JSON content type. */
  function DefaultHeaders(c: DifyConfig): map<string, string>
  {
    map["Authorization" := Bearer(c), "Content-Type" := "application/json"]
  }

  /** The headers for multipart requests: the bearer key only. */
  function UploadAuthHeaders(c: DifyConfig): map<string, string>
  {
    map["Authorization" := Bearer(c)]
  }

  /**
   * The header selection of `_make_request`: a copy of the defaults, replaced by the
   * upload headers (without any Content-Type) when files are sent, then overlaid with the
   * explicitly passed headers.
   */
  method RequestHeaders(c: DifyConfig, hasFiles: bool, overrides: Option<map<string, string>>) returns (h: map<string, string>)
    ensures overrides.Some? ==> forall k :: k in overrides.value ==> k in h && h[k] == overrides.value[k]
    ensures "Authorization" in h
    ensures (overrides.None? || "Authorization" !in overrides.value) ==> h["Authorization"] == Bearer(c)
    ensures hasFiles ==> ("Content-Type" in h <==> overrides.Some? && "Content-Type" in overrides.value)
    ensures !hasFiles && (overrides.None? || "Content-Type" !in overrides.value) ==> "Content-Type" in h && h["Content-Type"] == "application/json"
    ensures h.Keys == (if hasFiles then {"Authorization"} else {"Authorization", "Content-Type"}) + (if overrides.Some? then overrides.value.Keys else {})
  {
    var current := DefaultHeaders(c);
    if hasFiles {
      // The upload headers carry no Content-Type, so the source's removal of one never applies.
      current := UploadAuthHeaders(c);
    }
    if overrides.Some? {
      h := current + overrides.value;
    } else {
      h := current;
    }
  }

  // ---------------------------------------------------------------- chat

  /**
   * The `/chat-messages` body: empty inputs, the query and user, "streaming" exactly when
   * streaming is asked for, and the conversation id and files only when they are truthy.
   */
  function ChatPayload(userId: string, query: string, conversationId: Option<string>, stream: bool, files: seq<Json>): (r: map<string, Json>)
    ensures "inputs" in r && "query" in r && "user" in r && "response_mode" in r
    ensures r["inputs"] == JObj(map[]) && r["query"] == JStr(query) && r["user"] == JStr(userId)
    ensures r["response_mode"] == JStr(if stream then "streaming" else "blocking")
    ensures "conversation_id" in r <==> Truthy(conversationId)
    ensures Truthy(conversationId) ==> r["conversation_id"] == JStr(conversationId.value)
    ensures "files" in r <==> files != []
    ensures files != [] ==> r["files"] == JArr(files)
    ensures r.Keys <= {"inputs", "query", "user", "response_mode", "conversation_id", "files"}
  {
    var p := map["inputs" := JObj(map[]), "query" := JStr(query), "user" := JStr(userId),
                 "response_mode" := JStr(if stream then "streaming" else "blocking")];
    var p1 := if Truthy(conversationId) then p["conversation_id" := JStr(conversationId.value)] else p;
    if files != [] then p1["files" := JArr(files)] else p1
  }

  // ---------------------------------------------------------------- MIME fallbacks

  /** The upload's fallback MIME type by the lower-cased file name's suffix. */
  function UploadFallbackMime(name: string): (r: string)
    ensures EndsWith(Lower(name), ".png") ==> r == "image/png"
    ensures !EndsWith(Lower(name), ".png") && (EndsWith(Lower(name), ".jpg") || EndsWith(Lower(name), ".jpeg")) ==> r == "image/jpeg"
    ensures r == "application/octet-stream" <==>
      !(EndsWith(Lower(name), ".png") || EndsWith(Lower(name), ".jpg") || EndsWith(Lower(name), ".jpeg") ||
        EndsWith(Lower(name), ".gif") || EndsWith(Lower(name), ".webp") || EndsWith(Lower(name), ".txt") ||
        EndsWith(Lower(name), ".text") || EndsWith(Lower(name), ".pdf") || EndsWith(Lower(name), ".csv"))
  {
    var n := Lower(name);
    if EndsWith(n, ".png") then "image/png"
    else if EndsWith(n, ".jpg") || EndsWith(n, ".jpeg") then "image/jpeg"
    else if EndsWith(n, ".gif") then "image/gif"
    else if EndsWith(n, ".webp") then "image/webp"
    else if EndsWith(n, ".txt") || EndsWith(n, ".text") then "text/plain"
    else if EndsWith(n, ".pdf") then "application/pdf"
    else if EndsWith(n, ".csv") then "text/csv"
    else "application/octet-stream"
  }

  /** The speech-to-text fallback MIME type by the lower-cased file name's suffix. */
  function AudioFallbackMime(name: string): (r: string)
    ensures EndsWith(Lower(name), ".mp3") ==> r == "audio/mpeg"
    ensures EndsWith(Lower(name), ".amr") && !EndsWith(Lower(name), ".silk") ==> r == "audio/amr"
    ensures r == "application/octet-stream" <==>
      !(EndsWith(Lower(name), ".wav") || EndsWith(Lower(name), ".mp3") || EndsWith(Lower(name), ".m4a") ||
        EndsWith(Lower(name), ".webm") || EndsWith(Lower(name), ".mp4") || EndsWith(Lower(name), ".mpeg") ||
        EndsWith(Lower(name), ".mpga") || EndsWith(Lower(name), ".silk") || EndsWith(Lower(name), ".amr"))
  {
    var n := Lower(name);
    if EndsWith(n, ".wav") then "audio/wav"
    else if EndsWith(n, ".mp3") then "audio/mpeg"
    else if EndsWith(n, ".m4a") then "audio/m4a"
    else if EndsWith(n, ".webm") then "audio/webm"
    else if EndsWith(n, ".mp4") then "audio/mp4"
    else if EndsWith(n, ".mpeg") then "audio/mpeg"
    else if EndsWith(n, ".mpga") then "audio/mpeg"
    else if EndsWith(n, ".silk") then "audio/silk"
    else if EndsWith(n, ".amr") then "audio/amr"
    else "application/octet-stream"
  }

  /** Two suffixes with different last characters cannot both end a name. */
  lemma SuffixesExclusive(n: string, a: string, b: string)
    requires a != [] && b != [] && a[|a| - 1] != b[|b| - 1]
    ensures !(EndsWith(n, a) && EndsWith(n, b))
  {
    if EndsWith(n, a) && |b| <= |n| {
      assert n[|n| - 1] == a[|a| - 1];
      assert n[|n| - |b|..][|b| - 1] == n[|n| - 1];
    }
  }

  /** "PHOTO.JPG" falls back to image/jpeg; an unknown suffix to application/octet-stream. */
  lemma UploadFallbackExamples()
    ensures UploadFallbackMime("PHOTO.JPG") == "image/jpeg"
    ensures UploadFallbackMime("voice.silk") == "application/octet-stream"
  {
    assert Lower("PHOTO.JPG") == "photo.jpg";
    assert !EndsWith("photo.jpg", ".png");
    assert EndsWith("photo.jpg", ".jpg");
    var v := Lower("voice.silk");
    assert v == "voice.silk";
    assert !EndsWith(v, ".jpeg") && !EndsWith(v, ".text") && !EndsWith(v, ".webp");
    SuffixesExclusive(v, ".silk", ".png");
    SuffixesExclusive(v, ".silk", ".jpg");
    SuffixesExclusive(v, ".silk", ".gif");
    SuffixesExclusive(v, ".silk", ".txt");
    SuffixesExclusive(v, ".silk", ".pdf");
    SuffixesExclusive(v, ".silk", ".csv");
  }

  // ---------------------------------------------------------------- upload and speech to text

  /** An error dictionary with a status code, as the handler returns it. */
  function ErrorReply(message: string, status: int): Json
  {
    JObj(map["error" := JStr(message), "status_code" := JInt(status)])
  }

  /**
   * What `_make_request` hands back: a decoded JSON value, or a response object it could
   * not decode (rendered as its text for the error details).
   */
  datatype Reply = JsonReply(value: Json) | OtherReply(text: string)

  /** How a reply is kept: one holding `key` as is, one holding "error" as is, anything else as a generic error. */
  function KeepReply(reply: Reply, key: string, failure: string, render: Reply -> string): (r: Json)
    ensures reply.JsonReply? && reply.value.JObj? && key in reply.value.fields ==> r == reply.value
    ensures r.JObj? && (key in r.fields || "error" in r.fields)
  {
    if reply.JsonReply? && reply.value.JObj? && key in reply.value.fields then reply.value
    else if reply.JsonReply? && reply.value.JObj? && "error" in reply.value.fields then reply.value
    else JObj(map["error" := JStr(failure), "details" := JStr(PySlice(render(reply), 0, 300))])
  }

  /** The MIME type sent: the guessed one when the guess gives a non-empty type, else the fallback. */
  function ChooseMime(guess: Option<string>, fallback: string): (r: string)
    ensures guess.Some? && guess.value != "" ==> r == guess.value
    ensures guess.None? || guess.value == "" ==> r == fallback
  {
    match guess
    case Some(m) => if m != "" then m else fallback
    case None => fallback
  }

  /**
   * `upload_file_to_dify`: empty content is refused with 400 and content over the limit with
   * 413, both before any request; otherwise the file goes out with the guessed or fallback
   * MIME type and the reply is kept when it has an "id".
   */
  function UploadFile(c: DifyConfig, userId: string, size: nat, name: string,
                      guessMime: string -> Option<string>,
                      request: (string, string, string) -> Reply,
                      render: Reply -> string): (r: Json)
    ensures size == 0 ==> r == ErrorReply("文件内容为空", 400)
    ensures 0 < size && size > MaxFileSizeBytes(c.maxFileSizeSetting) ==>
      r == ErrorReply("文件大小超出应用配置限制 (" + c.maxFileSizeSetting + "MB)", 413)
    ensures 0 < size <= MaxFileSizeBytes(c.maxFileSizeSetting) ==>
      r == KeepReply(request(userId, name, ChooseMime(guessMime(name), UploadFallbackMime(name))),
                     "id", "上传文件到Dify失败或响应格式不正确", render)
    ensures r.JObj? && ("id" in r.fields || "error" in r.fields)
  {
    if size == 0 then ErrorReply("文件内容为空", 400)
    else if size > MaxFileSizeBytes(c.maxFileSizeSetting) then
      ErrorReply("文件大小超出应用配置限制 (" + c.maxFileSizeSetting + "MB)", 413)
    else
      var mime := ChooseMime(guessMime(name), UploadFallbackMime(name));
      KeepReply(request(userId, name, mime), "id", "上传文件到Dify失败或响应格式不正确", render)
  }

  /** Refused uploads do not depend on the network: no request is made. */
  lemma RefusedUploadMakesNoRequest(c: DifyConfig, userId: string, size: nat, name: string,
                                    guessMime: string -> Option<string>,
                                    q1: (string, string, string) -> Reply, q2: (string, string, string) -> Reply,
                                    render: Reply -> string)
    requires size == 0 || size > MaxFileSizeBytes(c.maxFileSizeSetting)
    ensures UploadFile(c, userId, size, name, guessMime, q1, render) == UploadFile(c, userId, size, name, guessMime, q2, render)
    ensures "status_code" in UploadFile(c, userId, size, name, guessMime, q1, render).fields
  {
  }

  /** The effective speech-to-text limit: the configured limit, capped at 15 MB. */
  function SttLimit(setting: string): (r: int)
    ensures r <= SttServiceLimit && r <= MaxFileSizeBytes(setting)
    ensures r == SttServiceLimit || r == MaxFileSizeBytes(setting)
  {
    var m := MaxFileSizeBytes(setting);
    if m < SttServiceLimit then m else SttServiceLimit
  }

  /**
   * `audio_to_text` on a local file: a missing file and an empty file are refused with 400,
   * a file over the effective limit with 413, all before any request; otherwise the reply is
   * kept when it has a "text".
   */
  function AudioToText(c: DifyConfig, userId: string, fileExists: bool, size: nat, name: string,
                       guessMime: string -> Option<string>,
                       request: (string, string, string) -> Reply,
                       render: Reply -> string): (r: Json)
    ensures !fileExists ==> r == ErrorReply("音频文件路径不存在", 400)
    ensures fileExists && size == 0 ==> r == ErrorReply("音频文件内容为空", 400)
    ensures fileExists && 0 < size && size > SttLimit(c.maxFileSizeSetting) ==>
      r == ErrorReply("STT 音频文件大小超出限制 (" + IntString(SttLimit(c.maxFileSizeSetting) / Megabyte) + "MB)", 413)
    ensures fileExists && 0 < size <= SttLimit(c.maxFileSizeSetting) ==>
      r == KeepReply(request(userId, name, ChooseMime(guessMime(name), AudioFallbackMime(name))),
                     "text", "Dify Audio-to-Text失败或响应格式不正确", render)
    ensures r.JObj? && ("text" in r.fields || "error" in r.fields)
  {
    if !fileExists then ErrorReply("音频文件路径不存在", 400)
    else if size == 0 then ErrorReply("音频文件内容为空", 400)
    else if size > SttLimit(c.maxFileSizeSetting) then
      ErrorReply("STT 音频文件大小超出限制 (" + IntString(SttLimit(c.maxFileSizeSetting) / Megabyte) + "MB)", 413)
    else
      var mime := ChooseMime(guessMime(name), AudioFallbackMime(name));
      KeepReply(request(userId, name, mime), "text", "Dify Audio-to-Text失败或响应格式不正确", render)
  }

  /** Refused speech-to-text calls do not depend on the network, and carry a status code. */
  lemma RefusedAudioMakesNoRequest(c: DifyConfig, userId: string, fileExists: bool, size: nat, name: string,
                                   guessMime: string -> Option<string>,
                                   q1: (string, string, string) -> Reply, q2: (string, string, string) -> Reply,
                                   render: Reply -> string)
    requires !fileExists || size == 0 || size > SttLimit(c.maxFileSizeSetting)
    ensures AudioToText(c, userId, fileExists, size, name, guessMime, q1, render) == AudioToText(c, userId, fileExists, size, name, guessMime, q2, render)
    ensures "status_code" in AudioToText(c, userId, fileExists, size, name, guessMime, q1, render).fields
  {
  }

  /** A reply that carries the wanted key is handed back unchanged by both calls. */
  lemma AcceptedRepliesKept(c: DifyConfig, userId: string, size: nat, name: string,
                            guessMime: string -> Option<string>,
                            request: (string, string, string) -> Reply, render: Reply -> string,
                            reply: map<string, Json>)
    requires 0 < size <= SttLimit(c.maxFileSizeSetting) && "id" in reply && "text" in reply
    requires forall u, n, m :: request(u, n, m) == JsonReply(JObj(reply))
    ensures UploadFile(c, userId, size, name, guessMime, request, render) == JObj(reply)
    ensures AudioToText(c, userId, true, size, name, guessMime, request, render) == JObj(reply)
  {
    UploadAccepted(c, userId, size, name, guessMime, request, render, reply);
    AudioAccepted(c, userId, size, name, guessMime, request, render, reply);
  }

  lemma UploadAccepted(c: DifyConfig, userId: string, size: nat, name: string,
                       guessMime: string -> Option<string>,
                       request: (string, string, string) -> Reply, render: Reply -> string,
                       reply: map<string, Json>)
    requires 0 < size <= MaxFileSizeBytes(c.maxFileSizeSetting) && "id" in reply
    requires forall u, n, m :: request(u, n, m) == JsonReply(JObj(reply))
    ensures UploadFile(c, userId, size, name, guessMime, request, render) == JObj(reply)
  {
    var mime := ChooseMime(guessMime(name), UploadFallbackMime(name));
    assert request(userId, name, mime) == JsonReply(JObj(reply));
  }

  lemma AudioAccepted(c: DifyConfig, userId: string, size: nat, name: string,
                      guessMime: string -> Option<string>,
                      request: (string, string, string) -> Reply, render: Reply -> string,
                      reply: map<string, Json>)
    requires 0 < size <= SttLimit(c.maxFileSizeSetting) && "text" in reply
    requires forall u, n, m :: request(u, n, m) == JsonReply(JObj(reply))
    ensures AudioToText(c, userId, true, size, name, guessMime, request, render) == JObj(reply)
  {
    var mime := ChooseMime(guessMime(name), AudioFallbackMime(name));
    assert request(userId, name, mime) == JsonReply(JObj(reply));
  }
}
