/**
 * Bodies of captured exchanges: the values they parse to, the size bound on
 * response bodies (truncateBody) and the fallbacks used when a body cannot be
 * parsed (parseResponseBody, parseRequestBody), all in src/recorder.js.
 *
 * `JSON.parse` and `JSON.stringify` are not modelled: they come in as the two
 * functions of a `JsonCodec`, and nothing here assumes anything about them.
 */
module Body {
  import opened Wrappers
  import opened Strings

  /** A value `JSON.parse` can produce; `JNull` also stands for a missing body. */
  datatype Json =
    | JNull
    | JBool(b: bool)
    | JNumber(n: int)
    | JString(s: string)
    | JArray(items: seq<Json>)
    | JObject(members: seq<(string, Json)>)

  /** `JSON.parse` (None when it throws) and `JSON.stringify`. */
  datatype JsonCodec = JsonCodec(parse: string -> Option<Json>, stringify: Json -> string)

  /** What truncateBody returns: `{ body, truncated, originalSize? }`. */
  datatype Truncation = Truncation(body: Json, truncated: bool, originalSize: Option<int>)

  const Ellipsis := "..."
  /** Characters of the cut text kept in the preview object. */
  const PreviewLength := 500
  /** Characters of unparsable response text kept by parseResponseBody. */
  const TextCap := 1000

  /** The text whose length is bounded: a string body as it is, anything else serialised. */
  function Serialized(body: Json, json: JsonCodec): string {
    if body.JString? then body.s else json.stringify(body)
  }

  /** `{ _truncated: true, _preview: cut.slice(0, 500) + '...' }`. */
  function Preview(cut: string): Json {
    JObject([("_truncated", JBool(true)), ("_preview", JString(SliceTo(cut, PreviewLength) + Ellipsis))])
  }

  /**
   * Bounds a response body to `limit` characters (src/recorder.js:48-88).
   * A body is truncated exactly when its serialised form is longer than
   * `limit`, and then `originalSize` is that length; otherwise it is returned
   * as it is, with no `originalSize`.
   */
  function TruncateBody(body: Json, limit: int, json: JsonCodec): (r: Truncation)
    ensures body.JNull? ==> r == Truncation(JNull, false, None)
    ensures !body.JNull? ==> (r.truncated <==> |Serialized(body, json)| > limit)
    ensures r.truncated <==> r.originalSize.Some?
    ensures r.truncated ==> r.originalSize.value == |Serialized(body, json)| && r.originalSize.value > limit
    ensures !r.truncated ==> r.body == body
    ensures r.truncated && body.JString? && json.parse(body.s).None? ==>
              r.body == JString(SliceTo(body.s, limit) + Ellipsis)
    ensures r.truncated && !(body.JString? && json.parse(body.s).None?) ==>
              var cut := SliceTo(Serialized(body, json), limit);
              r.body == (if json.parse(cut).Some? then json.parse(cut).value else Preview(cut))
  {
    if body.JNull? then Truncation(JNull, false, None)
    else
      var str := Serialized(body, json);
      if |str| <= limit then Truncation(body, false, None)
      else if body.JString? && json.parse(body.s).None? then
        Truncation(JString(SliceTo(str, limit) + Ellipsis), true, Some(|str|))
      else
        var cut := SliceTo(str, limit);
        var shortened := match json.parse(cut)
          case Some(v) => v
          case None => Preview(cut);
        Truncation(shortened, true, Some(|str|))
  }

  /** A body that was not truncated passes through a second truncation unchanged. */
  lemma TruncateIdempotent(body: Json, limit: int, json: JsonCodec)
    ensures var r := TruncateBody(body, limit, json);
            !r.truncated ==> TruncateBody(r.body, limit, json) == r
  {
  }

  /**
   * `parseResponseBody` with the transport read done: `contentType` is the
   * `content-type` header, `text` the body as read (None when reading it
   * failed). A JSON content type is parsed or gives null; other text is
   * parsed when it can be, and otherwise kept, cut to 1000 characters plus
   * `...` when longer (src/recorder.js:93-112).
   */
  function ParseResponseBody(contentType: string, text: Option<string>, json: JsonCodec): (r: Json)
    ensures text.None? ==> r == JNull
    ensures text.Some? && json.parse(text.value).Some? ==> r == json.parse(text.value).value
    ensures text.Some? && json.parse(text.value).None? ==>
              if Contains(contentType, "application/json") then r == JNull
              else r.JString? && |r.s| <= TextCap + |Ellipsis|
                   && (|text.value| <= TextCap ==> r.s == text.value)
                   && (|text.value| > TextCap ==> r.s == text.value[..TextCap] + Ellipsis)
  {
    match text
    case None => JNull
    case Some(t) =>
      if Contains(contentType, "application/json") then
        json.parse(t).GetOr(JNull)
      else
        match json.parse(t)
        case Some(v) => v
        case None => JString(if |t| > TextCap then t[..TextCap] + Ellipsis else t)
  }

  /**
   * `parseRequestBody` with `postData()` given: missing or empty post data is
   * null, JSON is parsed, anything else kept as text (src/recorder.js:117-130).
   */
  function ParseRequestBody(postData: Option<string>, json: JsonCodec): (r: Json)
    ensures postData.None? || postData == Some("") ==> r == JNull
    ensures postData.Some? && postData.value != "" ==>
              r == json.parse(postData.value).GetOr(JString(postData.value))
  {
    match postData
    case None => JNull
    case Some(data) =>
      if data == "" then JNull
      else
        match json.parse(data)
        case Some(v) => v
        case None => JString(data)
  }
}
