/** The vision client (`ZhipuVisionClient`): the API-key check of its
    constructor, the image-source rule of its request, and how
    `analyze_image_sync` turns whatever the model replied into a result record.
    The HTTP exchange is an input: either the request failed with some message,
    or the reply's `choices[0].message.content` text arrived. `json.loads` is an
    input too: its outcome on the cleaned text. */
module ZhipuVision {
  import opened Strings

  /** A decoded JSON value. */
  datatype Json =
    | JNull
    | JBool(b: bool)
    | JInt(i: int)
    | JFloat(r: real)
    | JStr(s: string)
    | JArray(items: seq<Json>)
    | JObject(fields: map<string, Json>)

  datatype Client = Client(apiKey: string)

  /** `api_key or ZHIPU_API_KEY`, then `ValueError` if that is empty or `None`. */
  function NewClient(apiKey: Option<string>, envKey: Option<string>): (r: Result<Client>)
    ensures r.Success? <==> (apiKey.Some? && apiKey.value != []) || (envKey.Some? && envKey.value != [])
    ensures r.Success? ==> r.value.apiKey != []
    ensures r.Success? && apiKey.Some? && apiKey.value != [] ==> r.value.apiKey == apiKey.value
    ensures r.Failure? ==> r.error == "ZHIPU_API_KEY is missing"
  {
    var key := if apiKey.Some? && apiKey.value != [] then apiKey else envKey;
    if key.Some? && key.value != [] then Success(Client(key.value))
    else Failure("ZHIPU_API_KEY is missing")
  }

  const DataPrefix: string := "data:image/jpeg;base64,"

  /** The `url` sent for an image: a source already starting with `http` is
      used as it is; anything else is taken to be base64 JPEG data and wrapped
      in a `data:` URL (RFC 2397, section 3: `data:` mediatype `;base64,` data). */
  function ImageUrl(src: string): (r: string)
    ensures StartsWith(src, "http") ==> r == src
    ensures !StartsWith(src, "http") ==> StartsWith(r, DataPrefix) && r[|DataPrefix|..] == src
  {
    if StartsWith(src, "http") then src else DataPrefix + src
  }

  /** The payload of a base64 JPEG `data:` URL, if the string is one. */
  function DataPayload(url: string): Option<string> {
    if StartsWith(url, DataPrefix) then Some(url[|DataPrefix|..]) else None
  }

  /** Every image reaches the model either as an `http` URL or as a data URL
      that carries exactly the given base64 text. */
  lemma ImageUrlCarriesSource(src: string)
    ensures StartsWith(ImageUrl(src), "http") || DataPayload(ImageUrl(src)) == Some(src)
    ensures !StartsWith(src, "http") ==> !StartsWith(ImageUrl(src), "http")
  {
    if !StartsWith(src, "http") {
      var r := ImageUrl(src);
      assert r[0] == 'd';
      assert !("http" <= r) by { assert r[0] != "http"[0]; }
    }
  }

  /** `content.replace("```json", "").replace("```", "").strip()`. */
  function CleanContent(content: string): (r: string)
    ensures r == [] || (!IsSpace(r[0]) && !IsSpace(r[|r| - 1]))
  {
    Strip(ReplaceAll(ReplaceAll(content, "```json", ""), "```", ""))
  }

  /** Replacing a pattern that starts with a character `x` does not contain
      passes over `x` unchanged. */
  lemma {:induction false} ReplaceAllSkips(x: string, y: string, pat: string, rep: string)
    requires pat != [] && pat[0] !in x
    ensures ReplaceAll(x + y, pat, rep) == x + ReplaceAll(y, pat, rep)
    decreases |x|
  {
    if x != [] {
      var s := x + y;
      assert s[0] == x[0] && s[1..] == x[1..] + y;
      if |s| < |pat| {
        assert ReplaceAll(y, pat, rep) == y;
      } else {
        assert !(pat <= s) by { assert s[0] != pat[0]; }
        ReplaceAllSkips(x[1..], y, pat, rep);
        calc {
          ReplaceAll(s, pat, rep);
          [s[0]] + ReplaceAll(s[1..], pat, rep);
          [x[0]] + (x[1..] + ReplaceAll(y, pat, rep));
          ([x[0]] + x[1..]) + ReplaceAll(y, pat, rep);
          { assert [x[0]] + x[1..] == x; }
          x + ReplaceAll(y, pat, rep);
        }
      }
    } else {
      assert x + y == y;
    }
  }

  /** A reply in the usual fenced form, "```json", a body without backticks,
      then "```", is cleaned to exactly the stripped body. */
  lemma CleanFencedReply(body: string)
    requires '`' !in body
    ensures CleanContent("```json" + body + "```") == Strip(body)
  {
    var s := "```json" + body + "```";
    assert s[..7] == "```json";
    assert s[7..] == body + "```";
    assert ReplaceAll(s, "```json", "") == ReplaceAll(body + "```", "```json", "");
    ReplaceAllSkips(body, "```", "```json", "");
    assert ReplaceAll("```", "```json", "") == "```";
    ReplaceAllSkips(body, "```", "```", "");
    assert ReplaceAll("```", "```", "") == "" + ReplaceAll([], "```", "");
    assert body + [] == body;
  }

  /** How the HTTP exchange ended. */
  datatype Reply = RequestFailed(message: string) | Content(text: string)

  /** The value `analyze_image_sync` returns: normally a dict; a decoded JSON
      string or list that happens to contain both `"decision"` and `"reason"`
      passes through unchanged, because `in` on it succeeds and no key is
      assigned. */
  datatype VisionResult = Dict(fields: map<string, Json>) | NonDict(value: Json)

  function ApiError(message: string): (r: map<string, Json>)
    ensures r.Keys == {"decision", "score", "reason", "similar_count"}
    ensures r["decision"] == JStr("NO") && r["score"] == JFloat(0.0) && r["similar_count"] == JInt(0)
    ensures r["reason"] == JStr("API Error: " + message)
  {
    map["decision" := JStr("NO"), "score" := JFloat(0.0),
        "reason" := JStr("API Error: " + message), "similar_count" := JInt(0)]
  }

  /** `"YES" in content.upper() or "是" in content`. */
  predicate LooksLikeYes(content: string) {
    Contains(Upper(content), "YES") || Contains(content, "是")
  }

  /** The record built when the cleaned text is not JSON. */
  function RawTextResult(content: string): (r: map<string, Json>)
    ensures r.Keys == {"decision", "score", "reason", "similar_count"}
    ensures r["decision"] == (if LooksLikeYes(content) then JStr("YES") else JStr("NO"))
    ensures r["score"] == JFloat(0.5) && r["similar_count"] == JInt(0)
    ensures r["reason"] == JStr(Take(content, 100))
  {
    map["decision" := JStr(if LooksLikeYes(content) then "YES" else "NO"),
        "score" := JFloat(0.5), "reason" := JStr(Take(content, 100)),
        "similar_count" := JInt(0)]
  }

  /** `dict.get(key, default)`. */
  function Get(m: map<string, Json>, key: string, default: Json): Json {
    if key in m then m[key] else default
  }

  /** The `TypeError` text Python gives for `"decision" in v` on a decoded
      scalar, or for assigning a string key into a decoded string or list. */
  function NotADictMessage(v: Json): string
    requires !v.JObject?
  {
    match v
    case JNull => "argument of type 'NoneType' is not iterable"
    case JBool(_) => "argument of type 'bool' is not iterable"
    case JInt(_) => "argument of type 'int' is not iterable"
    case JFloat(_) => "argument of type 'float' is not iterable"
    case JStr(_) => "'str' object does not support item assignment"
    case JArray(_) => "list indices must be integers or slices, not str"
  }

  /** Python's `key in v` for a decoded value that is not a dict. */
  predicate HasKeyLike(v: Json, key: string) {
    match v
    case JStr(s) => Contains(s, key)
    case JArray(items) => JStr(key) in items
    case _ => false
  }

  /** What `analyze_image_sync` returns, given how the request ended and what
      `json.loads` made of the cleaned content. */
  function Normalised(reply: Reply, decoded: Option<Json>): VisionResult {
    match reply
    case RequestFailed(e) => Dict(ApiError(e))
    case Content(c) =>
      match decoded
      case None => Dict(RawTextResult(c))
      case Some(JObject(m)) =>
        var m1 := if "decision" in m then m else m["decision" := JStr("NO")];
        Dict(if "reason" in m1 then m1 else m1["reason" := JStr(Take(c, 50))])
      case Some(v) =>
        if HasKeyLike(v, "decision") && HasKeyLike(v, "reason") then NonDict(v)
        else Dict(ApiError(NotADictMessage(v)))
  }

  /** `analyze_image_sync` after the request: `json.loads`, then the two
      default keys are added to the decoded dict in place. */
  method AnalyzeImageSync(client: Client, reply: Reply, decoded: Option<Json>) returns (r: VisionResult)
    ensures r == Normalised(reply, decoded)
    ensures reply.RequestFailed? ==> r == Dict(ApiError(reply.message))
    ensures reply.Content? && decoded.None? ==> r == Dict(RawTextResult(reply.text))
    ensures reply.Content? && decoded.Some? && decoded.value.JObject? ==>
      r.Dict? && r.fields.Keys == decoded.value.fields.Keys + {"decision", "reason"}
    ensures reply.Content? && decoded.Some? && decoded.value.JObject? ==>
      forall k :: k in decoded.value.fields ==> r.fields[k] == decoded.value.fields[k]
    ensures reply.Content? && decoded.Some? && decoded.value.JArray?
            && !(JStr("decision") in decoded.value.items && JStr("reason") in decoded.value.items) ==>
      r == Dict(ApiError("list indices must be integers or slices, not str"))
    ensures r.Dict? ==> "decision" in r.fields && "reason" in r.fields
  {
    match reply {
      case RequestFailed(e) =>
        r := Dict(ApiError(e));
      case Content(c) =>
        match decoded {
          case None =>
            r := Dict(RawTextResult(c));
          case Some(v) =>
            if v.JObject? {
              var data := v.fields;
              if "decision" !in data {
                data := data["decision" := JStr("NO")];
              }
              if "reason" !in data {
                data := data["reason" := JStr(Take(c, 50))];
              }
              r := Dict(data);
            } else if HasKeyLike(v, "decision") && HasKeyLike(v, "reason") {
              r := NonDict(v);
            } else {
              r := Dict(ApiError(NotADictMessage(v)));
            }
        }
    }
  }

  /** A decoded dict that already has a decision and a reason comes back
      exactly as decoded; a missing decision always reads as `"NO"`. */
  lemma DefaultsOnlyFillGaps(c: string, m: map<string, Json>)
    ensures "decision" in m && "reason" in m ==> Normalised(Content(c), Some(JObject(m))) == Dict(m)
    ensures "decision" !in m ==> Normalised(Content(c), Some(JObject(m))).fields["decision"] == JStr("NO")
    ensures "reason" !in m ==> Normalised(Content(c), Some(JObject(m))).fields["reason"] == JStr(Take(c, 50))
  {
  }

  /** Only a request that went through and a decision of exactly `"YES"` can
      make the result a keep; every failure reads as `"NO"`. */
  lemma FailuresDecideNo(reply: Reply, decoded: Option<Json>)
    requires reply.RequestFailed? || (decoded.Some? && !decoded.value.JObject?
      && !(HasKeyLike(decoded.value, "decision") && HasKeyLike(decoded.value, "reason")))
    ensures Normalised(reply, decoded).Dict?
    ensures Normalised(reply, decoded).fields["decision"] == JStr("NO")
  {
  }
}
