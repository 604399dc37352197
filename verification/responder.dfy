/**
 * `respond`, `renderView` and `timeout`: how a reply becomes response headers,
 * a write on the connection and an access-log entry, and how the per-request
 * timer interacts with them.
 *
 * Two behaviours of server.js are kept as they are: the status that is
 * logged is `statusCode || 200`, but the status written to the connection is
 * always 200; and nothing stops a second write on an exchange that already
 * has one (after a timeout, or after an earlier reply).
 */
module Responder {
  import opened Results
  import opened Http
  import Js
  import Utf8

  /** Milliseconds before the per-request timer fires; see `Timer`. */
  const TIMEOUT_MS := 1000 * 320

  /** Logged URL and referrer strings are cut to this many characters. */
  const LOG_FIELD_MAX := 128
  const ELLIPSIS := " ..."

  /** The status every `respond` puts on the wire, whatever it was asked for. */
  const WIRE_STATUS := 200
  const DEFAULT_STATUS := 200
  const TIMEOUT_STATUS := 503

  const CONTENT_TYPE := "Content-Type"
  const CONTENT_LENGTH := "Content-Length"
  const JSON_TYPE := "application/json"
  const HTML_TYPE := "text/html"

  const RENDER_ERROR := "Internal server error"

  /** Shortens a logged field: at most 128 characters survive, then " ...". */
  function Truncate(s: string): (r: string)
    ensures |s| <= LOG_FIELD_MAX ==> r == s
    ensures |s| > LOG_FIELD_MAX ==> |r| == LOG_FIELD_MAX + |ELLIPSIS|
    ensures |s| > LOG_FIELD_MAX ==> r[..LOG_FIELD_MAX] == s[..LOG_FIELD_MAX] && r[LOG_FIELD_MAX..] == ELLIPSIS
  {
    if |s| > LOG_FIELD_MAX then s[..LOG_FIELD_MAX] + ELLIPSIS else s
  }

  /** Truncating an already truncated field changes nothing. */
  lemma TruncateIdempotent(s: string)
    ensures Truncate(Truncate(s)) == Truncate(s)
  {
    if |s| > LOG_FIELD_MAX {
      var t := Truncate(s);
      assert t[..LOG_FIELD_MAX] == s[..LOG_FIELD_MAX];
    }
  }

  /** Two long fields that agree on their first 128 characters are logged alike. */
  lemma TruncateSeesOnlyPrefix(s: string, t: string)
    requires |s| > LOG_FIELD_MAX && |t| > LOG_FIELD_MAX
    requires s[..LOG_FIELD_MAX] == t[..LOG_FIELD_MAX]
    ensures Truncate(s) == Truncate(t)
  {
  }

  /** `req.headers.referer || req.headers.referrer || ''`. */
  function Referrer(h: map<string, string>): (r: string)
    ensures HeaderOrEmpty(h, "referer") != "" ==> r == h["referer"]
    ensures HeaderOrEmpty(h, "referer") == "" ==> r == HeaderOrEmpty(h, "referrer")
  {
    var referer := HeaderOrEmpty(h, "referer");
    if referer != "" then referer else HeaderOrEmpty(h, "referrer")
  }

  /** `statusCode || 200`, with None standing for an omitted status. */
  function LoggedStatus(statusCode: Option<int>): (r: int)
    ensures r != 0
    ensures statusCode.Some? && statusCode.value != 0 ==> r == statusCode.value
    ensures statusCode.None? || statusCode.value == 0 ==> r == DEFAULT_STATUS
  {
    match statusCode
    case Some(code) => if code != 0 then code else DEFAULT_STATUS
    case None => DEFAULT_STATUS
  }

  /**
   * The body after the `typeof body !== 'string'` step: a string is sent as
   * it is, anything else goes through the serialiser `stringify`, which may
   * yield `undefined` (None), as `JSON.stringify(undefined)` does.
   */
  function Serialize(body: Js.Value, stringify: Js.Value -> Option<string>): (r: Option<string>)
    ensures body.Str? ==> r == Some(body.s)
    ensures !body.Str? ==> r == stringify(body)
  {
    if body.Str? then Some(body.s) else stringify(body)
  }

  /** JavaScript truthiness of the serialised body. */
  predicate NonEmpty(body: Option<string>) {
    body.Some? && body.value != ""
  }

  /** Headers, wire body and logged figures computed by `respond`. */
  datatype Shaped = Shaped(
    status: int,                // logged status
    headers: Headers,           // headers passed to writeHead
    body: Option<string>,       // body passed to end
    length: Option<nat>)        // logged byte count; None is logged as '-'

  function Shape(statusCode: Option<int>, body: Js.Value, headers: Option<Headers>,
                 stringify: Js.Value -> Option<string>): (r: Shaped)
    ensures r.status == LoggedStatus(statusCode)
    ensures r.body == Serialize(body, stringify)
    // Content-Type follows the kind of body
    ensures CONTENT_TYPE in r.headers
    ensures r.headers[CONTENT_TYPE] == HText(if body.Str? then HTML_TYPE else JSON_TYPE)
    // a length is logged exactly for a non-empty body and is its UTF-8 size
    ensures r.length.Some? <==> NonEmpty(r.body)
    ensures r.length.Some? ==> r.length.value == |Utf8.Encode(r.body.value)| > 0
    ensures NonEmpty(r.body) ==> CONTENT_LENGTH in r.headers && r.headers[CONTENT_LENGTH] == HNumber(r.length.value)
    // for an empty body Content-Length is whatever the caller passed, if anything
    ensures !NonEmpty(r.body) ==> (CONTENT_LENGTH in r.headers <==> CONTENT_LENGTH in headers.GetOr(map[]))
    ensures !NonEmpty(r.body) && CONTENT_LENGTH in r.headers ==> r.headers[CONTENT_LENGTH] == headers.GetOr(map[])[CONTENT_LENGTH]
    // every other caller header is passed through unchanged, and nothing else is added
    ensures r.headers.Keys == headers.GetOr(map[]).Keys + {CONTENT_TYPE} + (if NonEmpty(r.body) then {CONTENT_LENGTH} else {})
    ensures forall k :: k in headers.GetOr(map[]) && k != CONTENT_TYPE && k != CONTENT_LENGTH ==> r.headers[k] == headers.GetOr(map[])[k]
  {
    var given := if headers.None? then map[] else headers.value;
    var wireBody := Serialize(body, stringify);
    var typed := given[CONTENT_TYPE := HText(if body.Str? then HTML_TYPE else JSON_TYPE)];
    var length := if NonEmpty(wireBody) then Some(Utf8.ByteLength(wireBody.value)) else None;
    var sized := if NonEmpty(wireBody) then typed[CONTENT_LENGTH := HNumber(length.value)] else typed;
    Shaped(LoggedStatus(statusCode), sized, wireBody, length)
  }

  /** The access-log line of `respond`, without its timestamp. */
  datatype AccessEntry = AccessEntry(
    remoteAddress: string,
    verb: string,
    url: string,
    versionMajor: nat,
    versionMinor: nat,
    status: int,
    length: Option<nat>,
    referrer: string,
    userAgent: string)

  datatype LogRecord = Access(entry: AccessEntry) | TimedOut(remoteAddress: string)

  /** A call of `writeHead` followed by `end` on the response. */
  datatype Write = Write(status: int, headers: Headers, body: Option<string>)

  /**
   * The per-request timer: armed at arrival for `TIMEOUT_MS`, then cleared by
   * `respond` or fired. Only the order of events is modelled, not the delay.
   */
  datatype Timer = Armed | Cleared | Fired

  /** What one request has produced so far: its timer, its writes, its log. */
  datatype Exchange = Exchange(timer: Timer, writes: seq<Write>, log: seq<LogRecord>)

  /** The exchange as the request callback starts it. */
  function Start(): (ex: Exchange)
    ensures ex.timer == Armed && ex.writes == [] && ex.log == []
  {
    Exchange(Armed, [], [])
  }

  /**
   * The access-log line for one `respond`: client address, method and HTTP
   * version as received, URL and referrer cut to 128 characters, the user
   * agent or the empty string, and the logged status and byte count.
   */
  function Entry(req: Request, shaped: Shaped): (e: AccessEntry)
    ensures e.remoteAddress == req.remoteAddress && e.verb == req.verb
    ensures e.versionMajor == req.versionMajor && e.versionMinor == req.versionMinor
    ensures |e.url| <= LOG_FIELD_MAX + |ELLIPSIS| && |e.referrer| <= LOG_FIELD_MAX + |ELLIPSIS|
    ensures |req.url| <= LOG_FIELD_MAX ==> e.url == req.url
    ensures |req.url| > LOG_FIELD_MAX ==> e.url == req.url[..LOG_FIELD_MAX] + ELLIPSIS
    ensures e.referrer == Truncate(Referrer(req.headers))
    ensures "user-agent" in req.headers ==> e.userAgent == req.headers["user-agent"]
    ensures "user-agent" !in req.headers ==> e.userAgent == ""
    ensures e.status == shaped.status && e.length == shaped.length
  {
    AccessEntry(req.remoteAddress, req.verb, Truncate(req.url), req.versionMajor, req.versionMinor,
                shaped.status, shaped.length, Truncate(Referrer(req.headers)),
                HeaderOrEmpty(req.headers, "user-agent"))
  }

  /**
   * `respond(req, res, statusCode, body, headers)`: clears the timer, logs
   * one access entry and writes once, always with status 200. It appends to
   * whatever the exchange already holds: there is no check for an earlier
   * write.
   */
  function Respond(ex: Exchange, req: Request, statusCode: Option<int>, body: Js.Value,
                   headers: Option<Headers>, stringify: Js.Value -> Option<string>): (r: Exchange)
    ensures r.timer != Armed
    ensures ex.timer != Armed ==> r.timer == ex.timer
    ensures |r.writes| == |ex.writes| + 1 && r.writes[..|ex.writes|] == ex.writes
    ensures r.writes[|ex.writes|].status == WIRE_STATUS
    ensures r.writes[|ex.writes|].body == Serialize(body, stringify)
    ensures r.writes[|ex.writes|].headers == Shape(statusCode, body, headers, stringify).headers
    ensures |r.log| == |ex.log| + 1 && r.log[..|ex.log|] == ex.log
    ensures r.log[|ex.log|].Access?
    ensures r.log[|ex.log|].entry.status == LoggedStatus(statusCode)
    ensures r.log[|ex.log|].entry.url == Truncate(req.url)
    ensures r.log[|ex.log|].entry.referrer == Truncate(Referrer(req.headers))
    ensures r.log[|ex.log|].entry.length == Shape(statusCode, body, headers, stringify).length
  {
    var timer := if ex.timer == Armed then Cleared else ex.timer;
    var shaped := Shape(statusCode, body, headers, stringify);
    Exchange(timer, ex.writes + [Write(WIRE_STATUS, shaped.headers, shaped.body)],
             ex.log + [Access(Entry(req, shaped))])
  }

  /**
   * The timer firing: only an armed timer fires, and then `timeout` logs the
   * client address and writes 503 with no headers and an empty body.
   */
  function Expire(ex: Exchange, req: Request): (r: Exchange)
    ensures ex.timer != Armed ==> r == ex
    ensures ex.timer == Armed ==> r.timer == Fired
    ensures ex.timer == Armed ==> r.writes == ex.writes + [Write(TIMEOUT_STATUS, map[], None)]
    ensures ex.timer == Armed ==> r.log == ex.log + [TimedOut(req.remoteAddress)]
  {
    if ex.timer == Armed then
      Exchange(Fired, ex.writes + [Write(TIMEOUT_STATUS, map[], None)], ex.log + [TimedOut(req.remoteAddress)])
    else ex
  }

  /**
   * `renderView`: a rendered template is sent as markup with status 200, a
   * rendering failure as the text "Internal server error" with status 500.
   * The `statusCode` argument is accepted and not used.
   */
  function RenderView(ex: Exchange, req: Request, statusCode: Option<int>, rendered: Result<string, string>,
                      headers: Option<Headers>, stringify: Js.Value -> Option<string>): (r: Exchange)
    ensures |r.writes| == |ex.writes| + 1 && r.writes[|ex.writes|].status == WIRE_STATUS
    ensures CONTENT_TYPE in r.writes[|ex.writes|].headers
    ensures r.writes[|ex.writes|].headers[CONTENT_TYPE] == HText(HTML_TYPE)
    ensures rendered.Success? ==> r.writes[|ex.writes|].body == Some(rendered.value)
    ensures rendered.Failure? ==> r.writes[|ex.writes|].body == Some(RENDER_ERROR)
    ensures |r.log| == |ex.log| + 1 && r.log[|ex.log|].Access?
    ensures r.log[|ex.log|].entry.status == if rendered.Success? then 200 else 500
  {
    match rendered
    case Success(html) => Respond(ex, req, Some(200), Js.Str(html), headers, stringify)
    case Failure(_) => Respond(ex, req, Some(500), Js.Str(RENDER_ERROR), headers, stringify)
  }

  /** Once `respond` has run, the timer can no longer fire. */
  lemma {:induction false} NoTimeoutAfterRespond(ex: Exchange, req: Request, statusCode: Option<int>, body: Js.Value,
                                                 headers: Option<Headers>, stringify: Js.Value -> Option<string>)
    ensures var r := Respond(ex, req, statusCode, body, headers, stringify);
            Expire(r, req) == r
  {
  }

  /**
   * A handler that answers after the timeout still writes: the client was
   * sent 503 and then a second write with status 200 is attempted.
   */
  lemma RespondAfterTimeoutWritesAgain(req: Request, statusCode: Option<int>, body: Js.Value,
                                       headers: Option<Headers>, stringify: Js.Value -> Option<string>)
    ensures var r := Respond(Expire(Start(), req), req, statusCode, body, headers, stringify);
            |r.writes| == 2 && r.writes[0].status == TIMEOUT_STATUS && r.writes[1].status == WIRE_STATUS
            && r.timer == Fired
  {
  }

  /** Whatever status is asked for, the wire carries 200 while the log carries the request. */
  lemma WireStatusIgnoresRequestedStatus(ex: Exchange, req: Request, code: int, body: Js.Value,
                                         headers: Option<Headers>, stringify: Js.Value -> Option<string>)
    requires code != 0
    ensures var r := Respond(ex, req, Some(code), body, headers, stringify);
            r.writes[|ex.writes|].status == 200 && r.log[|ex.log|].entry.status == code
  {
  }

  /** `renderView` ignores the status it is given. */
  lemma RenderViewIgnoresStatusCode(ex: Exchange, req: Request, s1: Option<int>, s2: Option<int>,
                                    rendered: Result<string, string>, headers: Option<Headers>,
                                    stringify: Js.Value -> Option<string>)
    ensures RenderView(ex, req, s1, rendered, headers, stringify) == RenderView(ex, req, s2, rendered, headers, stringify)
  {
  }

  /** A referrer of 200 characters is logged as its first 128 followed by " ...". */
  lemma LongReferrerIsTruncated(ex: Exchange, req: Request, statusCode: Option<int>, body: Js.Value,
                                headers: Option<Headers>, stringify: Js.Value -> Option<string>)
    requires "referer" in req.headers && |req.headers["referer"]| == 200
    ensures var logged := Respond(ex, req, statusCode, body, headers, stringify).log[|ex.log|].entry.referrer;
            |logged| == 132 && logged == req.headers["referer"][..128] + " ..."
  {
  }
}
