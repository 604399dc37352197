/**
 * The request callback of the HTTP server: classification by method and by
 * the first path segment, accumulation of a POST body with its size limit,
 * the empty-body check, decoding and dispatch to the external handlers.
 *
 * The callback's effects are modelled as a sequence of actions: invoking a
 * handler, aborting the upload, and calling `respond` with a status and body.
 * Handlers answer later through `respond` themselves, so an invocation is
 * the end of what the dispatcher does unless the call throws.
 */
module Dispatcher {
  import opened Results
  import opened Http
  import Js
  import Paths
  import Utf8

  /** Largest accepted POST body in bytes (10 MiB); one more byte is refused. */
  const POST_SIZE_LIMIT := 10 * 1024 * 1024

  const INVALID_ENDPOINT := "Invalid API endpoint"
  const SIZE_ERROR := "POST size cannot exceed 10MB"
  const EMPTY_ERROR := "POST query must contain body"
  const FAULT_PREFIX := "An unknown error has occured: "

  /** The external operations of `controllers/api` and `controllers/debug`. */
  datatype Handler = ApiQuery | ApiIngest | ApiIngestAll | ApiQueryAll | DebugQuery

  /** How a POST body is decoded before its handler sees it. */
  datatype Decoding = Json | QueryString

  /** What the handler finds in `req.body`: nothing (GET) or the decoded POST body. */
  datatype Input = NoBody | Decoded(value: Js.Value)

  datatype Action =
    | Invoke(handler: Handler, input: Input)
    | Abort
    | Reply(status: int, payload: Js.Value)

  /**
   * The foreign code the callback calls: the two body decoders, which see the
   * received chunks and either return a value or throw with a message, and
   * the handlers, of which only a synchronous throw (Some(message)) matters
   * here.
   */
  datatype Collaborators = Collaborators(
    parseJson: seq<seq<Utf8.byte>> -> Result<Js.Value, string>,
    parseQuery: seq<seq<Utf8.byte>> -> Result<Js.Value, string>,
    run: (Handler, Input) -> Option<string>)

  const NOT_FOUND := Reply(404, Js.ErrorBody(INVALID_ENDPOINT))
  const OVERSIZE := Reply(422, Js.ErrorBody(SIZE_ERROR))
  const EMPTY_BODY := Reply(422, Js.ErrorBody(EMPTY_ERROR))

  /** The 500 reply built in a catch block from the caught error's text. */
  function Fault(err: string): (a: Action)
    ensures a.Reply? && a.status == 500
    ensures a.payload == Js.ErrorBody(FAULT_PREFIX + err)
  {
    Reply(500, Js.ErrorBody(FAULT_PREFIX + err))
  }

  /** The GET switch: segment `query` or `debug`, nothing else. */
  function GetRoute(segment: Option<string>): (r: Option<Handler>)
    ensures r == Some(ApiQuery) <==> segment == Some("query")
    ensures r == Some(DebugQuery) <==> segment == Some("debug")
    ensures r.Some? ==> r.value == ApiQuery || r.value == DebugQuery
  {
    match segment
    case Some("query") => Some(ApiQuery)
    case Some("debug") => Some(DebugQuery)
    case _ => None
  }

  /** The POST switch: four JSON endpoints and one query-string endpoint. */
  function PostRoute(segment: Option<string>): (r: Option<(Handler, Decoding)>)
    ensures r.Some? <==> segment in {Some("ingest"), Some("ingestAll"), Some("query"), Some("queryAll"), Some("debug")}
    ensures r.Some? ==> (r.value.1 == QueryString <==> segment == Some("debug"))
    ensures segment == Some("ingest") ==> r == Some((ApiIngest, Json))
    ensures segment == Some("ingestAll") ==> r == Some((ApiIngestAll, Json))
    ensures segment == Some("query") ==> r == Some((ApiQuery, Json))
    ensures segment == Some("queryAll") ==> r == Some((ApiQueryAll, Json))
    ensures segment == Some("debug") ==> r == Some((DebugQuery, QueryString))
  {
    match segment
    case Some("ingest") => Some((ApiIngest, Json))
    case Some("ingestAll") => Some((ApiIngestAll, Json))
    case Some("debug") => Some((DebugQuery, QueryString))
    case Some("query") => Some((ApiQuery, Json))
    case Some("queryAll") => Some((ApiQueryAll, Json))
    case _ => None
  }

  /** Calling a handler inside the try block: a synchronous throw becomes a 500. */
  function Call(h: Handler, input: Input, c: Collaborators): (r: seq<Action>)
    ensures 1 <= |r| <= 2 && r[0] == Invoke(h, input)
    ensures |r| == 2 <==> c.run(h, input).Some?
    ensures |r| == 2 ==> r[1] == Fault(c.run(h, input).value)
  {
    match c.run(h, input)
    case None => [Invoke(h, input)]
    case Some(err) => [Invoke(h, input), Fault(err)]
  }

  /**
   * The GET branch. The callback returns early only when a handler call
   * returns; an unmatched segment, and a handler that throws (after its 500),
   * fall through to the 404 at the end of the callback.
   */
  function OnGet(segment: Option<string>, c: Collaborators): (r: seq<Action>)
    ensures GetRoute(segment).None? ==> r == [NOT_FOUND]
    ensures GetRoute(segment).Some? ==>
              var h := GetRoute(segment).value;
              && (c.run(h, NoBody).None? ==> r == [Invoke(h, NoBody)])
              && (c.run(h, NoBody).Some? ==> r == [Invoke(h, NoBody), Fault(c.run(h, NoBody).value), NOT_FOUND])
    // the 404 is sent exactly when no handler returned normally
    ensures NOT_FOUND in r <==> GetRoute(segment).None? || c.run(GetRoute(segment).value, NoBody).Some?
  {
    match GetRoute(segment)
    case None => [NOT_FOUND]
    case Some(h) =>
      if c.run(h, NoBody).None? then Call(h, NoBody, c) else Call(h, NoBody, c) + [NOT_FOUND]
  }

  /** The running byte count `size` after the given chunks. */
  function TotalSize(chunks: seq<seq<Utf8.byte>>): nat {
    if chunks == [] then 0 else TotalSize(chunks[..|chunks| - 1]) + |chunks[|chunks| - 1]|
  }

  /** The bytes received so far, in arrival order. */
  function Received(chunks: seq<seq<Utf8.byte>>): (r: seq<Utf8.byte>)
    ensures |r| == TotalSize(chunks)
  {
    if chunks == [] then [] else Received(chunks[..|chunks| - 1]) + chunks[|chunks| - 1]
  }

  /**
   * The `data` listener over a chunk sequence: after each chunk that leaves
   * the running size above the limit, the upload is aborted and 422 sent.
   * Nothing remembers that this already happened.
   */
  function DataActions(chunks: seq<seq<Utf8.byte>>): (r: seq<Action>)
    ensures |r| % 2 == 0 && |r| <= 2 * |chunks|
    ensures forall i :: 0 <= i < |r| ==> r[i] == if i % 2 == 0 then Abort else OVERSIZE
  {
    if chunks == [] then []
    else
      DataActions(chunks[..|chunks| - 1]) + (if TotalSize(chunks) > POST_SIZE_LIMIT then [Abort, OVERSIZE] else [])
  }

  /** Decoding a body: JSON.parse or qs.parse on what was received. */
  function DecodeBody(d: Decoding, chunks: seq<seq<Utf8.byte>>, c: Collaborators): Result<Js.Value, string> {
    match d
    case Json => c.parseJson(chunks)
    case QueryString => c.parseQuery(chunks)
  }

  /** The `end` listener: empty-body check, then route, decode and call. */
  function OnEnd(chunks: seq<seq<Utf8.byte>>, segment: Option<string>, c: Collaborators): (r: seq<Action>)
    ensures TotalSize(chunks) == 0 ==> r == [EMPTY_BODY]
    ensures TotalSize(chunks) > 0 && PostRoute(segment).None? ==> r == [NOT_FOUND]
    ensures TotalSize(chunks) > 0 && PostRoute(segment).Some? ==>
              var route := PostRoute(segment).value;
              var decoded := DecodeBody(route.1, chunks, c);
              && (decoded.Failure? ==> r == [Fault(decoded.error)])
              && (decoded.Success? ==> r == Call(route.0, Decoded(decoded.value), c))
  {
    if |Received(chunks)| == 0 then [EMPTY_BODY]
    else
      match PostRoute(segment)
      case None => [NOT_FOUND]
      case Some((h, d)) =>
        match DecodeBody(d, chunks, c)
        case Failure(err) => [Fault(err)]
        case Success(v) => Call(h, Decoded(v), c)
  }

  /**
   * The whole request callback for a request whose body arrives as `chunks`;
   * `ended` says whether the `end` event is delivered after them.
   */
  function Handle(req: Request, chunks: seq<seq<Utf8.byte>>, ended: bool, c: Collaborators): (r: seq<Action>)
    ensures req.verb != "GET" && req.verb != "POST" ==> r == [NOT_FOUND]
    ensures req.verb == "GET" && GetRoute(Paths.Segment(req.pathname)).None? ==> r == [NOT_FOUND]
    ensures req.verb == "POST" ==> r == DataActions(chunks) + (if ended then OnEnd(chunks, Paths.Segment(req.pathname), c) else [])
  {
    var segment := Paths.Segment(req.pathname);
    if req.verb == "GET" then OnGet(segment, c)
    else if req.verb == "POST" then
      DataActions(chunks) + (if ended then OnEnd(chunks, segment, c) else [])
    else [NOT_FOUND]
  }

  /**
   * The `data` listener run chunk by chunk, as server.js runs it: a running
   * size, the growing body and the replies it sends.
   */
  method ReceiveBody(chunks: seq<seq<Utf8.byte>>) returns (size: nat, body: seq<Utf8.byte>, actions: seq<Action>)
    ensures size == TotalSize(chunks) && |body| == size
    ensures body == Received(chunks)
    ensures actions == DataActions(chunks)
    ensures actions == [] <==> size <= POST_SIZE_LIMIT
  {
    size := 0;
    body := [];
    actions := [];
    var i := 0;
    while i < |chunks|
      invariant 0 <= i <= |chunks|
      invariant size == TotalSize(chunks[..i])
      invariant body == Received(chunks[..i])
      invariant actions == DataActions(chunks[..i])
    {
      var data := chunks[i];
      size := size + |data|;
      body := body + data;
      if size > POST_SIZE_LIMIT {
        actions := actions + [Abort, OVERSIZE];
      }
      i := i + 1;
      assert chunks[..i][..i - 1] == chunks[..i - 1];
    }
    assert chunks[..|chunks|] == chunks;
    OversizeIffOverLimit(chunks);
  }

  lemma {:induction false} TotalSizeOfPrefix(chunks: seq<seq<Utf8.byte>>)
    requires chunks != []
    ensures TotalSize(chunks[..|chunks| - 1]) <= TotalSize(chunks)
  {
  }

  /** The data phase sends something exactly when the whole body is over 10 MiB. */
  lemma {:induction false} OversizeIffOverLimit(chunks: seq<seq<Utf8.byte>>)
    ensures DataActions(chunks) == [] <==> TotalSize(chunks) <= POST_SIZE_LIMIT
    ensures DataActions(chunks) != [] ==> DataActions(chunks)[..2] == [Abort, OVERSIZE]
    ensures forall i :: 0 <= i < |DataActions(chunks)| ==> DataActions(chunks)[i] in {Abort, OVERSIZE}
  {
    if chunks != [] {
      var prefix := chunks[..|chunks| - 1];
      OversizeIffOverLimit(prefix);
      TotalSizeOfPrefix(chunks);
      if DataActions(prefix) != [] {
        assert DataActions(chunks)[..2] == DataActions(prefix)[..2];
      }
    }
  }

  /** A body of exactly 10 MiB passes the data phase untouched. */
  lemma ExactLimitAccepted(chunks: seq<seq<Utf8.byte>>)
    requires TotalSize(chunks) == POST_SIZE_LIMIT
    ensures DataActions(chunks) == []
    ensures Abort !in DataActions(chunks)
  {
    OversizeIffOverLimit(chunks);
  }

  /** Every chunk that arrives after the limit was passed aborts and replies 422 again. */
  lemma OversizeRepeatsPerChunk(chunks: seq<seq<Utf8.byte>>, more: seq<Utf8.byte>)
    requires TotalSize(chunks) > POST_SIZE_LIMIT
    ensures DataActions(chunks + [more]) == DataActions(chunks) + [Abort, OVERSIZE]
  {
    assert (chunks + [more])[..|chunks|] == chunks;
  }

  /** An empty POST body is refused with 422 whatever the path. */
  lemma EmptyPostRefused(req: Request, chunks: seq<seq<Utf8.byte>>, c: Collaborators)
    requires req.verb == "POST" && forall i :: 0 <= i < |chunks| ==> chunks[i] == []
    ensures TotalSize(chunks) == 0
    ensures Handle(req, chunks, true, c) == [EMPTY_BODY]
  {
    EmptyChunksHaveNoSize(chunks);
    OversizeIffOverLimit(chunks);
  }

  lemma {:induction false} EmptyChunksHaveNoSize(chunks: seq<seq<Utf8.byte>>)
    requires forall i :: 0 <= i < |chunks| ==> chunks[i] == []
    ensures TotalSize(chunks) == 0
  {
    if chunks != [] {
      EmptyChunksHaveNoSize(chunks[..|chunks| - 1]);
    }
  }

  /** GET dispatch: `query` and `debug` reach their handler with no body. */
  lemma GetDispatch(req: Request, chunks: seq<seq<Utf8.byte>>, ended: bool, c: Collaborators)
    requires req.verb == "GET" && GetRoute(Paths.Segment(req.pathname)).Some?
    ensures var h := GetRoute(Paths.Segment(req.pathname)).value;
            var r := Handle(req, chunks, ended, c);
            && r[0] == Invoke(h, NoBody)
            && (c.run(h, NoBody).None? ==> r == [Invoke(h, NoBody)])
            && (c.run(h, NoBody).Some? ==> r == [Invoke(h, NoBody), Fault(c.run(h, NoBody).value), NOT_FOUND])
  {
  }

  /**
   * A GET whose handler throws is answered twice: the catch block replies
   * 500 and the callback then goes on to its final 404.
   */
  lemma GetFaultAlsoRepliesNotFound(req: Request, c: Collaborators, err: string)
    requires req.verb == "GET" && Paths.Segment(req.pathname) == Some("query")
    requires c.run(ApiQuery, NoBody) == Some(err)
    ensures Handle(req, [], false, c) == [Invoke(ApiQuery, NoBody), Fault(err), NOT_FOUND]
  {
  }

  /**
   * POST dispatch for a body within the limits: decode as the route says,
   * then call; a decoding error replies 500; an unknown segment replies 404.
   */
  lemma PostDispatch(req: Request, chunks: seq<seq<Utf8.byte>>, c: Collaborators)
    requires req.verb == "POST" && 0 < TotalSize(chunks) <= POST_SIZE_LIMIT
    ensures var segment := Paths.Segment(req.pathname);
            var r := Handle(req, chunks, true, c);
            && (PostRoute(segment).None? ==> r == [NOT_FOUND])
            && (PostRoute(segment).Some? ==>
                  var h := PostRoute(segment).value.0;
                  var decoded := DecodeBody(PostRoute(segment).value.1, chunks, c);
                  && (decoded.Failure? ==> r == [Fault(decoded.error)])
                  && (decoded.Success? ==> r[0] == Invoke(h, Decoded(decoded.value)))
                  && (decoded.Success? && c.run(h, Decoded(decoded.value)).None? ==> r == [Invoke(h, Decoded(decoded.value))])
                  && (decoded.Success? && c.run(h, Decoded(decoded.value)).Some? ==>
                        r == [Invoke(h, Decoded(decoded.value)), Fault(c.run(h, Decoded(decoded.value)).value)]))
  {
    OversizeIffOverLimit(chunks);
  }

  /** A segment neither switch knows ends in 404 for GET and for a non-empty POST. */
  lemma UnknownSegmentNotFound(req: Request, chunks: seq<seq<Utf8.byte>>, c: Collaborators)
    requires Paths.Segment(req.pathname) !in {Some("ingest"), Some("ingestAll"), Some("query"), Some("queryAll"), Some("debug")}
    requires req.verb != "POST" || 0 < TotalSize(chunks) <= POST_SIZE_LIMIT
    ensures Handle(req, chunks, true, c) == [NOT_FOUND]
  {
    if req.verb == "POST" {
      OversizeIffOverLimit(chunks);
    }
  }

  /** The data phase does not stop the `end` listener from replying as well. */
  lemma OversizeDoesNotStopEnd(req: Request, chunks: seq<seq<Utf8.byte>>, c: Collaborators)
    requires req.verb == "POST" && TotalSize(chunks) > POST_SIZE_LIMIT
    requires PostRoute(Paths.Segment(req.pathname)).None?
    ensures var r := Handle(req, chunks, true, c);
            r[..2] == [Abort, OVERSIZE] && r[|r| - 1] == NOT_FOUND
  {
    OversizeIffOverLimit(chunks);
  }

  lemma SingleChunkSize(body: seq<Utf8.byte>)
    ensures TotalSize([body]) == |body|
  {
    assert [body][..0] == [];
  }

  /**
   * `POST /ingest` whose body, such as the UTF-8 bytes of `{"track_id":"abc"}`,
   * arrives as one chunk, reaches the ingest handler with what JSON.parse
   * made of it, and with nothing else.
   */
  lemma IngestExample(req: Request, body: seq<Utf8.byte>, c: Collaborators, decoded: Js.Value)
    requires req.verb == "POST" && req.pathname == "/ingest"
    requires 0 < |body| <= POST_SIZE_LIMIT
    requires c.parseJson([body]) == Success(decoded)
    requires c.run(ApiIngest, Decoded(decoded)) == None
    ensures Handle(req, [body], true, c) == [Invoke(ApiIngest, Decoded(decoded))]
  {
    SingleChunkSize(body);
    Paths.SegmentBetweenSlashes("", "ingest", "");
    assert "" + "/" + "ingest" == "/ingest";
    OversizeIffOverLimit([body]);
  }
}
