# Echoprint HTTP front end — a Dafny model

This project models the request handling of the echoprint server's HTTP front
end (`server.js`) and its settings module (`config.js`).

- **Request callback.** A request is classified by its method and by piece [1]
  of `pathname.split('/', 16)`. GET `query` and `debug` go to their handlers.
  A POST body is collected chunk by chunk. When the running byte count passes
  10 MiB the upload is aborted and a 422 is sent. At the end of the body, an
  empty body gets a 422. Otherwise the body is decoded (JSON for `ingest`,
  `ingestAll`, `query` and `queryAll`, query-string for `debug`) and the
  handler is called. A decode error or a handler's synchronous throw becomes
  a 500 carrying `'An unknown error has occured: ' + err`. Everything else
  gets 404 `{error: 'Invalid API endpoint'}`.
- **`respond`.** It clears the request's timer, logs `statusCode || 200`, and
  sets Content-Type from the body kind. It sets Content-Length to the body's
  UTF-8 byte count (RFC 3629) when the body is non-empty. The access log
  carries the URL and referrer cut to 128 characters plus `' ...'`. The
  response is written with `writeHead(200, …)`.
- **`renderView`** sends rendered markup logged as 200, or the text
  `Internal server error` logged as 500. Like every `respond`, both go out
  with status 200 on the wire.
- **`timeout`** writes 503 with no body.
- **Settings.** The defaults (`web_port` 37760, `code_threshold` 10, …) are
  overlaid with the own properties of `./config.<env>`. When that module does
  not load, the defaults stay as they are.

Modules:

| file | module | contents |
|---|---|---|
| results.dfy | Results | `Option` and `Result` |
| js.dfy | Js | JavaScript values and the `{error: …}` body |
| utf8.dfy | Utf8 | UTF-8 byte length, encoder, and a strict decoder that inverts the encoder |
| paths.dfy | Paths | `split('/')`, its limit of 16 pieces, `join`, and segment [1] |
| http.dfy | Http | request and response header types |
| responder.dfy | Responder | `respond`, `renderView`, `timeout`, and the per-request timer |
| dispatcher.dfy | Dispatcher | the request callback as a sequence of actions |
| lifecycle.dfy | Lifecycle | the callback's replies delivered through `respond` |
| config.dfy | Config | defaults, environment, and the override merge |

The request callback's effects form a sequence of actions: invoke a handler,
abort the upload, or reply (a call of `respond`). `Lifecycle.Deliver` turns
the replies into write attempts and log entries on an `Exchange`, which holds
the request's timer, its writes and its log.

Behaviours of server.js that the model keeps as written:

- **Status on the wire.** `respond` logs `statusCode || 200` but always
  calls `writeHead(200, …)` (server.js:154, server.js:191). The model writes
  200 on every `respond` and logs the requested status.
- **Second responses.** Nothing in server.js stops a second write on the
  same response:
  - Every chunk after the 10 MiB limit replies 422 again (server.js:63-66).
  - The `end` listener still runs after an oversize reply (server.js:69).
  - A handler that answers after the timeout still writes (server.js:190-192).
  - A GET handler that throws synchronously is answered with 500, and then
    with the 404 at the end of the callback (server.js:49-54 fall through to
    server.js:120).

  The model records every write attempt. Lemmas show these second writes.
- **`renderView`.** It ignores its `statusCode` argument and passes 200 to
  `respond` (server.js:143).

Foreign code is passed in as function-typed parameters:

- `JSON.parse`, `qs.parse`: `Dispatcher.Collaborators`, which see the received chunks.
- the handlers' synchronous throws: `Dispatcher.Collaborators`.
- `JSON.stringify`: the `stringify` parameter of `respond`.
- `jade.renderFile`: the `rendered` result of `RenderView`.
- `require`: the `load` parameter of `Config.LoadSettings`.

## Model

| member | source | states |
|---|---|---|
| Utf8.ByteLength | server.js:166 | The byte count lies between the character count and four times it, and is zero exactly for the empty body. |
| Utf8.ByteLengthAppend | server.js:166 | Byte length is additive over concatenation. |
| Utf8.EncodeChar | server.js:192 | One character encodes to its RFC 3629 width in bytes. A single byte is below 0x80 and the rest are continuation bytes. |
| Utf8.Encode | server.js:192 | The bytes sent for a body number exactly the byte length `respond` computes. |
| Utf8.DecodeEncode | server.js:166-168 | Decoding the encoded body gives back the body, so Content-Length counts a faithful UTF-8 encoding. |
| Paths.Split | server.js:31 | `split('/')` has one more piece than the path has slashes. It has a single piece exactly when there is no slash, and no piece contains a slash. |
| Paths.JoinSplit | server.js:31 | Joining the pieces with '/' restores the pathname. |
| Paths.SplitLimit | server.js:31 | `split('/', 16)` keeps the first min(16, pieces) pieces of the full split unchanged. |
| Paths.Segment | server.js:31 | Piece [1] is undefined exactly when the pathname has no slash. Otherwise it is the full split's piece [1], which has no slash. |
| Paths.SegmentBetweenSlashes | server.js:31-37 | The dispatch segment is the text between the first and second '/', whatever surrounds it. |
| Responder.Truncate | server.js:174-179 | A field of up to 128 characters is logged unchanged. A longer one becomes its first 128 characters followed by " ...". |
| Responder.TruncateIdempotent | server.js:174-179 | Truncating a truncated field changes nothing. |
| Responder.TruncateSeesOnlyPrefix | server.js:174-179 | Long fields that share their first 128 characters are logged identically. |
| Responder.Referrer | server.js:173 | The logged referrer is `referer` when non-empty, else `referrer`, else empty. |
| Responder.LoggedStatus | server.js:154 | The logged status is never 0. It is the given status when that is truthy, else 200. |
| Responder.Serialize | server.js:159-163 | A string body is sent unchanged. Any other value goes through `JSON.stringify`, which may yield nothing. |
| Responder.Shape | server.js:156-168 | Content-Type is text/html for a string body and application/json otherwise. For a non-empty body, `respond` sets Content-Length to its UTF-8 byte count, and the same count is logged. For an empty body, Content-Length is whatever the caller passed, if anything, and the logged length is '-'. Other caller headers pass through. |
| Responder.Entry | server.js:170-188 | The access entry carries the client address, method and HTTP version as received, the URL and referrer cut to 128 characters plus " ...", the `user-agent` header or the empty string, and the logged status and length. |
| Responder.Respond | server.js:150-197 | The timer is no longer armed. Exactly one write is appended after the earlier ones, with wire status 200, the serialised body and the shaped headers. One log entry records the logged status, the truncated URL and referrer, and the length. |
| Responder.Expire | server.js:202-213 | Only an armed timer fires. Firing logs a timeout and appends a 503 write with no headers and no body. Otherwise nothing changes. |
| Responder.RenderView | server.js:136-145 | A rendered page is sent as text/html and logged 200. A render failure sends "Internal server error" and is logged 500. The wire status is 200 either way. |
| Responder.NoTimeoutAfterRespond | server.js:152 | After `respond`, the timer firing changes nothing. |
| Responder.RespondAfterTimeoutWritesAgain | server.js:190-192 | After a timeout, a later `respond` still writes: a 503 and then a 200 write. |
| Responder.WireStatusIgnoresRequestedStatus | server.js:191 | For any non-zero requested status the wire carries 200 and the log carries the requested status. |
| Responder.RenderViewIgnoresStatusCode | server.js:136-143 | `renderView` gives the same result whatever status argument it receives. |
| Responder.LongReferrerIsTruncated | server.js:173-175 | A 200-character referrer is logged as its first 128 characters plus " ...", 132 in all. |
| Dispatcher.Fault | server.js:111-115 | The catch block replies 500 with `{error: 'An unknown error has occured: ' + err}`. |
| Dispatcher.GetRoute | server.js:34-48 | GET reaches `api.query` exactly for segment `query` and `debug.debugQuery` exactly for `debug`, and nothing else. |
| Dispatcher.PostRoute | server.js:75-109 | POST routes exist exactly for the five segments. `debug` alone decodes as a query string. Each segment maps to its handler. |
| Dispatcher.Call | server.js:111-115 | A handler call is an invocation, followed by a 500 exactly when the handler throws. |
| Dispatcher.Received | server.js:57-60 | The accumulated body has as many bytes as the running size. |
| Dispatcher.OnEnd | server.js:69-116 | An empty body gets 422 'POST query must contain body' before any routing. An unknown segment gets 404. A decode failure gets 500. Otherwise the routed handler is called with the decoded body. |
| Dispatcher.OnGet | server.js:34-54 | An unmatched GET segment gets only the 404 of server.js:120. A matched one invokes its handler with no body. A handler that returns ends the callback. A handler that throws gets the 500 and then the fall-through 404. |
| Dispatcher.DataActions | server.js:58-67 | The data phase is a run of abort-then-422 pairs, at most one pair per chunk. |
| Dispatcher.Handle | server.js:26-120 | A method other than GET or POST gets 404. A GET with an unmatched segment gets 404. A POST gets the data-phase actions, then the end-phase actions when the body ends. |
| Dispatcher.ReceiveBody | server.js:58-67 | The `data` loop's running size is the sum of chunk lengths and the body is their concatenation. It replies only when the total exceeds 10 MiB. |
| Dispatcher.OversizeIffOverLimit | server.js:20 | The data phase acts exactly when the total exceeds 10*1024*1024. It starts with the abort and then the 422, and contains nothing else. |
| Dispatcher.ExactLimitAccepted | server.js:63 | A body of exactly 10 MiB is neither aborted nor refused. |
| Dispatcher.OversizeRepeatsPerChunk | server.js:58-66 | Each chunk after the limit aborts and replies 422 again. |
| Dispatcher.EmptyPostRefused | server.js:69-72 | A POST whose chunks are all empty gets exactly the 422 empty-body reply, whatever its path. |
| Dispatcher.GetDispatch | server.js:34-54 | A routed GET invokes its handler with no body. If the handler throws, the reply is 500 and then 404. |
| Dispatcher.GetFaultAlsoRepliesNotFound | server.js:49-54 | A throwing GET `query` handler yields invocation, 500, 404 in that order (server.js:120 supplies the 404). |
| Dispatcher.PostDispatch | server.js:74-115 | A POST body within the limits is routed by segment: 404 if unknown, 500 on decode failure, otherwise the handler gets the decoded value. A throwing handler adds a 500. |
| Dispatcher.UnknownSegmentNotFound | server.js:107-108 | A segment neither switch knows, with a POST body within the limits, gets exactly the 404. |
| Dispatcher.OversizeDoesNotStopEnd | server.js:58-72 | After an oversize abort and 422, the `end` listener still replies 404 to an unknown segment. |
| Dispatcher.IngestExample | server.js:77-80 | A one-chunk `POST /ingest` within the limit invokes exactly `api.ingest` with the parsed JSON. |
| Lifecycle.ReplyActions | server.js:26-120 | The replies among the callback's actions, in order: all of them calls of `respond`, never more than the actions. |
| Lifecycle.ReplyActionsMembers | server.js:26-120 | An action is among the replies exactly when it occurs among the actions and is a reply. |
| Lifecycle.ReplyActionsSplit | server.js:26-120 | The replies of two runs of actions are the replies of the first followed by those of the second. |
| Lifecycle.WriteOf | server.js:150-192 | The write for a reply has status 200, the headers `respond` shapes for its status and body, and the serialised body. |
| Lifecycle.LogOf | server.js:154-188 | The access entry for a reply logs its status, or 200 when the status is 0. |
| Lifecycle.Step | server.js:150-197 | A reply appends exactly its write and its access entry and disarms the timer. Other actions change nothing. |
| Lifecycle.Deliver | server.js:150-197 | With no reply among the actions nothing changes. Any reply disarms the timer. |
| Lifecycle.DeliverWrites | server.js:150-197 | The new writes are the replies' writes, one per reply, in the replies' order, after the earlier writes. |
| Lifecycle.DeliverLog | server.js:150-197 | The new log entries are the replies' access entries, one per reply, in order, after the earlier entries. |
| Lifecycle.DeliverPairs | server.js:150-197 | The k-th reply becomes the k-th new write, with status 200 and the headers and body `respond` shapes for it, and the k-th new access entry, with its logged status. Earlier writes and entries stay in front. |
| Lifecycle.DeliverStatuses | server.js:154-191 | Each reply yields one write on status 200 and one access entry logging the reply's status. |
| Lifecycle.OversizedUnknownPostReplies | server.js:58-72 | An oversize POST to an unknown segment whose end arrives has at least two replies: the 422 first and the 404 last. |
| Lifecycle.OversizedUnknownPostWritesTwice | server.js:63-72 | Such an upload produces at least two writes. The first is logged 422 and the last 404. |
| Lifecycle.GetFaultReplies | server.js:49-54 | A routed GET whose handler throws has exactly two replies: the 500 and then the 404 of server.js:120. |
| Lifecycle.GetFaultWritesTwice | server.js:49-54 | A routed GET (`query` or `debug`) whose handler throws produces two 200 writes, logged 500 and then 404. |
| Lifecycle.LateAnswerAfterTimeout | server.js:207-209 | After the 503, a late `respond` adds a second write with status 200. |
| Lifecycle.DefaultStatusLogged | server.js:154 | A response with no status is logged as 200. |
| Config.Environment | config.js:7 | The environment is NODE_ENV when set and non-empty, else 'development'. It is never empty. |
| Config.Defaults | config.js:9-36 | The defaults have exactly the eleven documented keys, with `environment` and `log_path` taken from the inputs. |
| Config.Override | config.js:42-45 | Own properties win, untouched defaults keep their value, and the keys are those of both. |
| Config.ApplyOverrides | config.js:42-45 | The loop over all enumerable properties copies only the own ones. The result has the default keys plus the own keys, own values win, and other defaults are unchanged. |
| Config.LoadSettings | config.js:38-54 | If `./config.<env>` fails to load, the settings equal the defaults. Otherwise every own property overrides, properties only in the local module are added, and the remaining defaults keep their values. |
| Config.DefaultsWithoutOverride | config.js:49-52 | With no override, `web_port` is 37760, `code_threshold` is 10 and `environment` is the chosen environment. |
| Config.InheritedPropertiesIgnored | config.js:43 | An inherited, non-own property of the local module neither adds nor changes a setting. |
| Config.OverrideIdempotent | config.js:42-45 | Applying the same override twice equals applying it once. |

## Left out

- Server set-up (`http.createServer`, `listen`, the `clientError` listener) and reading the client address from the socket: I/O. The address is a field of the request.
- `newrelic` calls and the winston side effects: not part of the behaviour. Access-log lines are structured records without their timestamp. The timeout log is a record with the client address. The `log.error`/`log.warn`/`log.info` texts of the catch blocks, `renderView` and the settings module are not modelled.
- Real-time behaviour of `setTimeout` (320 s) and the race between the timer and `respond`: the timer is a three-state flag, and the order of events is the caller's choice.
- `JSON.parse`, `qs.parse`, `JSON.stringify`, `jade.renderFile` and `require`: foreign calls, given as parameters that succeed or fail.
- The handlers in `controllers/api` and `controllers/debug`: not part of this model. Only whether a call throws synchronously is modelled.
- `url.parse`: the request carries the `pathname` it yields. A URL with no pathname (where `split` would throw outside any try) is not modelled.
- The try/catch around `writeHead`/`end` in `respond` and `timeout`: the model records write attempts. Whether Node refuses a write on a finished response, and the logged error, are not modelled.
- `req.abort()` (server.js:64): the model assumes the call returns normally, so that the 422 on the next line is sent. `abort` is a method of Node's client request, not of the incoming request a server callback receives; if the running Node version has no such method, the call throws inside the `data` listener and the 422 is never sent. Which happens depends on the Node API, which is not part of this model.
- The effect of `req.abort()` on the stream: chunks delivered after it, and whether `end` still arrives, are inputs of `Dispatcher.Handle`.
- Per-chunk Buffer-to-string conversion of the body: the decoders receive the chunk list. The empty-body check is the byte count being 0, because a non-empty Buffer always converts to a non-empty string.
- Mutation of the caller's `headers` object by `respond`, the `__proto__` property name in the settings override, and JavaScript's `Object.prototype`: not modelled.
- Responder.LoggedStatus: models the status as an optional integer, so falsy non-numbers such as `NaN`, `null` or `''` are not modelled, nor are truthy non-numbers such as strings.
- Responder.Truncate: counts Unicode scalar values, whereas JavaScript's `length` and `substr` count UTF-16 code units. The two agree for strings inside the Basic Multilingual Plane, which includes every ASCII URL.
- Utf8.ByteLength: covers strings of Unicode scalar values only. A JavaScript string can hold a lone surrogate, which `Buffer.byteLength` counts as 3 bytes.
- Js numbers are integers: floating-point settings and bodies are not modelled.
