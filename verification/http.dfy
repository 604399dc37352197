/** The request and response shapes shared by the dispatcher and the responder. */
module Http {
  import Js

  /**
   * What the request callback and `respond` read from Node's request object;
   * `verb` is `req.method`.
   * `pathname` is what the URL parser yields for `url`. Header names are
   * lower-case, as Node presents them.
   */
  datatype Request = Request(
    verb: string,
    url: string,
    pathname: string,
    headers: map<string, string>,
    versionMajor: nat,
    versionMinor: nat,
    remoteAddress: string)

  /** A response header value: `respond` stores strings and the byte count. */
  datatype HeaderValue = HText(text: string) | HNumber(n: int)

  type Headers = map<string, HeaderValue>

  /** `h[name] || ''` on a request header. */
  function HeaderOrEmpty(h: map<string, string>, name: string): string {
    if name in h then h[name] else ""
  }
}
