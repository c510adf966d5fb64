/**
 * The protected route `GET /`: the credential validator runs first; only an
 * accepted request has its client address resolved, is logged once and
 * gets the success payload.
 */
module Handler {
  import opened Wrappers
  import opened ClientAddress
  import opened Credentials

  const OkMessage: string := "API Key OK & IP logged"

  /** What the handler reads from an inbound request. */
  datatype Request = Request(
    apiKey: Option<string>,         // the key the header extractor passes on (None when absent)
    xForwardedFor: Option<string>,  // the X-Forwarded-For header, if sent
    peerHost: string,               // host of the transport peer
    path: string)                   // the URL path

  /** The response: the JSON payload of a 200, or the validator's HTTP error. */
  datatype Response =
    | Ok(message: string, clientIp: string, path: string)
    | Unauthorized(error: HttpError)

  /** The informational log record of an authorized request. */
  datatype LogEntry = LogEntry(clientIp: string, path: string)

  /** A handled request: its response and the log records it emitted. */
  datatype Handled = Handled(response: Response, log: seq<LogEntry>)

  /** The handler for `GET /`, with the configured secret passed in. */
  function SecureInfo(secret: Option<string>, req: Request): (h: Handled)
    ensures h.response.Ok? <==> GetApiKey(req.apiKey, secret).Accepted?
    ensures h.response.Ok? <==> req.apiKey.Some? && req.apiKey == secret
    ensures h.response.Ok? ==>
      h.response == Ok(OkMessage, GetClientIp(req.xForwardedFor, req.peerHost), req.path)
    ensures h.response.Ok? ==> h.log == [LogEntry(h.response.clientIp, h.response.path)]
    ensures h.response.Unauthorized? ==>
      h.log == [] &&
      GetApiKey(req.apiKey, secret) == Rejected(h.response.error)
  {
    match GetApiKey(req.apiKey, secret)
    case Rejected(e) =>
      Handled(Unauthorized(e), [])
    case Accepted(_) =>
      var clientIp := GetClientIp(req.xForwardedFor, req.peerHost);
      Handled(Ok(OkMessage, clientIp, req.path), [LogEntry(clientIp, req.path)])
  }

  /** At most one log record per request, and one exactly when it is authorized. */
  lemma OneLogPerAuthorizedRequest(secret: Option<string>, req: Request)
    ensures |SecureInfo(secret, req).log| <= 1
    ensures |SecureInfo(secret, req).log| == 1 <==> SecureInfo(secret, req).response.Ok?
  {
  }

  /**
   * The short circuit: a rejected request's outcome does not depend on its
   * address headers or its path, as nothing about them is computed or logged.
   */
  lemma RejectionIgnoresAddress(secret: Option<string>, req: Request, other: Request)
    requires SecureInfo(secret, req).response.Unauthorized?
    requires other.apiKey == req.apiKey
    ensures SecureInfo(secret, other) == SecureInfo(secret, req)
  {
  }

  /** A request without a key is refused with "API Key required". */
  lemma MissingKeyRefused(secret: Option<string>, req: Request)
    requires req.apiKey.None?
    ensures SecureInfo(secret, req) == Handled(Unauthorized(HttpError(401, "API Key required")), [])
  {
  }

  /** A request with a key other than the secret is refused with "Invalid API Key". */
  lemma WrongKeyRefused(secret: Option<string>, req: Request)
    requires req.apiKey.Some? && req.apiKey != secret
    ensures SecureInfo(secret, req) == Handled(Unauthorized(HttpError(401, "Invalid API Key")), [])
  {
  }

  /**
   * Behind a proxy, an authorized request reports and logs the first
   * forwarded address and its own path.
   */
  lemma ProxiedRequest(secret: string, peerHost: string, path: string)
    ensures
      var req := Request(Some(secret), Some("203.0.113.5, 10.0.0.2"), peerHost, path);
      SecureInfo(Some(secret), req) ==
        Handled(Ok(OkMessage, "203.0.113.5", path), [LogEntry("203.0.113.5", path)])
  {
    ProxiedClient(peerHost);
  }

  /** Without a proxy, an authorized request reports the peer address. */
  lemma DirectRequest(secret: string, path: string)
    ensures
      var req := Request(Some(secret), None, "127.0.0.1", path);
      SecureInfo(Some(secret), req) ==
        Handled(Ok(OkMessage, "127.0.0.1", path), [LogEntry("127.0.0.1", path)])
  {
  }
}
