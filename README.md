# API-key protected endpoint with client-IP logging

A Dafny model of a one-route FastAPI service (`main.py`). The route `GET /`
is guarded by a static API key sent in the `X-API-Key` header, and every
authorized request is logged with the client's address. That address is the
first entry of `X-Forwarded-For`, or else the host of the transport peer.

The model is pure, like the source: datatypes, functions and lemmas, one
module per component.

- `wrappers.dfy`: `Option`, for Python values that may be `None`.
- `text.dfy`: the Python string operations the resolver chains together.
  These are `s.split(",")[0]` (`FirstField`), `str.isspace` (`IsSpace`) and
  `s.strip()` (`Strip`). As in CPython, `Strip` moves a start index forward
  over leading whitespace, then moves an end index back over trailing
  whitespace, never past the start. `Strip` is
  proved to be the unique trimming of its input (`StripUnique`).
- `client_address.dfy`: `get_client_ip` as `GetClientIp(xForwardedFor, peerHost)`.
- `credentials.dfy`: `get_api_key` as `GetApiKey(apiKey, secret)`. It returns
  `Accepted(key)` or `Rejected(HttpError(401, detail))`, which stands for the
  `HTTPException` of the source.
- `handler.dfy`: `secure_info` as `SecureInfo(secret, request)`. It returns
  the response together with the log records the request emitted.

The configured secret (`API_KEY = os.getenv("API_KEY")`) is a parameter of
type `Option<string>`, because the variable may be unset. The source's
`api_key != API_KEY` is modelled as `Some(key) != secret`, so with no secret
every presented key is rejected as invalid. The route's dependency injection
is modelled as function composition: the validator's result is matched
first, and only the `Accepted` branch resolves the address and logs.

The forwarded-for header is used only when it is non-empty, not whenever it
is present: the code tests it for truthiness (`if xff:`, main.py:32). A
header sent with an empty value therefore falls back to the peer host, and the
model follows the code (`ClientAddress.Forwarded`). Because every operation is
a function, repeating a request gives the same response and log record.

## Model

| member | source | states |
|---|---|---|
| Text.IsSpace | main.py:34 | the whitespace set `strip()` removes: Python's `str.isspace` on U+0000-U+00FF, that is code points 9-13, 28-32, 0x85 and 0xA0 |
| Text.FirstField | main.py:34 | `split(",")[0]`: the longest prefix of the value without the separator; either all of the value or followed by the separator |
| Text.FirstFieldWithoutSep | main.py:34 | a value without the separator is its own first field |
| Text.FirstFieldOfJoin | main.py:34 | whatever follows the first separator does not change the first field |
| Text.SkipSpaceForward | main.py:34 | the start index of `strip()`: everything skipped is whitespace and the character it stops at is not |
| Text.SkipSpaceBackward | main.py:34 | the end index of `strip()`: it does not pass the start, everything skipped is whitespace, and the character before it is not |
| Text.Strip | main.py:34 | `strip()`: a slice of the input with whitespace-only margins on both sides and no whitespace at either end |
| Text.TrimmedUnique | main.py:34 | two such trimmings of one string have the same middle part |
| Text.StripUnique | main.py:34 | any trimming of the input to a middle without edge whitespace equals `Strip` of it (independent reference definition) |
| Text.StripIdempotent | main.py:34 | stripping twice is stripping once |
| Text.StripWithout | main.py:34 | stripping introduces no character that was not in the input |
| Text.StripPadded | main.py:34 | whitespace padding around a text without edge whitespace is exactly what `strip()` removes, and the padding holds no comma |
| ClientAddress.Forwarded | main.py:32 | the truthiness test `if xff:`: the header is present and not the empty string |
| ClientAddress.GetClientIp | main.py:26-35 | a missing or empty header yields the peer host exactly; otherwise the result contains no comma and has no leading or trailing whitespace |
| ClientAddress.SingleEntry | main.py:31-34 | a non-empty header without a comma yields the whole header, stripped |
| ClientAddress.LaterEntriesIgnored | main.py:33-34 | only the part before the first comma matters: `first + "," + rest` yields `strip(first)` |
| ClientAddress.PeerIgnoredWhenForwarded | main.py:32-35 | when the header is present and non-empty, the peer host does not affect the result |
| ClientAddress.FirstFieldOfHeader | main.py:34 | the first field of an entry followed by optional further comma-separated entries is that entry |
| ClientAddress.FirstEntry | main.py:31-34 | a header made of whitespace, an address, whitespace and optionally a comma and more entries yields exactly that address |
| ClientAddress.ProxiedClient | main.py:33-34 | `"203.0.113.5, 10.0.0.2"` yields `"203.0.113.5"` |
| ClientAddress.PaddedClient | main.py:33-34 | `"  198.51.100.7  , 10.0.0.9"` yields `"198.51.100.7"` |
| ClientAddress.EmptyFirstEntry | main.py:33-34 | `",10.0.0.1"` yields the empty string |
| ClientAddress.DirectClient | main.py:35 | with no header and peer `"127.0.0.1"` the result is `"127.0.0.1"` |
| Credentials.GetApiKey | main.py:41-52 | accepted iff a key is presented and equals the configured secret, and then the key is returned unchanged; an absent key fails with 401 "API Key required"; a present key unequal to the secret fails with 401 "Invalid API Key" |
| Credentials.RejectionsAre401 | main.py:42-51 | every rejection has status 401 and one of the two fixed details |
| Credentials.UnsetSecretRejectsAll | main.py:47-51 | with the secret unset every request is rejected, and every presented key as invalid |
| Credentials.OnlyTheSecretIsAccepted | main.py:47-52 | two accepted keys are both equal to the secret |
| Credentials.DetailsDiffer | main.py:45-50 | the two rejection details are different texts |
| Handler.SecureInfo | main.py:58-72 | `Ok` iff the validator accepts (iff the key is present and equals the secret); on `Ok` the message is "API Key OK & IP logged", the address is `GetClientIp` of the request and the path is the request path, with one log record of that address and path; on rejection no log record and the validator's status and detail |
| Handler.OneLogPerAuthorizedRequest | main.py:61-66 | at most one log record per request, and one exactly when the response is `Ok` |
| Handler.RejectionIgnoresAddress | main.py:61-63 | a rejected request's outcome does not depend on its forwarded header, peer host or path |
| Handler.MissingKeyRefused | main.py:42-46 | a request without a key gets 401 "API Key required" and no log record |
| Handler.WrongKeyRefused | main.py:47-51 | a request whose key differs from the secret gets 401 "Invalid API Key" and no log record |
| Handler.ProxiedRequest | main.py:63-72 | an authorized request with `"203.0.113.5, 10.0.0.2"` reports and logs `"203.0.113.5"` and its own path |
| Handler.DirectRequest | main.py:63-72 | an authorized request without the header from peer `"127.0.0.1"` reports and logs `"127.0.0.1"` and its own path |

## Left out

- The FastAPI application object, routing, `Security` dependency injection and `async`: the handler is a plain function that composes the validator and the resolver in the source's order.
- `APIKeyHeader` extraction (main.py:14): the header value arrives as `Option<string>`. Whether the library turns an empty header value into `None` is the library's decision and is not modelled.
- `os.getenv` (main.py:13): the secret is a parameter, not process-wide state.
- Logging configuration and the formatted log text (main.py:17-18, main.py:66): a log record is the pair (client address, path).
- Header lookup details: case-insensitive names and repeated `X-Forwarded-For` headers (main.py:31) are not modelled; the header is one optional value.
- `request.client` being `None` (main.py:35 would then raise): the peer host is always supplied.
- Text.Strip: whitespace is Python's `str.isspace` on code points up to U+00FF (Starlette decodes header bytes as Latin-1, so header values stay in that range); characters above U+00FF, some of which Python also strips, are treated as non-space.
- JSON serialisation of the payload and the HTTP status plumbing of the 200 response.
- Timing-safe comparison: the source compares with plain `!=`, and the model uses plain equality.
