# A verified model of the request handler of a minimal Rust HTTP server

The server accepts TCP connections. For each one it does the following, all in `handle_connection`:

1. Read once into a zero-filled buffer of 1024 bytes. The read may deliver fewer bytes than the client sent, and there is no second read.
2. Decode the bytes that were read and take the first line.
3. Route that line by string prefix:
   - `GET /version ` gives the version page.
   - Any other `GET ` line gives a 404 page that shows the requested path.
   - Everything else gives a 400 page.
4. For the version page, choose the JSON body when the request contains `Accept: application/json` anywhere, and the HTML page otherwise.
5. Frame the response: status line, `Content-Type: text/html`, `Content-Length` equal to the body's byte length, a blank line, then the body.
6. Report the number of bytes read, the status text and the path.

The model follows that pipeline stage by stage. Each stage is a module, in its own file:

- `wrappers.dfy` (`Wrappers`): `Option`, with `unwrap_or`.
- `strings.dfy` (`Strings`): the `str` operations the handler uses.
  - `contains`, and the line-feed search under `lines()`, through a first-occurrence search of the model's own (`Find`).
  - `split_whitespace`, over the Unicode White_Space characters.
  - `len`, the UTF-8 byte length.
- `decimal.dfy` (`Decimal`): decimal text of the Content-Length, and reading it back.
- `request.dfy` (`Request`): the buffer capacity, byte decoding, the first line, and the Accept check.
- `router.dfy` (`Router`): the `Outcome` datatype (`Version | NotFound(path) | BadRequest`), the router, and the status line, status text and reported path of each outcome.
- `response.dfy` (`Response`): the pages, body selection, the framing, and a client-side parser of framed responses.
  - The parser is the framing's partner. The round trip is proved for every body, and for the response to every request.
- `connection.dfy` (`Connection`): the imperative handler.
  - `ReadRequest` allocates the 1024-byte array and stores the bytes the read delivers. How many that is (at most 1024, and at most what was sent) is an input, since the operating system decides it.
  - `HandleConnection` runs the pipeline on what was read. Its contract ties the response and the report to the functional model.

The page bodies come from templates filled with values from the environment. They appear only as opaque strings (`Pages`), with two shapes kept:

- The HTML version page embeds the JSON document.
- The 404 page shows the path between a fixed head and tail.

Behaviour worth knowing, as the code has it:

- The version route matches the prefix `GET /version ` with the trailing space; the path is not compared exactly. So `GET /version` at the end of the line, or followed by a tab, is a 404 for `/version` (`Router.RouteNotFound`). A line such as `GET /version?x HTTP/1.1` is also a 404.
- Every response is labelled `Content-Type: text/html`, the JSON body included.
- A read of zero bytes is not special-cased. The empty request has no first line, so the line is `""` and the answer is a 400 (`Response.EmptyRequestIsBad`).
- Only the prefix `GET ` is checked; the method token is not parsed further.
- `Content-Length` is `String::len`, the UTF-8 byte length. The 400 page holds U+2717, so the byte length can differ from the character count. `Strings.Utf8Length` models this.
- `lines()` drops a carriage return only when a line feed follows it. A request without a line feed is one whole line, including any trailing `\r`.

## Model

| member | source | states |
|---|---|---|
| `Request.Decode` | src/main.rs:109 | decoding keeps one character per byte: an ASCII byte is its own character, any other byte becomes U+FFFD |
| `Request.DecodePrefix` | src/main.rs:108-109 | decoding the first n bytes gives the first n characters of the decoded text |
| `Connection.ReadRequest` | src/main.rs:106-107 | the buffer is fresh and holds 1024 bytes. The count read is the n bytes the read delivers (n at most 1024 and at most what was sent, possibly fewer: a short read), and they are the first n bytes sent. The rest of the buffer stays zero, so a longer request is cut short, not refused |
| `Connection.HandleConnection` | src/main.rs:105-397 | the response is the framed answer to the decoded first n bytes sent, those the single read delivered. The report gives n, with the status text and the path of the same routing outcome |
| `Strings.Find` | src/main.rs:110 | the result is the first index where the pattern occurs; no occurrence lies before it; `None` exactly when there is no occurrence |
| `Strings.FindChar` | src/main.rs:110 | searching for a character finds its first position, and finds nothing exactly when the character is absent |
| `Strings.Contains` | src/main.rs:130 | true exactly when the pattern occurs at some index |
| `Strings.ContainsInfix` | src/main.rs:130 | text contains a pattern wherever the pattern is placed in it |
| `Request.FirstLine` | src/main.rs:110 | the first line holds no line feed and is a prefix of the request |
| `Request.FirstLineCrlf` | src/main.rs:110 | a line ended by CR LF is the first line, whatever follows |
| `Request.FirstLineLf` | src/main.rs:110 | a line ended by a bare LF is the first line when it does not end in CR |
| `Request.FirstLineUnbroken` | src/main.rs:110 | a request without a line feed is all first line; the empty request gives "" |
| `Request.WantsJson` | src/main.rs:130 | true exactly when "Accept: application/json" occurs somewhere in the whole request |
| `Request.WantsJsonAnywhere` | src/main.rs:130 | the header selects JSON wherever it stands in the request |
| `Strings.IsWhitespace` | src/main.rs:215 | the Unicode White_Space characters that `char::is_whitespace` accepts: among ASCII exactly the space and U+0009 to U+000D, and none above U+3000 |
| `Strings.Tokens` | src/main.rs:215 | every whitespace-separated token is non-empty and free of whitespace |
| `Strings.TokensCons` | src/main.rs:215 | leading whitespace, then a word ending at whitespace or at the end, gives that word followed by the tokens of the rest |
| `Strings.WhitespaceHasNoTokens` | src/main.rs:215 | text made only of whitespace has no tokens |
| `Router.SecondToken` | src/main.rs:215 | the second token, when there is one, is a whitespace-free word |
| `Router.RequestedPath` | src/main.rs:215 | the path is the second token, or "/unknown"; either way it is one whitespace-free word |
| `Router.Route` | src/main.rs:112-386 | the three outcomes partition all lines. A line gets Version exactly when it starts with "GET /version ", NotFound exactly when it starts with "GET " but not "GET /version ", and BadRequest exactly when it does not start with "GET " |
| `Router.VersionPrefixOfToken` | src/main.rs:113 | a GET line whose second token is p starts with "GET /version " exactly when p is "/version" and a space follows it |
| `Router.GetLinePath` | src/main.rs:214-215 | the path of "GET " + p + rest, for a token p ended by whitespace or the end of the line, is p |
| `Router.GetLineNoPath` | src/main.rs:214-215 | "GET " followed only by whitespace has no second token, so its path is "/unknown" |
| `Router.RouteNotFound` | src/main.rs:214-215 | a GET line whose second token is p is a 404 for p, unless p is "/version" followed by a space; this includes "GET /version" at the end of the line |
| `Router.RouteBareGet` | src/main.rs:214-215 | "GET " followed only by whitespace is a 404 for "/unknown" |
| `Router.ReportedPath` | src/main.rs:135-384 | the reported path is "/version" for the version page, the 404's own path, or "/unknown"; the two fixed paths are whitespace-free and start with "/", and of those two, "/version" belongs to the version page and "/unknown" to the 400 page |
| `Router.StatusLine` | src/main.rs:131-342 | every status line starts with "HTTP/1.1 " and holds no CR or LF |
| `Router.StatusText` | src/main.rs:134-383 | every status text is a three-digit code, a space and a reason |
| `Router.StatusLineMatchesText` | src/main.rs:131-384 | the status line is "HTTP/1.1 " plus the status text in capitals |
| `Router.StatusTextStartsWithCode` | src/main.rs:134-383 | the status text starts with the outcome's code (200, 404, 400) |
| `Router.RouteReport` | src/main.rs:112-386 | Version lines give ("HTTP/1.1 200 OK", "200 OK", "/version"). Other GET lines give ("HTTP/1.1 404 NOT FOUND", "404 Not Found", second token or "/unknown"). All else gives ("HTTP/1.1 400 BAD REQUEST", "400 Bad Request", "/unknown") |
| `Router.ReportedPathIsRequested` | src/main.rs:209-215 | for every GET line the reported path is the line's second token or "/unknown", also for the version page, whose path is fixed |
| `Router.ReportedPathIsWord` | src/main.rs:215 | the reported path is always one whitespace-free token |
| `Response.Body` | src/main.rs:130-384 | the version body shows the JSON document whichever body is chosen, and the 404 body shows the path it reports |
| `Decimal.NatToString` | src/main.rs:391 | the Content-Length text is non-empty, all digits, and without a leading zero |
| `Decimal.ParseNatToString` | src/main.rs:391 | reading back the decimal text of n gives n |
| `Strings.Utf8Length` | src/main.rs:391 | the byte length lies between the character count and four times it, and equals the character count exactly when all characters are ASCII |
| `Response.LengthLine` | src/main.rs:389-391 | the Content-Length line holds no CR |
| `Response.Frame` | src/main.rs:388-393 | the response starts with the status line and ends with the body |
| `Response.FrameRoundTrip` | src/main.rs:388-393 | for a status line without CR and any body, a client reads back that status line, content type text/html, a Content-Length equal to the body's byte length, and the body unchanged. The header block ends at the first blank line, wherever else the body has blank lines |
| `Response.Respond` | src/main.rs:110-393 | the response to any request reads back as the routed status line, text/html, the byte length of the chosen body, and that body |
| `Response.VersionResponse` | src/main.rs:113-137 | a "GET /version " first line gets "HTTP/1.1 200 OK", labelled text/html. The body is the JSON document exactly when the request contains "Accept: application/json", and the HTML page otherwise |
| `Response.NotFoundResponse` | src/main.rs:214-217 | any other GET line gets "HTTP/1.1 404 NOT FOUND" and the 404 page for the line's second token (or "/unknown"), with or without the Accept header |
| `Response.BadRequestResponse` | src/main.rs:341-384 | every other first line gets "HTTP/1.1 400 BAD REQUEST" and the 400 page |
| `Response.EmptyRequestIsBad` | src/main.rs:106-110 | an empty read gives the first line "" and is answered with the 400 page |
| `Response.VersionJsonExample` | src/main.rs:113-136 | `GET /version HTTP/1.1` with `Accept: application/json` reads back as 200 with the JSON document |
| `Response.NotFoundExample` | src/main.rs:214-217 | `GET /foo HTTP/1.1` reads back as 404 with the 404 page for /foo |
| `Response.ShortReadExample` | src/main.rs:107-110 | a read that stops after `GET /vers` is answered as it stands, with 404 and the 404 page for /vers |
| `Response.DeleteExample` | src/main.rs:341-342 | `DELETE / HTTP/1.1` reads back as 400 with the 400 page |

## Left out

- Socket I/O is left out: binding, accepting, `stream.read` and `write_all` (src/main.rs:40, 58, 107, 395). The read is modelled by the bytes it returns, and the write by the response text.
- Read and write errors are left out. On either, the `?` operators (src/main.rs:107, 395) return the I/O error from the handler. An error on read means nothing is written.
- The wire bytes are not modelled: the response is modelled as text, and what goes out is its UTF-8 encoding (`as_bytes`, src/main.rs:395).
- The accept loop in `main` (src/main.rs:39-103) and its error handling are outside the handler and not part of this model. An error from `accept` or from `handle_connection` is shown in a table and the loop goes on (src/main.rs:81-84, 91-99). An error from `stream.peer_addr()?` (src/main.rs:61) returns from `main` and stops the server. The clock reading and the tables printed per connection are left out with it.
- The page templates and the environment values in them are opaque strings. These are the crate version, clock, compiler version, OS and architecture (src/main.rs:114-128, 140-208, 218-336, 343-382).
- Request.Decode: each byte of 0x80 or above becomes one U+FFFD. Real lossy UTF-8 decoding turns valid multi-byte sequences into their characters. It also turns each maximal invalid sequence into a single U+FFFD. ASCII bytes decode the same either way, but a non-ASCII path or whitespace character differs.
- The concurrent server in `src/basic_tokio_server.rs` is not part of this model. It dispatches each connection to an async task and answers every non-empty read with one fixed page.
