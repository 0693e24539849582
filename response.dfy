/**
 * The response side of the connection handler: the body chosen for each
 * outcome, the wire framing with its Content-Length header, and, as the
 * framing's partner, the way a client reads a framed response back.
 */
module Response {
  import opened Wrappers
  import opened Strings
  import opened Decimal
  import opened Request
  import opened Router

  /**
   * The page bodies, which the handler renders from templates and from values of
   * its environment (crate version, clock, compiler version, platform). Only
   * their shape matters here: the HTML version page shows the JSON document, and
   * the 404 page shows the requested path between a fixed head and tail.
   */
  datatype Pages = Pages(
    versionJson: string,
    versionHtmlHead: string,
    versionHtmlTail: string,
    notFoundHead: string,
    notFoundTail: string,
    badRequestHtml: string)

  /** The HTML version page, which embeds the JSON document. */
  function VersionHtml(pages: Pages): string {
    pages.versionHtmlHead + pages.versionJson + pages.versionHtmlTail
  }

  /** The 404 page for `path`. */
  function NotFoundHtml(pages: Pages, path: string): string {
    pages.notFoundHead + path + pages.notFoundTail
  }

  /**
   * The body sent for outcome `o`: for the version page the JSON document when the
   * request asks for it and the HTML page otherwise; both show the JSON document,
   * and a 404 page always shows the path it reports.
   */
  function Body(o: Outcome, request: string, pages: Pages): (body: string)
    ensures o.Version? ==> Contains(body, pages.versionJson)
    ensures o.NotFound? ==> Contains(body, o.path)
  {
    match o
    case Version =>
      ContainsInfix([], pages.versionJson, []);
      assert [] + pages.versionJson + [] == pages.versionJson;
      ContainsInfix(pages.versionHtmlHead, pages.versionJson, pages.versionHtmlTail);
      if WantsJson(request) then pages.versionJson else VersionHtml(pages)
    case NotFound(p) =>
      ContainsInfix(pages.notFoundHead, p, pages.notFoundTail);
      NotFoundHtml(pages, p)
    case BadRequest => pages.badRequestHtml
  }

  const Crlf: string := "\r\n"
  const BlankLine: string := "\r\n\r\n"
  const ContentTypeField: string := "Content-Type: "
  const ContentLengthField: string := "Content-Length: "

  /** The content type the handler declares, for every body. */
  const ContentType: string := "text/html"

  /** The Content-Type header line. */
  const TypeLine: string := ContentTypeField + ContentType

  /** The Content-Length header line for a body of `n` bytes. */
  function LengthLine(n: nat): (line: string)
    ensures '\r' !in line
  {
    var digits := NatToString(n);
    var line := ContentLengthField + digits;
    assert forall i :: 0 <= i < |digits| ==> line[|ContentLengthField| + i] == digits[i];
    line
  }

  /** Status line and header lines, separated by CR LF. */
  function HeaderBlock(statusLine: string, n: nat): string {
    statusLine + Crlf + (TypeLine + Crlf + LengthLine(n))
  }

  /**
   * The response written back: the status line, a Content-Type header, a
   * Content-Length header giving the body's length in UTF-8 bytes, a blank line,
   * then the body.
   */
  function Frame(statusLine: string, body: string): (response: string)
    ensures statusLine <= response
    ensures |response| >= |body| && response[|response| - |body|..] == body
  {
    HeaderBlock(statusLine, Utf8Length(body)) + BlankLine + body
  }

  /** A response as a client sees it. */
  datatype Parsed = Parsed(statusLine: string, contentType: string, contentLength: nat, body: string)

  /**
   * A client's reading of a response: the header block ends at the first blank
   * line and the body is everything after it; the header block is the status line,
   * then a Content-Type line, then a Content-Length line holding decimal digits.
   */
  function ParseResponse(response: string): Option<Parsed> {
    match Find(response, BlankLine)
    case None => None
    case Some(h) =>
      var head, body := response[..h], response[h + 4..];
      match Find(head, Crlf)
      case None => None
      case Some(a) =>
        var fields := head[a + 2..];
        match Find(fields, Crlf)
        case None => None
        case Some(b) =>
          var typeLine, lengthLine := fields[..b], fields[b + 2..];
          if ContentTypeField <= typeLine && ContentLengthField <= lengthLine
             && |lengthLine| > |ContentLengthField| && IsDigits(lengthLine[|ContentLengthField|..])
          then Some(Parsed(head[..a], typeLine[|ContentTypeField|..],
                           ParseNat(lengthLine[|ContentLengthField|..]), body))
          else None
  }

  /** Before the end of a CR-free line and its CR LF there is no blank line, if no CR follows. */
  lemma NoBlankLineBefore(line: string, t: string, j: nat)
    requires '\r' !in line
    requires |t| > 0 && t[0] != '\r'
    requires j < |line| + 2
    ensures !OccursAt(line + Crlf + t, BlankLine, j)
  {
    var s := line + Crlf + t;
    if j < |line| {
      assert s[j] == line[j];
      MismatchAt(s, BlankLine, j, 0);
    } else if j == |line| {
      assert s[j + 2] == t[0];
      MismatchAt(s, BlankLine, j, 2);
    } else {
      assert s[j] == '\n';
      MismatchAt(s, BlankLine, j, 0);
    }
  }

  /**
   * A header line without CR, followed by CR LF and a character other than CR,
   * holds no blank line. `pat` stands for the blank line: passing it as a
   * parameter rather than using the constant `BlankLine` keeps the solver from
   * unfolding the search over the literal, which would exceed its resource limit;
   * the three lemmas below do the same.
   */
  lemma SkipHeaderLine(line: string, t: string, k: nat, pat: string)
    requires pat == BlankLine
    requires '\r' !in line
    requires |t| > 0 && t[0] != '\r'
    requires Find(t, pat) == Some(k)
    ensures Find(line + Crlf + t, pat) == Some(|line| + 2 + k)
  {
    forall j | 0 <= j < |line| + 2
      ensures !OccursAt(line + Crlf + t, pat, j)
    {
      NoBlankLineBefore(line, t, j);
    }
    FindSkip(line + Crlf, t, pat, k);
  }

  /** The Content-Length line is followed by the first blank line (`pat` stands for the blank line). */
  lemma LengthLineEnds(n: nat, body: string, pat: string)
    requires pat == BlankLine
    ensures Find(LengthLine(n) + (pat + body), pat) == Some(|LengthLine(n)|)
  {
    FindAtStart(pat, body);
    FindAfter(LengthLine(n), pat + body, pat, 0);
  }

  /** The Content-Type and Content-Length lines are followed by the first blank line. */
  lemma FieldsEnd(n: nat, body: string, pat: string)
    requires pat == BlankLine
    ensures Find(TypeLine + Crlf + (LengthLine(n) + (pat + body)), pat)
         == Some(|TypeLine| + 2 + |LengthLine(n)|)
  {
    var afterType := LengthLine(n) + (pat + body);
    LengthLineEnds(n, body, pat);
    assert afterType[0] == ContentLengthField[0];
    SkipHeaderLine(TypeLine, afterType, |LengthLine(n)|, pat);
  }

  /** In a framed response the header block ends at the first blank line (`pat` stands for the blank line). */
  lemma HeaderBlockEnds(statusLine: string, n: nat, body: string, pat: string)
    requires pat == BlankLine
    requires '\r' !in statusLine
    ensures Find(HeaderBlock(statusLine, n) + pat + body, pat) == Some(|HeaderBlock(statusLine, n)|)
  {
    var afterStatus := TypeLine + Crlf + (LengthLine(n) + (pat + body));
    FieldsEnd(n, body, pat);
    assert afterStatus[0] == ContentTypeField[0];
    SkipHeaderLine(statusLine, afterStatus, |TypeLine| + 2 + |LengthLine(n)|, pat);
    assert HeaderBlock(statusLine, n) + pat + body == statusLine + Crlf + afterStatus;
  }

  /** The header block splits at its first CR LF into the status line and the header fields. */
  lemma HeaderBlockStatusLine(statusLine: string, n: nat)
    requires '\r' !in statusLine
    ensures var head := HeaderBlock(statusLine, n);
            Find(head, Crlf) == Some(|statusLine|)
            && head[..|statusLine|] == statusLine
            && head[|statusLine| + 2..] == TypeLine + Crlf + LengthLine(n)
  {
    var fields := TypeLine + Crlf + LengthLine(n);
    FindAtStart(Crlf, fields);
    FindAfter(statusLine, Crlf + fields, Crlf, 0);
    assert HeaderBlock(statusLine, n) == statusLine + (Crlf + fields);
  }

  /** The header fields split at their CR LF into the Content-Type and Content-Length lines. */
  lemma HeaderFields(n: nat)
    ensures var fields := TypeLine + Crlf + LengthLine(n);
            Find(fields, Crlf) == Some(|TypeLine|)
            && fields[..|TypeLine|] == TypeLine && fields[|TypeLine| + 2..] == LengthLine(n)
  {
    FindAtStart(Crlf, LengthLine(n));
    assert '\r' !in TypeLine;
    FindAfter(TypeLine, Crlf + LengthLine(n), Crlf, 0);
    assert TypeLine + Crlf + LengthLine(n) == TypeLine + (Crlf + LengthLine(n));
  }

  /**
   * The framing round trip: reading back a framed response gives the status line,
   * the content type text/html, a Content-Length equal to the body's byte length,
   * and the body unchanged, whatever the body holds (blank lines included).
   */
  lemma FrameRoundTrip(statusLine: string, body: string)
    requires '\r' !in statusLine
    ensures ParseResponse(Frame(statusLine, body))
         == Some(Parsed(statusLine, ContentType, Utf8Length(body), body))
  {
    var n := Utf8Length(body);
    var head := HeaderBlock(statusLine, n);
    var response := Frame(statusLine, body);
    HeaderBlockEnds(statusLine, n, body, BlankLine);
    assert response[..|head|] == head && response[|head| + 4..] == body;
    HeaderBlockStatusLine(statusLine, n);
    HeaderFields(n);
    assert TypeLine[|ContentTypeField|..] == ContentType;
    assert LengthLine(n)[|ContentLengthField|..] == NatToString(n);
    ParseNatToString(n);
  }

  /** The response to a decoded request: route its first line, choose the body, frame it. */
  function Respond(request: string, pages: Pages): (response: string)
    ensures var o := Route(FirstLine(request));
            ParseResponse(response)
              == Some(Parsed(StatusLine(o), ContentType, Utf8Length(Body(o, request, pages)), Body(o, request, pages)))
  {
    var o := Route(FirstLine(request));
    FrameRoundTrip(StatusLine(o), Body(o, request, pages));
    Frame(StatusLine(o), Body(o, request, pages))
  }

  /**
   * A request whose first line starts with "GET /version " gets "200 OK", labelled
   * text/html, with the JSON document exactly when the request contains
   * "Accept: application/json" and the HTML page otherwise.
   */
  lemma VersionResponse(request: string, pages: Pages)
    requires VersionPrefix <= FirstLine(request)
    ensures var body := if WantsJson(request) then pages.versionJson else VersionHtml(pages);
            ParseResponse(Respond(request, pages))
              == Some(Parsed("HTTP/1.1 200 OK", ContentType, Utf8Length(body), body))
  {
  }

  /**
   * Any other GET line gets "404 NOT FOUND" and the 404 page, which shows the
   * line's second token (or "/unknown"), whether or not JSON was asked for.
   */
  lemma NotFoundResponse(request: string, pages: Pages)
    requires GetPrefix <= FirstLine(request) && !(VersionPrefix <= FirstLine(request))
    ensures var body := NotFoundHtml(pages, RequestedPath(FirstLine(request)));
            ParseResponse(Respond(request, pages))
              == Some(Parsed("HTTP/1.1 404 NOT FOUND", ContentType, Utf8Length(body), body))
  {
  }

  /** Every other first line, the empty one included, gets "400 BAD REQUEST" and the 400 page. */
  lemma BadRequestResponse(request: string, pages: Pages)
    requires !(GetPrefix <= FirstLine(request))
    ensures ParseResponse(Respond(request, pages))
         == Some(Parsed("HTTP/1.1 400 BAD REQUEST", ContentType,
                        Utf8Length(pages.badRequestHtml), pages.badRequestHtml))
  {
  }

  /** A read of zero bytes is answered like any other bad request. */
  lemma EmptyRequestIsBad(pages: Pages)
    ensures ParseResponse(Respond("", pages))
         == Some(Parsed("HTTP/1.1 400 BAD REQUEST", ContentType,
                        Utf8Length(pages.badRequestHtml), pages.badRequestHtml))
  {
    FirstLineUnbroken("");
    BadRequestResponse("", pages);
  }

  /** A GET of /version that asks for JSON is answered with 200 and the JSON document. */
  lemma VersionJsonExample(line: string, request: string, pages: Pages)
    requires line == "GET /version HTTP/1.1"
    requires request == line + "\r\n" + AcceptJson + "\r\n\r\n"
    ensures ParseResponse(Respond(request, pages))
         == Some(Parsed("HTTP/1.1 200 OK", ContentType, Utf8Length(pages.versionJson), pages.versionJson))
  {
    assert request == line + "\r\n" + (AcceptJson + "\r\n\r\n");
    FirstLineCrlf(line, AcceptJson + "\r\n\r\n");
    WantsJsonAnywhere(line + "\r\n", "\r\n\r\n");
    assert VersionPrefix <= line;
    VersionResponse(request, pages);
  }

  /** A GET of /foo is answered with 404 and the 404 page for /foo. */
  lemma NotFoundExample(path: string, line: string, request: string, pages: Pages)
    requires path == "/foo" && line == GetPrefix + path + " HTTP/1.1"
    requires request == line + "\r\n\r\n"
    ensures var body := NotFoundHtml(pages, "/foo");
            ParseResponse(Respond(request, pages))
              == Some(Parsed("HTTP/1.1 404 NOT FOUND", ContentType, Utf8Length(body), body))
  {
    assert request == line + "\r\n" + "\r\n";
    FirstLineCrlf(line, "\r\n");
    assert IsWord(path);
    RouteNotFound(path, " HTTP/1.1");
  }

  /** A DELETE is answered with 400 and the 400 page. */
  lemma DeleteExample(line: string, request: string, pages: Pages)
    requires line == "DELETE / HTTP/1.1"
    requires request == line + "\r\n\r\n"
    ensures ParseResponse(Respond(request, pages))
         == Some(Parsed("HTTP/1.1 400 BAD REQUEST", ContentType,
                        Utf8Length(pages.badRequestHtml), pages.badRequestHtml))
  {
    assert request == line + "\r\n" + "\r\n";
    FirstLineCrlf(line, "\r\n");
    BadRequestResponse(request, pages);
  }

  /**
   * A read that comes back short after "GET /vers" is routed as it stands: a 404
   * for "/vers", even if "ion HTTP/1.1" follows in a later segment.
   */
  lemma ShortReadExample(path: string, request: string, pages: Pages)
    requires path == "/vers" && request == GetPrefix + path
    ensures var body := NotFoundHtml(pages, "/vers");
            ParseResponse(Respond(request, pages))
              == Some(Parsed("HTTP/1.1 404 NOT FOUND", ContentType, Utf8Length(body), body))
  {
    assert request == GetPrefix + path + [];
    FirstLineUnbroken(request);
    assert IsWord(path);
    RouteNotFound(path, []);
  }
}
