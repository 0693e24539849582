/**
 * The router of the connection handler: the first request line decides, by
 * string prefixes, between the version page, a 404 for any other GET, and a 400
 * for everything else; each outcome has its status line, status text and the
 * path reported for the connection.
 */
module Router {
  import opened Wrappers
  import opened Strings
  import opened Decimal

  datatype Outcome = Version | NotFound(path: string) | BadRequest

  const GetPrefix: string := "GET "
  const VersionPrefix: string := "GET /version "
  const VersionPath: string := "/version"
  const UnknownPath: string := "/unknown"

  /** `line.split_whitespace().nth(1)`: the second whitespace-separated token, if any. */
  function SecondToken(line: string): (t: Option<string>)
    ensures t.Some? ==> IsWord(t.value)
  {
    var ts := Tokens(line);
    if |ts| >= 2 then Some(ts[1]) else None
  }

  /** The path a GET line asks for: its second token, or "/unknown" when it has none. */
  function RequestedPath(line: string): (path: string)
    ensures IsWord(path)
  {
    assert IsWord(UnknownPath);
    SecondToken(line).UnwrapOr(UnknownPath)
  }

  /**
   * The prefix match over the first line. The three outcomes partition all lines:
   * every line gets exactly one of them.
   */
  function Route(line: string): (o: Outcome)
    ensures o.Version? <==> VersionPrefix <= line
    ensures o.NotFound? <==> GetPrefix <= line && !(VersionPrefix <= line)
    ensures o.BadRequest? <==> !(GetPrefix <= line)
  {
    assert GetPrefix <= VersionPrefix;
    if VersionPrefix <= line then Version
    else if GetPrefix <= line then NotFound(RequestedPath(line))
    else BadRequest
  }

  /** Status line of the response, the first line written back. */
  function StatusLine(o: Outcome): (s: string)
    ensures "HTTP/1.1 " <= s
    ensures '\r' !in s && '\n' !in s
  {
    match o
    case Version => "HTTP/1.1 200 OK"
    case NotFound(_) => "HTTP/1.1 404 NOT FOUND"
    case BadRequest => "HTTP/1.1 400 BAD REQUEST"
  }

  /** Status text reported for the connection. */
  function StatusText(o: Outcome): (s: string)
    ensures |s| > 4 && IsDigits(s[..3]) && s[3] == ' '
  {
    match o
    case Version => "200 OK"
    case NotFound(_) => "404 Not Found"
    case BadRequest => "400 Bad Request"
  }

  /** Numeric status code of each outcome. */
  function StatusCode(o: Outcome): nat {
    match o
    case Version => 200
    case NotFound(_) => 404
    case BadRequest => 400
  }

  /** Path reported for the connection: the 404's path, or a fixed path starting with "/". */
  function ReportedPath(o: Outcome): (p: string)
    ensures o.NotFound? ==> p == o.path
    ensures !o.NotFound? ==> IsWord(p) && "/" <= p && (p == VersionPath <==> o.Version?)
  {
    assert IsWord(VersionPath) && IsWord(UnknownPath);
    match o
    case Version => VersionPath
    case NotFound(p) => p
    case BadRequest => UnknownPath
  }

  /**
   * What each kind of first line yields: status line, status text and reported
   * path, in the three branches of the router.
   */
  lemma RouteReport(line: string)
    ensures VersionPrefix <= line ==>
              StatusLine(Route(line)) == "HTTP/1.1 200 OK" && StatusText(Route(line)) == "200 OK"
              && ReportedPath(Route(line)) == VersionPath
    ensures GetPrefix <= line && !(VersionPrefix <= line) ==>
              StatusLine(Route(line)) == "HTTP/1.1 404 NOT FOUND" && StatusText(Route(line)) == "404 Not Found"
              && ReportedPath(Route(line)) == RequestedPath(line)
    ensures !(GetPrefix <= line) ==>
              StatusLine(Route(line)) == "HTTP/1.1 400 BAD REQUEST" && StatusText(Route(line)) == "400 Bad Request"
              && ReportedPath(Route(line)) == UnknownPath
  {
  }

  /** ASCII upper-casing, character by character. */
  function AsciiUpper(s: string): (u: string)
    ensures |u| == |s|
  {
    seq(|s|, i requires 0 <= i < |s| =>
      if 'a' <= s[i] <= 'z' then (s[i] as int - 32) as char else s[i])
  }

  /** The status line is "HTTP/1.1 " followed by the status text in capitals. */
  lemma StatusLineMatchesText(o: Outcome)
    ensures StatusLine(o) == "HTTP/1.1 " + AsciiUpper(StatusText(o))
  {
  }

  /** The status text starts with the outcome's numeric code. */
  lemma StatusTextStartsWithCode(o: Outcome)
    ensures StatusText(o)[..3] == NatToString(StatusCode(o))
  {
    match o
    case Version =>
      assert NatToString(20) == NatToString(2) + "0";
    case NotFound(_) =>
      assert NatToString(40) == NatToString(4) + "0";
    case BadRequest =>
      assert NatToString(40) == NatToString(4) + "0";
  }

  /** Whether "GET " + p + rest starts with "GET /version ", for a path token p. */
  lemma VersionPrefixOfToken(p: string, rest: string)
    requires IsWord(p)
    requires rest == [] || IsWhitespace(rest[0])
    ensures VersionPrefix <= GetPrefix + p + rest <==> p == VersionPath && rest != [] && rest[0] == ' '
  {
    var u := p + rest;
    assert GetPrefix + p + rest == GetPrefix + u;
    assert VersionPrefix == GetPrefix + "/version ";
    PrefixAfter(GetPrefix, "/version ", u);
    if "/version " <= u {
      assert IsWord(VersionPath);
      assert forall i :: 0 <= i < 8 ==> u[i] == VersionPath[i];
      assert u[8] == ' ';
      assert |p| <= 8;
      assert |p| < |u| ==> u[|p|] == rest[0];
      assert |p| == 8;
      assert p == u[..8];
    }
    if p == VersionPath && rest != [] && rest[0] == ' ' {
      assert u[..9] == "/version ";
    }
  }

  /** The second token of "GET " + p + rest, for a path token p, is p. */
  lemma GetLinePath(p: string, rest: string)
    requires IsWord(p)
    requires rest == [] || IsWhitespace(rest[0])
    ensures RequestedPath(GetPrefix + p + rest) == p
  {
    assert IsWord("GET");
    assert GetPrefix + p + rest == [] + "GET" + (" " + p + rest);
    TokensCons([], "GET", " " + p + rest);
    TokensCons(" ", p, rest);
  }

  /**
   * A GET line whose second token is p is routed to the 404 page for p, unless it
   * is exactly "/version" followed by a space. So "GET /version" at the end of the
   * line, or followed by a tab, is a 404 for "/version".
   */
  lemma RouteNotFound(p: string, rest: string)
    requires IsWord(p)
    requires rest == [] || IsWhitespace(rest[0])
    requires p != VersionPath || rest == [] || rest[0] != ' '
    ensures Route(GetPrefix + p + rest) == NotFound(p)
  {
    VersionPrefixOfToken(p, rest);
    GetLinePath(p, rest);
    assert GetPrefix <= GetPrefix + p + rest;
  }

  /** A GET line with nothing but whitespace after "GET " has no second token. */
  lemma GetLineNoPath(rest: string)
    requires AllWhitespace(rest)
    ensures RequestedPath(GetPrefix + rest) == UnknownPath
  {
    assert IsWord("GET");
    assert GetPrefix + rest == [] + "GET" + (" " + rest);
    TokensCons([], "GET", " " + rest);
    WhitespaceHasNoTokens(" " + rest);
  }

  /** A GET line with nothing but whitespace after "GET " is a 404 for "/unknown". */
  lemma RouteBareGet(rest: string)
    requires AllWhitespace(rest)
    ensures Route(GetPrefix + rest) == NotFound(UnknownPath)
  {
    GetLineNoPath(rest);
    assert |rest| > 0 ==> (GetPrefix + rest)[4] == rest[0];
    assert GetPrefix <= GetPrefix + rest;
  }

  /**
   * For every GET line, the reported path is the second token of the line (or
   * "/unknown"), also for the version page, whose reported path is fixed.
   */
  lemma ReportedPathIsRequested(line: string)
    requires GetPrefix <= line
    ensures ReportedPath(Route(line)) == RequestedPath(line)
  {
    if VersionPrefix <= line {
      var rest := line[|VersionPrefix|..];
      assert line == [] + "GET" + (" " + VersionPath + (" " + rest));
      assert IsWord("GET") && IsWord(VersionPath);
      TokensCons([], "GET", " " + VersionPath + (" " + rest));
      TokensCons(" ", VersionPath, " " + rest);
    }
  }

  /** Whatever the line, the reported path is one whitespace-free token. */
  lemma ReportedPathIsWord(line: string)
    ensures IsWord(ReportedPath(Route(line)))
  {
    assert IsWord(VersionPath) && IsWord(UnknownPath);
  }
}
