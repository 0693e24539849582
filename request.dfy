/**
 * What the connection handler takes from the bytes it read: the decoded
 * request text, its first line and whether it asks for JSON.
 */
module Request {
  import opened Wrappers
  import opened Strings

  /** Capacity of the read buffer: at most this many bytes of a request are read. */
  const BufferSize: nat := 1024

  /** The header text whose presence anywhere in the request selects the JSON body. */
  const AcceptJson: string := "Accept: application/json"

  /** U+FFFD, which lossy UTF-8 decoding puts in place of bytes it cannot decode. */
  const Replacement: char := '\U{FFFD}'

  newtype byte = x: int | 0 <= x < 256

  /**
   * Lossy decoding restricted to single bytes: an ASCII byte is its own character,
   * any other byte becomes U+FFFD.
   */
  function Decode(bytes: seq<byte>): (s: string)
    ensures |s| == |bytes|
    ensures forall i :: 0 <= i < |bytes| && bytes[i] < 0x80 ==> s[i] as int == bytes[i] as int
    ensures forall i :: 0 <= i < |bytes| && bytes[i] >= 0x80 ==> s[i] == Replacement
  {
    seq(|bytes|, i requires 0 <= i < |bytes| =>
      if bytes[i] < 0x80 then (bytes[i] as int) as char else Replacement)
  }

  /** Decoding a prefix of the bytes gives the same prefix of the text. */
  lemma DecodePrefix(bytes: seq<byte>, n: nat)
    requires n <= |bytes|
    ensures Decode(bytes[..n]) == Decode(bytes)[..n]
  {
  }

  /** `line` without one trailing carriage return. */
  function TrimCarriageReturn(line: string): string {
    if |line| > 0 && line[|line| - 1] == '\r' then line[..|line| - 1] else line
  }

  /**
   * `request.lines().next().unwrap_or("")`: the text before the first line feed,
   * less a carriage return just before it; the whole request when it has no line
   * feed (the empty request has no lines, giving "").
   */
  function FirstLine(request: string): (line: string)
    ensures '\n' !in line
    ensures line <= request
  {
    FindChar(request, '\n');
    match Find(request, "\n")
    case None => request
    case Some(k) => TrimCarriageReturn(request[..k])
  }

  /** A line ended by CR LF is the first line, whatever follows it. */
  lemma FirstLineCrlf(line: string, rest: string)
    requires '\n' !in line
    ensures FirstLine(line + "\r\n" + rest) == line
  {
    var request := line + "\r\n" + rest;
    assert request == (line + "\r") + ("\n" + rest);
    FindAtStart("\n", rest);
    FindAfter(line + "\r", "\n" + rest, "\n", 0);
    assert request[..|line| + 1] == line + "\r";
  }

  /** A line ended by a bare LF is the first line when it does not itself end in CR. */
  lemma FirstLineLf(line: string, rest: string)
    requires '\n' !in line
    requires line == [] || line[|line| - 1] != '\r'
    ensures FirstLine(line + "\n" + rest) == line
  {
    var request := line + "\n" + rest;
    assert request == line + ("\n" + rest);
    FindAtStart("\n", rest);
    FindAfter(line, "\n" + rest, "\n", 0);
    assert request[..|line|] == line;
  }

  /** A request without a line feed is all first line; in particular the empty request gives "". */
  lemma FirstLineUnbroken(request: string)
    requires '\n' !in request
    ensures FirstLine(request) == request
  {
    FindChar(request, '\n');
  }

  /** `request.contains("Accept: application/json")`. */
  function WantsJson(request: string): (b: bool)
    ensures b <==> exists i: nat :: OccursAt(request, AcceptJson, i)
  {
    Contains(request, AcceptJson)
  }

  /** The header selects JSON wherever it stands in the request, and whatever surrounds it. */
  lemma WantsJsonAnywhere(before: string, after: string)
    ensures WantsJson(before + AcceptJson + after)
  {
    ContainsInfix(before, AcceptJson, after);
  }
}
