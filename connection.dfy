/**
 * The connection handler as the server runs it: a zero-filled buffer of
 * BufferSize bytes, one read into it, then decoding, routing, rendering and
 * framing of what was read, and the report (bytes read, status text, path)
 * handed back to the accept loop.
 */
module Connection {
  import opened Request
  import opened Router
  import opened Response

  /** What the handler reports for a connection it served. */
  datatype Report = Report(bytesRead: nat, statusText: string, path: string)

  /**
   * The single read into a fresh zero-filled buffer. `sent` is what the client has
   * sent so far, in order; `n` is how many of those bytes the read delivers, which
   * the operating system decides: never more than the buffer holds, and possibly
   * fewer than were sent (a short read). The first `n` bytes of `sent` land at the
   * front of the buffer and the rest of the buffer stays zero.
   */
  method ReadRequest(sent: seq<byte>, n: nat) returns (buffer: array<byte>, bytesRead: nat)
    requires n <= |sent| && n <= BufferSize
    ensures fresh(buffer) && buffer.Length == BufferSize
    ensures bytesRead == n
    ensures buffer[..bytesRead] == sent[..n]
    ensures forall i :: bytesRead <= i < buffer.Length ==> buffer[i] == 0
  {
    buffer := new byte[BufferSize](_ => 0);
    bytesRead := n;
    forall i | 0 <= i < bytesRead {
      buffer[i] := sent[i];
    }
  }

  /**
   * Serves one connection whose single read delivers the first `n` bytes of what
   * the client sent: only those are decoded, with no second read, so a request
   * line split across reads is routed as far as it arrived. The response is the
   * framed page for the routed first line, and the report gives the byte count,
   * the status text and the path of that same outcome.
   */
  method HandleConnection(sent: seq<byte>, n: nat, pages: Pages) returns (response: string, report: Report)
    requires n <= |sent| && n <= BufferSize
    ensures report.bytesRead == n
    ensures var request := Decode(sent)[..n];
            var o := Route(FirstLine(request));
            && response == Respond(request, pages)
            && report.statusText == StatusText(o)
            && report.path == ReportedPath(o)
  {
    var buffer, bytesRead := ReadRequest(sent, n);
    var request := Decode(buffer[..bytesRead]);
    DecodePrefix(sent, n);
    var outcome := Route(FirstLine(request));
    var body := Body(outcome, request, pages);
    response := Frame(StatusLine(outcome), body);
    report := Report(bytesRead, StatusText(outcome), ReportedPath(outcome));
  }
}
