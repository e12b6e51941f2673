/** What the client's handler of a response head finds in the bytes that are buffered. */
module Findings {
  import opened Text
  import opened Numerals
  import opened Http
  import opened Messages
  import opened MessageRoundTrips
  import opened Wire
  import opened Framing
  import opened Exchange
  import opened EndToEnd

  /** A full stream buffer, bytes that do not parse, a Content-Length that is no number in range, the
      last byte of the response, or how to go on. */
  datatype Finding = Full | Malformed | BadLength | Complete | ByLength | ByChunks | ToEnd

  predicate HasHead(bytes: string) {
    HeadEnd(bytes).Some?
  }

  /** What is found in a buffer that is not full. */
  function HeadFinding(bytes: string): (finding: Finding)
    requires HasHead(bytes)
  {
    BlankLineEndsHeader(bytes);
    var status, fields := ParseStatusLine(LineOf(bytes)), HeaderOf(bytes).fields;
    var numAdditionalBytes := |bytes| - (HeadEnd(bytes).value + 4);
    var length := FindField(fields, "Content-Length");
    if status.None? then Malformed
    else if length.Some? then
      var n := StoUL(length.value, 10);
      if n.None? then BadLength else if n.value > numAdditionalBytes then ByLength else Complete
    else if FindField(fields, "Transfer-Encoding") == Some("chunked") then ByChunks
    else if UntilClose(status.value.0, fields) then ToEnd
    else Complete
  }

  /** The handler throws exactly where the bytes of the whole stream say so, and finds them malformed
      only where they fail. */
  lemma FindingMeans(bytes: string, coming: string)
    requires HasHead(bytes)
    ensures HeadFinding(bytes) == BadLength <==> Failed(Thrown) in Allowed(ResponseOf(bytes + coming))
    ensures HeadFinding(bytes) == Malformed ==> Failed(Protocol) in Allowed(ResponseOf(bytes + coming))
  {
    var behind := |bytes| - (HeadEnd(bytes).value + 4);
    HeadInPrefix(bytes, coming, behind);
    ClientThrowsIff(bytes + coming);
    FailsIff(ResponseOf(bytes + coming), Protocol);
    if HeadFinding(bytes) == Malformed {
      BadResponse(bytes, coming, behind);
    }
  }

  /** A head that is buffered in front of `rest`, of which `behind` bytes lie behind the blank line. */
  predicate Buffered(bytes: string, head: ResponseHead, rest: string, behind: nat) {
    && HasHead(bytes) && behind + HeadEnd(bytes).value + 4 == |bytes|
    && ParseStatusLine(LineOf(bytes)) == Some((head.version, head.statusCode))
    && HeaderOf(bytes) == Parsed(head.header, rest, true)
  }

  lemma BehindFits(bytes: string, head: ResponseHead, rest: string, behind: nat)
    requires Buffered(bytes, head, rest, behind)
    ensures behind <= |rest|
  {
    BlankLineEndsHeader(bytes);
  }

  lemma Verdict(bytes: string, coming: string, head: ResponseHead, rest: string, behind: nat,
                all: string, stream: string, more: nat)
    requires Buffered(bytes, head, rest, behind)
    requires all == bytes + coming && stream == rest + coming && more == behind + |coming|
    ensures more <= |stream|
    ensures ResponseOf(all) == ContentOf(head.header, stream, more, Thrown, UntilClose(head.version, head.header))
  {
    BehindFits(bytes, head, rest, behind);
    ResponseVerdict(bytes, coming, more, head, stream);
  }

  /** The fields give a length that reads as `n`. */
  predicate GivesLength(fields: seq<Field>, n: nat) {
    FindField(fields, "Content-Length").Some? && StoUL(FindField(fields, "Content-Length").value, 10) == Some(n)
  }

  /** With a length the response is complete exactly if that many bytes lie behind the blank line, and
      then it means them; */
  lemma LengthComplete(bytes: string, coming: string, head: ResponseHead, rest: string, behind: nat, n: nat)
    requires Buffered(bytes, head, rest, behind) && GivesLength(head.header, n) && n <= behind
    ensures HeadFinding(bytes) == Complete && behind <= |rest|
    ensures ResponseOf(bytes + coming) == Plainly(rest[..|rest| - behind + n], rest[|rest| - behind + n..] + coming)
  {
    BehindFits(bytes, head, rest, behind);
    var stream, end := rest + coming, |rest| - behind + n;
    assert stream[..end] == rest[..end] && stream[end..] == rest[end..] + coming;
    LengthMeans(bytes, coming, head, rest, behind, bytes + coming, stream, behind + |coming|, n);
    FindingOfLength(bytes, head, rest, behind, n);
  }

  /** and if bytes of it are missing, they are asked for, and the stream may not end here. */
  lemma LengthMissing(bytes: string, head: ResponseHead, rest: string, behind: nat, n: nat)
    requires Buffered(bytes, head, rest, behind) && GivesLength(head.header, n) && n > behind
    ensures HeadFinding(bytes) == ByLength && ResponseOf(bytes) == Fails(EndOfStream)
  {
    LengthMeans(bytes, "", head, rest, behind, bytes, rest, behind, n);
    FindingOfLength(bytes, head, rest, behind, n);
  }

  lemma FindingOfLength(bytes: string, head: ResponseHead, rest: string, behind: nat, n: nat)
    requires Buffered(bytes, head, rest, behind) && GivesLength(head.header, n)
    ensures HeadFinding(bytes) == if n > behind then ByLength else Complete
  {
  }

  lemma LengthMeans(bytes: string, coming: string, head: ResponseHead, rest: string, behind: nat,
                    all: string, stream: string, more: nat, n: nat)
    requires Buffered(bytes, head, rest, behind) && GivesLength(head.header, n)
    requires all == bytes + coming && stream == rest + coming && more == behind + |coming|
    ensures more <= |stream|
    ensures ResponseOf(all)
            == if n > more then Fails(EndOfStream)
               else Plainly(stream[..|stream| - more + n], stream[|stream| - more + n..])
  {
    Verdict(bytes, coming, head, rest, behind, all, stream, more);
    LengthContent(head.header, stream, more, UntilClose(head.version, head.header), n);
  }

  lemma LengthContent(fields: seq<Field>, stream: string, more: nat, untilClose: bool, n: nat)
    requires more <= |stream| && GivesLength(fields, n)
    ensures ContentOf(fields, stream, more, Thrown, untilClose)
            == if n > more then Fails(EndOfStream)
               else Plainly(stream[..|stream| - more + n], stream[|stream| - more + n..])
  {
  }

  /** Without one, and without "chunked", all that comes is read if the version comes before 1.1 or a
      field "Session: close" is there, and is what the response means; otherwise it is complete
      without any content. */
  lemma NothingFound(bytes: string, coming: string, head: ResponseHead, rest: string, behind: nat)
    requires Buffered(bytes, head, rest, behind) && FindField(head.header, "Content-Length").None?
    requires FindField(head.header, "Transfer-Encoding") != Some("chunked")
    ensures behind <= |rest|
    ensures if Less(head.version, "1.1") || FindField(head.header, "Session") == Some("close")
            then HeadFinding(bytes) == ToEnd && ResponseOf(bytes + coming) == Plainly(rest + coming, "")
            else && HeadFinding(bytes) == Complete
                 && ResponseOf(bytes + coming) == Plainly(rest[..|rest| - behind], rest[|rest| - behind..] + coming)
  {
    BehindFits(bytes, head, rest, behind);
    var stream, lead := rest + coming, |rest| - behind;
    assert stream[..lead] == rest[..lead] && stream[lead..] == rest[lead..] + coming;
    Verdict(bytes, coming, head, rest, behind, bytes + coming, stream, behind + |coming|);
    NothingContent(head.header, stream, behind + |coming|, UntilClose(head.version, head.header));
    FindingOfNothing(bytes, head, rest, behind);
  }

  lemma FindingOfNothing(bytes: string, head: ResponseHead, rest: string, behind: nat)
    requires Buffered(bytes, head, rest, behind) && FindField(head.header, "Content-Length").None?
    requires FindField(head.header, "Transfer-Encoding") != Some("chunked")
    ensures HeadFinding(bytes) == if UntilClose(head.version, head.header) then ToEnd else Complete
  {
  }

  lemma NothingContent(fields: seq<Field>, stream: string, more: nat, untilClose: bool)
    requires more <= |stream| && FindField(fields, "Content-Length").None?
    requires FindField(fields, "Transfer-Encoding") != Some("chunked")
    ensures ContentOf(fields, stream, more, Thrown, untilClose)
            == if untilClose then Plainly(stream, "")
               else Plainly(stream[..|stream| - more], stream[|stream| - more..])
  {
  }

  /** Where "chunked" is said and no length, chunks are read, and the response means their data. */
  lemma ChunksFound(bytes: string, coming: string, head: ResponseHead, rest: string, behind: nat)
    requires Buffered(bytes, head, rest, behind) && FindField(head.header, "Content-Length").None?
    requires FindField(head.header, "Transfer-Encoding") == Some("chunked")
    ensures HeadFinding(bytes) == ByChunks && ResponseOf(bytes + coming) == DecodeChunks(rest + coming, "")
  {
    Verdict(bytes, coming, head, rest, behind, bytes + coming, rest + coming, behind + |coming|);
    ChunksFollow(bytes, head.header);
  }

  lemma ChunksFollow(bytes: string, fields: seq<Field>)
    requires HasHead(bytes) && ParseStatusLine(LineOf(bytes)).Some?
    requires HeaderOf(bytes).Parsed? && HeaderOf(bytes).fields == fields
    requires FindField(fields, "Content-Length").None? && FindField(fields, "Transfer-Encoding") == Some("chunked")
    ensures HeadFinding(bytes) == ByChunks
  {
  }

  /** Any response that its caller frames as chunks has such a head. */
  lemma ChunkedHead(status: string, header: seq<Field>) returns (bytes: string)
    requires '\n' !in status && forall f :: f in header ==> WellFormed(f)
    requires FindField(header, "Content-Length").None? && FindField(header, "Transfer-Encoding") == Some("chunked")
    ensures HasHead(bytes) && HeadFinding(bytes) == ByChunks
  {
    bytes := PrintResponse(status, header, false, "");
    ChunkedField(header);
    assert ResponseFields(header, false, 0) == header;
    ResponseRoundTrip(status, header, false, "");
    var end := HeadEndsAtContent(bytes, StatusLineText(status), header, "");
    ChunksFollow(bytes, header);
  }

  lemma SomeChunkedHead() returns (bytes: string)
    ensures HasHead(bytes) && HeadFinding(bytes) == ByChunks
  {
    var header := [("Transfer-Encoding", "chunked")];
    assert header[1..] == [];
    bytes := ChunkedHead("", header);
  }
}
