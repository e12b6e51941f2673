/** Whole exchanges: what one side writes, the network cuts into pieces, and the other side reads. */
module EndToEnd {
  import opened Text
  import opened Numerals
  import opened Http
  import opened Messages
  import opened MessageRoundTrips
  import opened Wire
  import opened Framing
  import opened Exchange

  /** A chunk: its size line, and its data. */
  datatype Chunk = Chunk(sizeLine: string, data: string)

  /** A size line is any text without a newline that reads as the size of the data, so it may
      carry leading zeros, capital digits or a chunk extension. */
  predicate Sized(c: Chunk) {
    '\n' !in c.sizeLine && StoUL(c.sizeLine, 16) == Some(|c.data|)
  }

  function EncodeChunk(c: Chunk): (s: string) {
    c.sizeLine + "\r" + "\n" + (c.data + "\r\n")
  }

  /** A chunked body: chunks with data, and the chunk without any (section 4.1 of RFC 7230). */
  function EncodeChunks(chunks: seq<Chunk>, last: Chunk): (s: string) {
    if chunks == [] then EncodeChunk(last) else EncodeChunk(chunks[0]) + EncodeChunks(chunks[1..], last)
  }

  predicate ProperBody(chunks: seq<Chunk>, last: Chunk) {
    && (forall c :: c in chunks ==> Sized(c) && c.data != "")
    && Sized(last) && last.data == ""
  }

  function DataOf(chunks: seq<Chunk>): (content: string) {
    if chunks == [] then "" else chunks[0].data + DataOf(chunks[1..])
  }

  /** The size lines that encoders write: hexadecimal, and perhaps an extension behind it. */
  lemma PrintedSize(data: string, extension: string)
    requires |data| < ULONG_LIMIT && '\n' !in extension
    requires extension == "" || extension[0] == ';'
    ensures Sized(Chunk(Print(|data|, 16) + extension, data))
  {
    ReadBack(|data|, 16, 16, extension);
  }

  /** The first CRLF of a text that starts with a line. */
  lemma FirstCrlf(line: string, rest: string)
    requires '\n' !in line
    ensures var text := line + "\r" + "\n" + rest;
            LineOf(text) == line + "\r" && RestOf(text) == rest && LineEnd(text) == Some(|line|)
  {
    var text := line + "\r" + "\n" + rest;
    assert '\n' !in line + "\r";
    LineSplit(line + "\r", rest);
    assert text[|line|] == CRLF[0] && text[|line| + 1] == CRLF[1];
    assert MatchesAt(text, CRLF, |line|);
    NewlineInCrlf(text);
  }

  /** The header of an encoded chunk, and what is left behind it. */
  lemma ChunkHeaderReadBack(c: Chunk, more: string)
    requires Sized(c)
    ensures var text := EncodeChunk(c) + more;
            && ReadChunkHeader(text) == Header(|c.data|, 0)
            && RestOf(text) == c.data + "\r\n" + more
  {
    var text, rest := EncodeChunk(c) + more, c.data + "\r\n" + more;
    assert text == c.sizeLine + "\r" + "\n" + rest;
    FirstCrlf(c.sizeLine, rest);
    HeaderOfSizeLine(c);
  }

  lemma HeaderOfSizeLine(c: Chunk)
    requires Sized(c)
    ensures HeaderOfLine(c.sizeLine + "\r", 0) == Header(|c.data|, 0)
  {
    assert (c.sizeLine + "\r")[..|c.sizeLine|] == c.sizeLine;
  }

  lemma OneChunk(c: Chunk, more: string, done: string)
    requires Sized(c)
    ensures DecodeChunks(EncodeChunk(c) + more, done)
            == if c.data == "" then Decoded(done, more) else DecodeChunks(more, done + c.data)
  {
    var text := EncodeChunk(c) + more;
    ChunkHeaderReadBack(c, more);
    var rest := RestOf(text);
    assert rest[..|c.data|] == c.data && rest[|c.data| + 2..] == more;
    DecodeStep(text, done);
  }

  /** Decoding undoes encoding. */
  lemma {:induction false} DecodeEncoded(chunks: seq<Chunk>, last: Chunk, done: string, beyond: string)
    requires ProperBody(chunks, last)
    ensures DecodeChunks(EncodeChunks(chunks, last) + beyond, done) == Decoded(done + DataOf(chunks), beyond)
  {
    if chunks == [] {
      OneChunk(last, beyond, done);
      assert done + "" == done;
    } else {
      var c, body := chunks[0], EncodeChunks(chunks[1..], last);
      Regroup(EncodeChunk(c), body, beyond);
      OneChunk(c, body + beyond, done);
      DecodeEncoded(chunks[1..], last, done + c.data, beyond);
      Regroup(done, c.data, DataOf(chunks[1..]));
    }
  }

  /** A body of which the end is missing ends with the stream. */
  lemma {:induction false} CutShort(chunks: seq<Chunk>, last: Chunk, done: string, n: nat)
    requires ProperBody(chunks, last) && n < |EncodeChunks(chunks, last)|
    ensures DecodeChunks(EncodeChunks(chunks, last)[..n], done) == Fails(EndOfStream)
  {
    if chunks == [] {
      OneCutShort(last, done, n);
    } else {
      var c, body := chunks[0], EncodeChunks(chunks[1..], last);
      var k := |EncodeChunk(c)|;
      if n < k {
        OneCutShort(c, done, n);
        assert (EncodeChunk(c) + body)[..n] == EncodeChunk(c)[..n];
      } else {
        OneChunk(c, body[..n - k], done);
        assert (EncodeChunk(c) + body)[..n] == EncodeChunk(c) + body[..n - k];
        CutShort(chunks[1..], last, done + c.data, n - k);
      }
    }
  }

  /** Where a chunk breaks off: in its size line, or behind it. */
  lemma OneCutShort(c: Chunk, done: string, n: nat)
    requires Sized(c) && n < |EncodeChunk(c)|
    ensures DecodeChunks(EncodeChunk(c)[..n], done) == Fails(EndOfStream)
  {
    var text, line := EncodeChunk(c)[..n], c.sizeLine + "\r" + "\n";
    if n < |line| {
      NewlineInCrlf(text);
      assert forall k :: 0 <= k < n ==> text[k] == line[k];
    } else {
      var rest := (c.data + "\r\n")[..n - |line|];
      assert text == line + rest;
      FirstCrlf(c.sizeLine, rest);
      HeaderOfSizeLine(c);
    }
  }

  /** A size line that reads as no number is an error of the protocol. */
  lemma BadSize(sizeLine: string, more: string, done: string)
    requires '\n' !in sizeLine && StoUL(sizeLine, 16).None?
    ensures DecodeChunks(sizeLine + "\r\n" + more, done) == Fails(Protocol)
  {
    assert sizeLine + "\r\n" + more == sizeLine + "\r" + "\n" + more;
    FirstCrlf(sizeLine, more);
    assert (sizeLine + "\r")[..|sizeLine|] == sizeLine;
  }

  /** A size line that ends with a bare newline loses its last character. The bytes up to the next CRLF
      and the CRLF, which the search has buffered, come on top of what is asked for. */
  lemma BareHeader(sizeLine: string, last: char, more: string, rest: string)
    requires '\n' !in sizeLine && last != '\n' && last != '\r' && '\r' !in more
    ensures var body, size := more + CRLF + rest, StoUL(sizeLine, 16);
            var text := sizeLine + [last] + "\n" + body;
            && RestOf(text) == body
            && ReadChunkHeader(text) == if size.None? then Bad(Protocol) else Header(size.value, |more| + 2)
  {
    var line, body := sizeLine + [last], more + CRLF + rest;
    var text := line + "\n" + body;
    LineSplit(line, body);
    CrlfBehind(line, more, rest);
    assert ReadChunkHeader(text) == HeaderOfLine(line, |more| + 2);
    assert line[..|sizeLine|] == sizeLine;
  }

  lemma CrlfBehind(line: string, more: string, rest: string)
    requires '\r' !in more && '\n' !in line && line != "" && line[|line| - 1] != '\r'
    ensures LineEnd(line + "\n" + (more + CRLF + rest)) == Some(|line| + 1 + |more|)
  {
    var text, front, at := line + "\n" + (more + CRLF + rest), line + "\n" + more, |line| + 1 + |more|;
    assert text == front + (CRLF + rest);
    assert forall k :: 0 <= k < at ==> text[k] == front[k];
    assert text[at] == CRLF[0] && text[at + 1] == CRLF[1];
    CrlfAt(text, at);
  }

  lemma CrlfAt(text: string, at: nat)
    requires at + 1 < |text| && text[at] == '\r' && text[at + 1] == '\n'
    requires forall k :: 0 <= k < at && text[k] == '\r' ==> text[k + 1] != '\n'
    ensures LineEnd(text) == Some(at)
  {
    assert MatchesAt(text, CRLF, at);
    var first := LineEnd(text).value;
    assert text[first] == CRLF[0] && text[first + 1] == CRLF[1];
  }

  /** The decoders of the client and of the server give back the data of every encoded body,
      however the network cuts it. */
  method ChunkedRoundTrip(chunks: seq<Chunk>, last: Chunk, fragments: seq<string>, maxSize: nat)
    returns (outcome: Outcome)
    requires ProperBody(chunks, last)
    requires Concat(fragments) == EncodeChunks(chunks, last) && |Concat(fragments)| < maxSize
    ensures outcome == Delivered(DataOf(chunks))
  {
    var inbox := new Inbox(fragments, maxSize);
    ghost var text := EncodeChunks(chunks, last);
    assert inbox.All() == text == text + "";
    DecodeEncoded(chunks, last, "", "");
    assert "" + DataOf(chunks) == DataOf(chunks);
    outcome := ReadChunked(inbox, "", DecodeChunks(text, ""));
    MeetsExactly(DecodeChunks(text, ""), outcome);
  }

  lemma PrintFieldsEnd(fields: seq<Field>)
    requires fields != []
    ensures var s := PrintFields(fields); |s| >= 2 && s[|s| - 2] == '\r' && s[|s| - 1] == '\n'
  {
    if |fields| > 1 {
      PrintFieldsEnd(fields[1..]);
    }
  }

  /** The lines of a head, without the blank line. */
  function Lines(front: string, fields: seq<Field>): (head: string) {
    front + "\n" + PrintFields(fields)
  }

  lemma BlankLineBehind(front: string, fields: seq<Field>, content: string)
    requires front != "" && front[|front| - 1] == '\r'
    ensures var head := Lines(front, fields);
            |head| >= 2 && MatchesAt(head + "\r\n" + content, BLANK_LINE, |head| - 2)
  {
    var head := Lines(front, fields);
    if fields != [] {
      PrintFieldsEnd(fields);
    }
    assert head[|head| - 2] == '\r' && head[|head| - 1] == '\n';
  }

  /** The head of a printed message ends where its content starts. */
  lemma HeadEndsAtContent(text: string, front: string, fields: seq<Field>, content: string) returns (end: nat)
    requires text == front + "\n" + (PrintFields(fields) + "\r\n" + content)
    requires front != "" && front[|front| - 1] == '\r'
    requires HeaderOf(text) == Parsed(fields, content, true)
    ensures end + 4 + |content| == |text| && HeadEnd(text) == Some(end)
  {
    RegroupHead(front + "\n", PrintFields(fields), content);
    BlankLineBehind(front, fields, content);
    end := |text| - |content| - 4;
    FirstBlankLine(text, end);
  }

  lemma RegroupHead(line: string, fields: string, content: string)
    ensures line + (fields + "\r\n" + content) == line + fields + "\r\n" + content
  {
  }

  /** A blank line behind which just the parsed rest lies is the first one. */
  lemma FirstBlankLine(text: string, at: nat)
    requires MatchesAt(text, BLANK_LINE, at) && HeaderOf(text).Parsed? && |HeaderOf(text).rest| == |text| - at - 4
    ensures HeadEnd(text) == Some(at)
  {
    var first := FindText(text, BLANK_LINE);
    assert first.Some? && first.value <= at;
    BlankLineEndsHeader(text);
  }

  lemma {:induction false} FindFieldAppend(a: seq<Field>, b: seq<Field>, name: string)
    ensures FindField(a + b, name) == if FindField(a, name).Some? then FindField(a, name) else FindField(b, name)
  {
    if a == [] {
      assert a + b == b;
    } else {
      assert (a + b)[0] == a[0] && (a + b)[1..] == a[1..] + b;
      FindFieldAppend(a[1..], b, name);
    }
  }

  /** The two spellings that the code searches for are the same name. */
  lemma SameName(name: string)
    ensures CaseInsensitiveEqual(name, "content-length") <==> CaseInsensitiveEqual(name, "Content-Length")
    ensures CaseInsensitiveEqual(name, "transfer-encoding") <==> CaseInsensitiveEqual(name, "Transfer-Encoding")
  {
    assert CaseInsensitiveEqual("content-length", "Content-Length");
    assert CaseInsensitiveEqual("transfer-encoding", "Transfer-Encoding");
    SameNameAs(name, "content-length", "Content-Length");
    SameNameAs(name, "transfer-encoding", "Transfer-Encoding");
  }

  lemma SameNameAs(name: string, a: string, b: string)
    requires CaseInsensitiveEqual(a, b)
    ensures CaseInsensitiveEqual(name, a) <==> CaseInsensitiveEqual(name, b)
  {
  }

  lemma {:induction false} NoLengthField(header: seq<Field>)
    ensures (forall k :: 0 <= k < |header| ==> !NamesLength(header[k]))
            <==> FindField(header, "Content-Length").None?
  {
    if header != [] {
      SameName(header[0].0);
      NoLengthField(header[1..]);
      assert forall k :: 0 < k < |header| ==> header[k] == header[1..][k - 1];
      if forall k :: 0 <= k < |header| ==> !NamesLength(header[k]) {
        assert forall k :: 0 <= k < |header[1..]| ==> header[1..][k] == header[k + 1];
      }
    }
  }

  /** The server adds a length exactly if no field gives one or says "chunked", up to case, and the
      connection stays open. */
  lemma AddsLengthIff(header: seq<Field>, closeAfter: bool)
    ensures AddsLength(header, closeAfter)
            <==> && !closeAfter && FindField(header, "Content-Length").None?
                 && !exists f :: f in header && CaseInsensitiveEqual(f.0, "Transfer-Encoding")
                                 && CaseInsensitiveEqual(f.1, "chunked")
  {
    NoLengthField(header);
    forall k | 0 <= k < |header|
      ensures SaysChunked(header[k])
              <==> && CaseInsensitiveEqual(header[k].0, "Transfer-Encoding")
                   && CaseInsensitiveEqual(header[k].1, "chunked")
    {
      SameName(header[k].0);
    }
    if f :| f in header && CaseInsensitiveEqual(f.0, "Transfer-Encoding") && CaseInsensitiveEqual(f.1, "chunked") {
      var k :| 0 <= k < |header| && header[k] == f;
      assert SaysChunked(header[k]);
    }
    if exists k :: 0 <= k < |header| && SaysChunked(header[k]) {
      var k :| 0 <= k < |header| && SaysChunked(header[k]);
      assert header[k] in header;
    }
  }

  /** What a printed response looks like. */
  lemma ResponseText(status: string, header: seq<Field>, closeAfter: bool, content: string)
    ensures var length := if !closeAfter && FindField(header, "Content-Length").None?
                             && !exists f :: f in header && CaseInsensitiveEqual(f.0, "Transfer-Encoding")
                                             && CaseInsensitiveEqual(f.1, "chunked")
                          then "Content-Length: " + Print(|content|, 10) + "\r\n" else "";
            PrintResponse(status, header, closeAfter, content)
            == "HTTP/1.1 " + status + "\r\n" + (PrintFields(header) + length + "\r\n" + content)
  {
    ResponseFieldsText(header, closeAfter, |content|);
    StatusText(status);
  }

  lemma ResponseFieldsText(header: seq<Field>, closeAfter: bool, size: nat)
    ensures var length := if !closeAfter && FindField(header, "Content-Length").None?
                             && !exists f :: f in header && CaseInsensitiveEqual(f.0, "Transfer-Encoding")
                                             && CaseInsensitiveEqual(f.1, "chunked")
                          then "Content-Length: " + Print(size, 10) + "\r\n" else "";
            PrintFields(ResponseFields(header, closeAfter, size)) == PrintFields(header) + length
  {
    AddsLengthIff(header, closeAfter);
    if AddsLength(header, closeAfter) {
      AddedFieldText(Print(size, 10));
      PrintFieldsAppend(header, ("Content-Length", Print(size, 10)));
    } else {
      assert ResponseFields(header, closeAfter, size) == header;
    }
  }

  lemma StatusText(status: string)
    ensures StatusLineText(status) + "\n" == "HTTP/1.1 " + status + "\r\n"
  {
  }

  lemma {:induction false} ChunkedField(header: seq<Field>)
    requires FindField(header, "Transfer-Encoding") == Some("chunked")
    ensures exists k :: 0 <= k < |header| && SaysChunked(header[k])
  {
    SameName(header[0].0);
    if CaseInsensitiveEqual(header[0].0, "Transfer-Encoding") {
      assert SaysChunked(header[0]);
    } else {
      ChunkedField(header[1..]);
      var k :| 0 <= k < |header[1..]| && SaysChunked(header[1..][k]);
      assert SaysChunked(header[k + 1]);
    }
  }

  /** The content behind a length that is its own. */
  lemma LengthFrames(fields: seq<Field>, content: string, badLength: Error, untilClose: bool)
    requires |content| < ULONG_LIMIT && FindField(fields, "Content-Length") == Some(Print(|content|, 10))
    ensures ContentOf(fields, content, |content|, badLength, untilClose) == Plainly(content, "")
  {
    var n := |content|;
    assert Print(n, 10) + "" == Print(n, 10);
    ReadBack(n, 10, 10, "");
    assert content[..0 + n] == content && content[0 + n..] == "";
  }

  /** The content that no field frames: all that comes, or none of it. */
  lemma NothingFrames(fields: seq<Field>, content: string, badLength: Error, untilClose: bool)
    requires FindField(fields, "Content-Length").None?
    requires FindField(fields, "Transfer-Encoding") != Some("chunked")
    ensures ContentOf(fields, content, |content|, badLength, untilClose)
            == if untilClose then Plainly(content, "") else Plainly("", content)
  {
    assert content[..0] == "" && content[0..] == content;
  }

  /** A content behind a length that the caller gave. */
  function OfLength(content: string, length: string, badLength: Error): (x: Expectation) {
    var n := StoUL(length, 10);
    if n.None? then Fails(badLength)
    else if n.value > |content| then Fails(EndOfStream)
    else Plainly(content[..n.value], content[n.value..])
  }

  lemma CallerLengthFrames(fields: seq<Field>, content: string, length: string, badLength: Error, untilClose: bool)
    requires FindField(fields, "Content-Length") == Some(length)
    ensures ContentOf(fields, content, |content|, badLength, untilClose) == OfLength(content, length, badLength)
  {
  }

  lemma VersionStaysOpen()
    ensures !Less("1.1", "1.1")
  {
    assert "1.1"[1..] == ".1" && ".1"[1..] == "1" && "1"[1..] == "";
    assert !Less("", "");
    assert !Less("1", "1");
    assert !Less(".1", ".1");
  }

  /** The meaning of a printed response is that of its content. */
  lemma PrintedResponse(status: string, header: seq<Field>, closeAfter: bool, content: string)
    requires '\n' !in status && forall f :: f in header ==> WellFormed(f)
    ensures var fields := ResponseFields(header, closeAfter, |content|);
            ResponseOf(PrintResponse(status, header, closeAfter, content))
            == ContentOf(fields, content, |content|, Thrown, UntilClose("1.1", fields))
  {
    var text := PrintResponse(status, header, closeAfter, content);
    var fields := ResponseFields(header, closeAfter, |content|);
    ResponseRoundTrip(status, header, closeAfter, content);
    var end := HeadEndsAtContent(text, StatusLineText(status), fields, content);
    ResponseOfHead(text);
    SameContent(HeaderOf(text).fields, HeaderOf(text).rest, |text| - (end + 4), fields, content, |content|, Thrown,
                UntilClose("1.1", fields));
  }

  /** What the client makes of a response whose caller gave no length and no "chunked": the
      content itself if and only if the server adds the length or a field "Session: close" tells
      the client to wait for the end of the connection. Otherwise it delivers what happens to be
      buffered. */
  lemma ResponseFraming(status: string, header: seq<Field>, closeAfter: bool, content: string)
    requires '\n' !in status && (forall f :: f in header ==> WellFormed(f)) && |content| < ULONG_LIMIT
    requires FindField(header, "Content-Length").None?
    requires FindField(header, "Transfer-Encoding") != Some("chunked")
    ensures ResponseOf(PrintResponse(status, header, closeAfter, content))
            == if (!closeAfter && !exists f :: f in header && CaseInsensitiveEqual(f.0, "Transfer-Encoding")
                                                && CaseInsensitiveEqual(f.1, "chunked"))
                  || FindField(header, "Session") == Some("close")
               then Plainly(content, "") else Plainly("", content)
  {
    AddsLengthIff(header, closeAfter);
    var fields := ResponseFields(header, closeAfter, |content|);
    PrintedResponse(status, header, closeAfter, content);
    if AddsLength(header, closeAfter) {
      FindFieldAppend(header, [("Content-Length", Print(|content|, 10))], "Content-Length");
      LengthFrames(fields, content, Thrown, UntilClose("1.1", fields));
    } else {
      assert fields == header;
      VersionStaysOpen();
      NothingFrames(fields, content, Thrown, UntilClose("1.1", fields));
    }
  }

  /** What the client makes of a response whose caller gave a length of its own. */
  lemma CallerLengthResponse(status: string, header: seq<Field>, closeAfter: bool, content: string, length: string)
    requires '\n' !in status && forall f :: f in header ==> WellFormed(f)
    requires FindField(header, "Content-Length") == Some(length)
    ensures ResponseOf(PrintResponse(status, header, closeAfter, content)) == OfLength(content, length, Thrown)
  {
    NoLengthField(header);
    assert ResponseFields(header, closeAfter, |content|) == header;
    PrintedResponse(status, header, closeAfter, content);
    CallerLengthFrames(header, content, length, Thrown, UntilClose("1.1", header));
  }

  /** Two responses to which the server adds no length, though the client needs one: with a coding
      that the server takes for "chunked" and the client does not, and on a connection that the
      server will close. */
  lemma UnframedResponses(status: string, content: string)
    requires '\n' !in status && |content| < ULONG_LIMIT
    ensures ResponseOf(PrintResponse(status, [("Transfer-Encoding", "Chunked")], false, content))
            == Plainly("", content)
    ensures ResponseOf(PrintResponse(status, [], true, content)) == Plainly("", content)
  {
    var header := [("Transfer-Encoding", "Chunked")];
    assert header[1..] == [];
    assert header[0] in header && CaseInsensitiveEqual(header[0].1, "chunked");
    assert FindField(header, "Session").None?;
    ResponseFraming(status, header, false, content);
    ResponseFraming(status, [], true, content);
  }

  /** A response that its caller framed as chunks means their data. */
  lemma ChunkedResponse(status: string, header: seq<Field>, closeAfter: bool, chunks: seq<Chunk>, last: Chunk)
    requires '\n' !in status && (forall f :: f in header ==> WellFormed(f)) && ProperBody(chunks, last)
    requires FindField(header, "Content-Length").None?
    requires FindField(header, "Transfer-Encoding") == Some("chunked")
    ensures ResponseOf(PrintResponse(status, header, closeAfter, EncodeChunks(chunks, last)))
            == Decoded(DataOf(chunks), "")
  {
    var content := EncodeChunks(chunks, last);
    ChunkedField(header);
    assert ResponseFields(header, closeAfter, |content|) == header;
    PrintedResponse(status, header, closeAfter, content);
    DecodeEncoded(chunks, last, "", "");
    assert content + "" == content && "" + DataOf(chunks) == DataOf(chunks);
  }

  lemma PrintedRequest(requestMethod: string, path: string, host: string, fields: seq<Field>, content: string)
    requires Plain(requestMethod) && Plain(path) && '\n' !in host
    requires forall f :: f in fields ==> WellFormed(f)
    ensures RequestOf(PrintRequest(requestMethod, path, host, fields, content))
            == ContentOf(RequestFields(host, fields, content), content, |content|, Protocol, false)
  {
    var text, printed := PrintRequest(requestMethod, path, host, fields, content), RequestFields(host, fields, content);
    RequestRoundTrip(requestMethod, path, host, fields, content);
    var end := HeadEndsAtContent(text, RequestLineText(requestMethod, CorrectedPath(path)), printed, content);
    RequestOfHead(text);
  }

  /** The meaning of a printed request, likewise: the client frames whatever its caller does not. */
  lemma RequestFraming(requestMethod: string, path: string, host: string, fields: seq<Field>, content: string)
    requires Plain(requestMethod) && Plain(path) && '\n' !in host && |content| < ULONG_LIMIT
    requires forall f :: f in fields ==> WellFormed(f)
    requires FindField(fields, "Content-Length").None?
    requires FindField(fields, "Transfer-Encoding") != Some("chunked")
    ensures RequestOf(PrintRequest(requestMethod, path, host, fields, content)) == Plainly(content, "")
  {
    PrintedRequest(requestMethod, path, host, fields, content);
    RequestContent(host, fields, content);
  }

  /** A request without a content that no field frames ends with its head, whatever comes behind it. */
  lemma UnframedRequest(requestMethod: string, path: string, host: string, fields: seq<Field>, beyond: string)
    requires Plain(requestMethod) && Plain(path) && '\n' !in host && forall f :: f in fields ==> WellFormed(f)
    requires FindField(fields, "Content-Length").None?
    requires FindField(fields, "Transfer-Encoding") != Some("chunked")
    ensures RequestOf(PrintRequest(requestMethod, path, host, fields, "") + beyond) == Plainly("", beyond)
  {
    var text, printed := PrintRequest(requestMethod, path, host, fields, ""), RequestFields(host, fields, "");
    assert printed == [("Host", host)] + fields;
    HostFramesNothing(host, fields);
    RequestRoundTrip(requestMethod, path, host, fields, "");
    var end := HeadEndsAtContent(text, RequestLineText(requestMethod, CorrectedPath(path)), printed, "");
    HeadInPrefix(text, beyond, 0);
    RequestOfHead(text + beyond);
    NothingFrames(printed, beyond, Protocol, false);
    assert "" + beyond == beyond;
  }

  lemma RequestContent(host: string, fields: seq<Field>, content: string)
    requires |content| < ULONG_LIMIT
    requires FindField(fields, "Content-Length").None?
    requires FindField(fields, "Transfer-Encoding") != Some("chunked")
    ensures ContentOf(RequestFields(host, fields, content), content, |content|, Protocol, false) == Plainly(content, "")
  {
    var printed := RequestFields(host, fields, content);
    FindFieldAppend([("Host", host)], fields, "Content-Length");
    FindFieldAppend([("Host", host)], fields, "Transfer-Encoding");
    if content != "" {
      FindFieldAppend([("Host", host)] + fields, [("Content-Length", Print(|content|, 10))], "Content-Length");
      LengthFrames(printed, content, Protocol, false);
    } else {
      assert printed == [("Host", host)] + fields;
      NothingFrames(printed, content, Protocol, false);
    }
  }

  /** What the server makes of a request whose caller gave a length of its own. */
  lemma CallerLengthRequest(requestMethod: string, path: string, host: string, fields: seq<Field>, content: string,
                            length: string)
    requires Plain(requestMethod) && Plain(path) && '\n' !in host && forall f :: f in fields ==> WellFormed(f)
    requires FindField(fields, "Content-Length") == Some(length)
    ensures RequestOf(PrintRequest(requestMethod, path, host, fields, content)) == OfLength(content, length, Protocol)
  {
    PrintedRequest(requestMethod, path, host, fields, content);
    FindFieldAppend([("Host", host)], fields, "Content-Length");
    assert RequestFields(host, fields, content) == [("Host", host)] + fields;
    CallerLengthFrames(RequestFields(host, fields, content), content, length, Protocol, false);
  }

  /** A request that its caller framed as chunks means their data. */
  lemma ChunkedRequest(requestMethod: string, path: string, host: string, fields: seq<Field>,
                       chunks: seq<Chunk>, last: Chunk)
    requires Plain(requestMethod) && Plain(path) && '\n' !in host && forall f :: f in fields ==> WellFormed(f)
    requires ProperBody(chunks, last)
    requires FindField(fields, "Content-Length").None?
    requires FindField(fields, "Transfer-Encoding") == Some("chunked")
    ensures RequestOf(PrintRequest(requestMethod, path, host, fields, EncodeChunks(chunks, last)))
            == Decoded(DataOf(chunks), "")
  {
    var content := EncodeChunks(chunks, last);
    PrintedRequest(requestMethod, path, host, fields, content);
    assert RequestFields(host, fields, content) == [("Host", host)] + fields;
    HostFramesNothing(host, fields);
    ChunksFrame([("Host", host)] + fields, chunks, last);
  }

  lemma HostFramesNothing(host: string, fields: seq<Field>)
    ensures FindField([("Host", host)] + fields, "Content-Length") == FindField(fields, "Content-Length")
    ensures FindField([("Host", host)] + fields, "Transfer-Encoding") == FindField(fields, "Transfer-Encoding")
  {
    FindFieldAppend([("Host", host)], fields, "Content-Length");
    FindFieldAppend([("Host", host)], fields, "Transfer-Encoding");
  }

  /** The content behind a header that says "chunked". */
  lemma ChunksFrame(fields: seq<Field>, chunks: seq<Chunk>, last: Chunk)
    requires ProperBody(chunks, last)
    requires FindField(fields, "Content-Length").None?
    requires FindField(fields, "Transfer-Encoding") == Some("chunked")
    ensures var content := EncodeChunks(chunks, last);
            ContentOf(fields, content, |content|, Protocol, false) == Decoded(DataOf(chunks), "")
  {
    var content := EncodeChunks(chunks, last);
    DecodeEncoded(chunks, last, "", "");
    assert content + "" == content && "" + DataOf(chunks) == DataOf(chunks);
  }

  /** A request that makes the server's reading undefined. */
  lemma UndefinedRequest(requestMethod: string, path: string, host: string)
    requires Plain(requestMethod) && Plain(path) && '\n' !in host
    ensures RequestOf(PrintRequest(requestMethod, path, host, [("Transfer-Encoding", "chunked")], "\n\r\n"))
            == Fails(Undefined)
  {
    var fields, content := [("Transfer-Encoding", "chunked")], "\n\r\n";
    assert fields[1..] == [];
    PrintedRequest(requestMethod, path, host, fields, content);
    HostFramesNothing(host, fields);
    assert RequestFields(host, fields, content) == [("Host", host)] + fields;
    EmptySizeLineExists();
    ContentUndefinedIff([("Host", host)] + fields, content, |content|, Protocol, false, true);
  }

  /** From the server's `write` to the client's callback, for every fragmentation. */
  method ServerToClient(status: string, content: string, header: seq<Field>, fragments: seq<string>, maxSize: nat)
    returns (response: Response)
    requires '\n' !in status && (forall f :: f in header ==> WellFormed(f)) && |content| < ULONG_LIMIT
    requires FindField(header, "Content-Length").None?
    requires !exists f :: f in header && CaseInsensitiveEqual(f.0, "Transfer-Encoding")
                          && CaseInsensitiveEqual(f.1, "chunked")
    requires Concat(fragments) == PrintResponse(status, header, false, content)
    requires |Concat(fragments)| < maxSize
    ensures response.outcome == Delivered(content)
    ensures response.head == ResponseHead("1.1", status, header + [("Content-Length", Print(|content|, 10))])
  {
    ghost var text := PrintResponse(status, header, false, content);
    AddsLengthIff(header, false);
    if FindField(header, "Transfer-Encoding") == Some("chunked") {
      ChunkedField(header);
    }
    ResponseFraming(status, header, false, content);
    ResponseRoundTrip(status, header, false, content);
    var inbox := new Inbox(fragments, maxSize);
    assert inbox.All() == text;
    response := ClientRead(inbox);
    MeetsExactly(ResponseOf(text), response.outcome);
  }

  /** From the client's `request` to the server's resource function, for every fragmentation. */
  method ClientToServer(requestMethod: string, path: string, host: string, fields: seq<Field>, content: string,
                        fragments: seq<string>, maxSize: nat)
    returns (request: Request)
    requires Plain(requestMethod) && Plain(path) && '\n' !in host && |content| < ULONG_LIMIT
    requires forall f :: f in fields ==> WellFormed(f)
    requires FindField(fields, "Content-Length").None?
    requires FindField(fields, "Transfer-Encoding") != Some("chunked")
    requires Concat(fragments) == PrintRequest(requestMethod, path, host, fields, content)
    requires |Concat(fragments)| < maxSize
    ensures request.outcome == Delivered(content)
    ensures request.head.requestMethod == requestMethod && request.head.version == "1.1"
    ensures request.head.header == RequestFields(host, fields, content)
    ensures (request.head.path, request.head.query)
            == var (p, q) := SplitTarget(CorrectedPath(path)); (p, if q.None? then "" else q.value)
  {
    ghost var text := PrintRequest(requestMethod, path, host, fields, content);
    RequestFraming(requestMethod, path, host, fields, content);
    RequestRoundTrip(requestMethod, path, host, fields, content);
    var inbox := new Inbox(fragments, maxSize);
    assert inbox.All() == text;
    request := ServerRead(inbox, RequestHead("", "", "", "", []));
    MeetsExactly(RequestOf(text), request.outcome);
    RequestLineIs(requestMethod, path, host, fields, content);
  }

  lemma RequestLineIs(requestMethod: string, path: string, host: string, fields: seq<Field>, content: string)
    requires Plain(requestMethod) && Plain(path)
    ensures var (p, q) := SplitTarget(CorrectedPath(path));
            ParseRequestLine(LineOf(PrintRequest(requestMethod, path, host, fields, content)))
            == Some(RequestLine(requestMethod, p, q, "1.1"))
  {
    var line := RequestLineText(requestMethod, CorrectedPath(path));
    LineSplit(line, PrintFields(RequestFields(host, fields, content)) + "\r\n" + content);
    RequestLineReadBack(requestMethod, CorrectedPath(path));
  }
}
