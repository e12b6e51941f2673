/** Reading a whole message, and what it takes for the two sides to understand each other. */
module Exchange {
  import opened Text
  import opened Numerals
  import opened Http
  import opened Messages
  import opened Wire
  import opened Framing

  /** The order of `std::string`. */
  predicate Less(a: string, b: string) {
    b != "" && (a == "" || a[0] < b[0] || (a[0] == b[0] && Less(a[1..], b[1..])))
  }

  /** What must come of reading the content: `rest` is the stream behind the parsed head, and its
      last `behind` bytes are those behind the blank line. */
  function ContentOf(fields: seq<Field>, rest: string, behind: nat, badLength: Error, untilClose: bool)
    : (x: Expectation)
    requires behind <= |rest|
  {
    var lead := |rest| - behind;
    var length := FindField(fields, "Content-Length");
    if length.Some? then
      var n := StoUL(length.value, 10);
      if n.None? then Fails(badLength)
      else if n.value > behind then Fails(EndOfStream)
      else Plainly(rest[..lead + n.value], rest[lead + n.value..])
    else if FindField(fields, "Transfer-Encoding") == Some("chunked") then DecodeChunks(rest, "")
    else if untilClose then Plainly(rest, "")
    else Plainly(rest[..lead], rest[lead..])
  }

  /** Where the blank line is that ends a head. */
  function HeadEnd(text: string): (end: Option<nat>)
    ensures end.Some? ==> MatchesAt(text, BLANK_LINE, end.value)
  {
    FindText(text, BLANK_LINE)
  }

  /** The client reads until the peer closes when no field frames the content and the version, or
      a "Session: close" field, says so. */
  predicate UntilClose(version: string, fields: seq<Field>) {
    Less(version, "1.1") || FindField(fields, "Session") == Some("close")
  }

  /** What must come of reading a response off a stream. */
  function ResponseOf(all: string): (x: Expectation) {
    var end := HeadEnd(all);
    if end.None? then Fails(EndOfStream)
    else
      BlankLineEndsHeader(all);
      BehindStatusLine(ParseStatusLine(LineOf(all)), HeaderOf(all), |all| - (end.value + 4))
  }

  function BehindStatusLine(status: Option<(string, string)>, header: Parsed, behind: nat): (x: Expectation)
    requires header.Parsed? && behind <= |header.rest|
  {
    if status.None? then Fails(Protocol)
    else ContentOf(header.fields, header.rest, behind, Thrown, UntilClose(status.value.0, header.fields))
  }

  /** What must come of reading a request off a stream. */
  function RequestOf(all: string): (x: Expectation) {
    var end := HeadEnd(all);
    if end.None? then Fails(EndOfStream)
    else
      BlankLineEndsHeader(all);
      BehindRequestLine(ParseRequestLine(LineOf(all)), HeaderOf(all), |all| - (end.value + 4))
  }

  function BehindRequestLine(line: Option<RequestLine>, header: Parsed, behind: nat): (x: Expectation)
    requires header.Parsed? && behind <= |header.rest|
  {
    if line.None? then Fails(Protocol) else ContentOf(header.fields, header.rest, behind, Protocol, false)
  }

  /** An empty line stops the header parser, unless something stops it before. */
  lemma {:induction false} EmptyLineStops(text: string, at: nat)
    requires MatchesAt(text, CRLF, at) && (at == 0 || text[at - 1] == '\n')
    ensures ParseFields(text).Parsed? && ParseFields(text).good
    ensures |ParseFields(text).rest| >= |text| - (at + 2)
    decreases |text|
  {
    assert text[at] == CRLF[0] && text[at + 1] == CRLF[1];
    var end := Find(text, '\n');
    if at == 0 {
      FindIs(text, '\n', 0, 1);
      assert LineOf(text) == "\r";
    } else {
      var rest := RestOf(text);
      var k := at - (end.value + 1);
      assert MatchesAt(rest, CRLF, k);
      EmptyLineStops(rest, k);
    }
  }

  lemma BlankLineEndsHeader(text: string)
    requires HeadEnd(text).Some?
    ensures Has(text, '\n') && HeaderOf(text).Parsed? && HeaderOf(text).good
    ensures |HeaderOf(text).rest| >= |text| - (HeadEnd(text).value + 4)
  {
    var at := HeadEnd(text).value;
    assert text[at + 1] == BLANK_LINE[1] && text[at + 2] == BLANK_LINE[2] && text[at + 3] == BLANK_LINE[3];
    assert Find(text, '\n').Some?;
    var rest := RestOf(text);
    var k := at + 1 - Find(text, '\n').value;
    assert MatchesAt(rest, CRLF, k);
    assert k > 0 ==> rest[k - 1] == text[at + 1];
    EmptyLineStops(rest, k);
  }

  /** A header that ends in the buffer ends there in the stream. */
  lemma {:induction false} ParsedInPrefix(text: string, more: string)
    requires ParseFields(text).Parsed? && ParseFields(text).good
    ensures ParseFields(text + more)
            == ParseFields(text).(rest := ParseFields(text).rest + more)
    decreases |text|
  {
    if Has(text, '\n') {
      LineOfPrefix(text, more);
      if Has(LineOf(text), ':') {
        ParsedInPrefix(RestOf(text), more);
      }
    }
  }

  lemma HeaderInPrefix(text: string, more: string)
    requires HeadEnd(text).Some?
    ensures HeaderOf(text).Parsed? && LineOf(text + more) == LineOf(text)
    ensures HeaderOf(text + more) == HeaderOf(text).(rest := HeaderOf(text).rest + more)
  {
    BlankLineEndsHeader(text);
    LineOfPrefix(text, more);
    ParsedInPrefix(RestOf(text), more);
  }

  /** Of a content with a length only the missing bytes are read: none if it is buffered, and never
      one beyond it; all of them if it is delivered. */
  predicate LengthIsRead(before: string, after: string, numAdditionalBytes: nat, length: Option<nat>, outcome: Outcome)
    requires numAdditionalBytes <= |before|
  {
    if length.None? || length.value <= numAdditionalBytes then after == before
    else
      var end := |before| - numAdditionalBytes + length.value;
      before <= after && |after| <= end && (outcome.Delivered? ==> |after| == end)
  }

  /** The part of the two `read` handlers behind the parser. */
  method ReadContent(inbox: Inbox, header: seq<Field>, numAdditionalBytes: nat, badLength: Error, untilClose: bool,
                     ghost all: string, ghost behind: nat) returns (outcome: Outcome)
    requires inbox.Valid() && numAdditionalBytes <= |inbox.streambuf|
    requires all == inbox.All() && behind == numAdditionalBytes + |inbox.Coming()|
    modifies inbox
    ensures inbox.Valid()
    ensures outcome in AllowedWithin(ContentOf(header, all, behind, badLength, untilClose), inbox.maxSize)
    ensures |all| < inbox.maxSize ==> outcome in Allowed(ContentOf(header, all, behind, badLength, untilClose))
    ensures FindField(header, "Content-Length").Some? ==>
      LengthIsRead(old(inbox.streambuf), inbox.streambuf, numAdditionalBytes,
                   StoUL(FindField(header, "Content-Length").value, 10), outcome)
    ensures (FindField(header, "Content-Length").None? && FindField(header, "Transfer-Encoding") != Some("chunked")
             && !untilClose) ==> inbox.streambuf == old(inbox.streambuf)
  {
    ghost var fixed := |inbox.streambuf| - numAdditionalBytes;
    var length := FindField(header, "Content-Length");
    if length.Some? {
      outcome := ReadByLength(inbox, StoUL(length.value, 10), numAdditionalBytes, badLength, all);
      Within(ContentOf(header, all, behind, badLength, untilClose), inbox.maxSize);
      return;
    } else if FindField(header, "Transfer-Encoding") == Some("chunked") {
      outcome := ReadChunked(inbox, "", ChunkedMeaning(all, ""));
      return;
    } else if untilClose {
      var end := inbox.ReadAll();
      if end.Full? {
        return Failed(MessageSize);
      }
      fixed := |all|;
    }
    BufferedPart(all, inbox.streambuf, inbox.Coming(), fixed);
    outcome := Delivered(inbox.streambuf);
    Within(ContentOf(header, all, behind, badLength, untilClose), inbox.maxSize);
  }

  /** The same for a content with a length: `numAdditionalBytes` of it are buffered. */
  method ReadByLength(inbox: Inbox, length: Option<nat>, numAdditionalBytes: nat, badLength: Error, ghost all: string)
    returns (outcome: Outcome)
    requires inbox.Valid() && numAdditionalBytes <= |inbox.streambuf| && all == inbox.All()
    modifies inbox
    ensures inbox.Valid()
    ensures LengthIsRead(old(inbox.streambuf), inbox.streambuf, numAdditionalBytes, length, outcome)
    ensures length.None? ==> outcome == Failed(badLength)
    ensures length.Some? && outcome != Failed(MessageSize) ==>
      var end := old(|inbox.streambuf|) - numAdditionalBytes + length.value;
      if end > |all| then outcome == Failed(EndOfStream) else outcome in Allowed(Plainly(all[..end], all[end..]))
    ensures outcome == Failed(MessageSize) && length.Some? ==> |all| >= inbox.maxSize
  {
    if length.None? {
      return Failed(badLength);
    }
    var contentLength := length.value;
    ghost var end := |inbox.streambuf| - numAdditionalBytes + contentLength;
    if contentLength > numAdditionalBytes {
      var read := inbox.ReadExactly(contentLength - numAdditionalBytes);
      if read.EndOfFile? {
        return Failed(EndOfStream);
      }
      if |inbox.streambuf| == inbox.maxSize {
        return Failed(MessageSize);
      }
    }
    BufferedPart(all, inbox.streambuf, inbox.Coming(), end);
    outcome := Delivered(inbox.streambuf);
  }

  /** What is buffered is a fixed part of the stream and some of what is beyond it. */
  lemma BufferedPart(all: string, buffered: string, coming: string, fixed: nat)
    requires all == buffered + coming && fixed <= |buffered|
    ensures Delivered(buffered) in Allowed(Plainly(all[..fixed], all[fixed..]))
    ensures fixed == |all| ==> all[..fixed] == all && all[fixed..] == ""
  {
    var k := |buffered| - fixed;
    assert buffered == all[..fixed] + all[fixed..][..k];
  }

  /** The first handler of either `read`: wait for the blank line. */
  method ReceiveHead(inbox: Inbox) returns (error: Option<Error>, numAdditionalBytes: nat)
    requires inbox.Valid()
    modifies inbox
    ensures inbox.Valid() && inbox.All() == old(inbox.All())
    ensures error.None? ==> HeadEnd(inbox.streambuf).Some? && HeaderOf(inbox.streambuf).Parsed?
    ensures error.None? ==> numAdditionalBytes <= |HeaderOf(inbox.streambuf).rest|
    ensures error.None? ==>
      numAdditionalBytes + HeadEnd(inbox.streambuf).value + 4 == |inbox.streambuf|
    ensures error.Some? && error.value != MessageSize ==>
      error.value == EndOfStream && HeadEnd(inbox.All()).None?
    ensures error == Some(MessageSize) ==> |inbox.All()| >= inbox.maxSize
  {
    var end, bytesTransferred := inbox.ReadUntil(BLANK_LINE);
    if !end.EndOfFile? && |inbox.streambuf| == inbox.maxSize {
      return Some(MessageSize), 0;
    }
    if end.EndOfFile? {
      assert inbox.All() == inbox.streambuf;
      return Some(EndOfStream), 0;
    }
    BlankLineEndsHeader(inbox.streambuf);
    return None, |inbox.streambuf| - bytesTransferred;
  }

  /** A head that is buffered, in terms of the buffer and of what is still to come. */
  lemma HeadInPrefix(buffered: string, coming: string, behind: nat)
    requires HeadEnd(buffered).Some?
    requires behind + HeadEnd(buffered).value + 4 == |buffered|
    ensures HeaderOf(buffered).Parsed? && behind <= |HeaderOf(buffered).rest|
    ensures LineOf(buffered + coming) == LineOf(buffered)
    ensures HeaderOf(buffered + coming) == HeaderOf(buffered).(rest := HeaderOf(buffered).rest + coming)
    ensures |HeaderOf(buffered).rest + coming| <= |buffered + coming|
    ensures HeadEnd(buffered + coming) == HeadEnd(buffered)
  {
    FoundInPrefix(buffered, coming, BLANK_LINE);
    HeaderInPrefix(buffered, coming);
    BlankLineEndsHeader(buffered);
    RestIsShorter(buffered);
  }

  lemma ResponseOfHead(all: string)
    requires HeadEnd(all).Some? && ParseStatusLine(LineOf(all)).Some?
    ensures HeaderOf(all).Parsed? && |HeaderOf(all).rest| >= |all| - (HeadEnd(all).value + 4)
    ensures ResponseOf(all)
            == ContentOf(HeaderOf(all).fields, HeaderOf(all).rest, |all| - (HeadEnd(all).value + 4), Thrown,
                         UntilClose(ParseStatusLine(LineOf(all)).value.0, HeaderOf(all).fields))
  {
    ResponseCases(all);
    BehindGoodStatus(ParseStatusLine(LineOf(all)), HeaderOf(all), |all| - (HeadEnd(all).value + 4));
  }

  lemma RequestOfHead(all: string)
    requires HeadEnd(all).Some? && ParseRequestLine(LineOf(all)).Some?
    ensures HeaderOf(all).Parsed? && |HeaderOf(all).rest| >= |all| - (HeadEnd(all).value + 4)
    ensures RequestOf(all)
            == ContentOf(HeaderOf(all).fields, HeaderOf(all).rest, |all| - (HeadEnd(all).value + 4), Protocol, false)
  {
    RequestCases(all);
    BehindGoodLine(ParseRequestLine(LineOf(all)), HeaderOf(all), |all| - (HeadEnd(all).value + 4));
  }

  lemma BehindGoodLine(line: Option<RequestLine>, header: Parsed, behind: nat)
    requires line.Some? && header.Parsed? && behind <= |header.rest|
    ensures BehindRequestLine(line, header, behind) == ContentOf(header.fields, header.rest, behind, Protocol, false)
  {
  }

  lemma BehindGoodStatus(status: Option<(string, string)>, header: Parsed, behind: nat)
    requires status.Some? && header.Parsed? && behind <= |header.rest|
    ensures BehindStatusLine(status, header, behind)
            == ContentOf(header.fields, header.rest, behind, Thrown, UntilClose(status.value.0, header.fields))
  {
  }

  /** What a buffered head says about the whole stream. */
  lemma ResponseVerdict(buffered: string, coming: string, behind: nat, head: ResponseHead, rest: string)
    requires HeadEnd(buffered).Some? && HeaderOf(buffered).Parsed?
    requires behind + HeadEnd(buffered).value + 4 == |buffered + coming| && |coming| <= behind <= |rest|
    requires ParseStatusLine(LineOf(buffered)) == Some((head.version, head.statusCode))
    requires head.header == HeaderOf(buffered).fields && rest == HeaderOf(buffered).rest + coming
    ensures ResponseOf(buffered + coming)
            == ContentOf(head.header, rest, behind, Thrown, UntilClose(head.version, head.header))
  {
    HeadInPrefix(buffered, coming, behind - |coming|);
    var all, until := buffered + coming, UntilClose(head.version, head.header);
    ResponseOfHead(all);
    SameContent(HeaderOf(all).fields, HeaderOf(all).rest, |all| - (HeadEnd(all).value + 4), head.header, rest, behind,
                Thrown, until);
  }

  lemma BadResponse(buffered: string, coming: string, behind: nat)
    requires HeadEnd(buffered).Some? && HeaderOf(buffered).Parsed?
    requires behind + HeadEnd(buffered).value + 4 == |buffered|
    requires ParseStatusLine(LineOf(buffered)).None?
    ensures ResponseOf(buffered + coming) == Fails(Protocol)
  {
    HeadInPrefix(buffered, coming, behind);
  }

  lemma SameContent(fields: seq<Field>, rest: string, behind: nat,
                    fields': seq<Field>, rest': string, behind': nat, badLength: Error, untilClose: bool)
    requires behind <= |rest| && behind' <= |rest'|
    requires fields == fields' && rest == rest' && behind == behind'
    ensures ContentOf(fields, rest, behind, badLength, untilClose)
            == ContentOf(fields', rest', behind', badLength, untilClose)
  {
  }

  lemma RequestVerdict(buffered: string, coming: string, behind: nat, header: seq<Field>, rest: string)
    requires HeadEnd(buffered).Some? && HeaderOf(buffered).Parsed?
    requires behind + HeadEnd(buffered).value + 4 == |buffered + coming| && |coming| <= behind <= |rest|
    requires ParseRequestLine(LineOf(buffered)).Some?
    requires header == HeaderOf(buffered).fields && rest == HeaderOf(buffered).rest + coming
    ensures RequestOf(buffered + coming) == ContentOf(header, rest, behind, Protocol, false)
  {
    HeadInPrefix(buffered, coming, behind - |coming|);
    var all := buffered + coming;
    RequestOfHead(all);
    SameContent(HeaderOf(all).fields, HeaderOf(all).rest, |all| - (HeadEnd(all).value + 4), header, rest, behind,
                Protocol, false);
  }

  lemma BadRequest(buffered: string, coming: string, behind: nat)
    requires HeadEnd(buffered).Some? && HeaderOf(buffered).Parsed?
    requires behind + HeadEnd(buffered).value + 4 == |buffered|
    requires ParseRequestLine(LineOf(buffered)).None?
    ensures RequestOf(buffered + coming) == Fails(Protocol)
  {
    HeadInPrefix(buffered, coming, behind);
  }

  lemma {:induction false} ChunksNeverThrow(text: string, done: string)
    ensures DecodeChunks(text, done) != Fails(Thrown)
    decreases |text|
  {
    match ReadChunkHeader(text)
    case Bad(_) =>
    case Header(size, gap) =>
      var rest := RestOf(text);
      if size > 0 && gap + 2 + size <= |rest| {
        ChunksNeverThrow(rest[size + 2..], done + rest[..size]);
      }
  }

  /** A Content-Length that no `stoull` reads. */
  predicate UnreadableLength(fields: seq<Field>) {
    var length := FindField(fields, "Content-Length");
    length.Some? && StoUL(length.value, 10).None?
  }

  lemma ContentThrowsIff(fields: seq<Field>, rest: string, behind: nat, badLength: Error, untilClose: bool)
    requires behind <= |rest|
    ensures ContentOf(fields, rest, behind, badLength, untilClose) == Fails(Thrown)
            <==> badLength == Thrown && UnreadableLength(fields)
  {
    var x, length := ContentOf(fields, rest, behind, badLength, untilClose), FindField(fields, "Content-Length");
    if length.None? && FindField(fields, "Transfer-Encoding") == Some("chunked") {
      ChunksNeverThrow(rest, "");
      assert x == DecodeChunks(rest, "");
    } else if length.Some? {
      var n := StoUL(length.value, 10);
      assert x.Fails? ==> x == Fails(if n.None? then badLength else EndOfStream);
      assert n.None? ==> x == Fails(badLength);
    } else {
      assert x.Plainly?;
    }
  }

  /** A content whose reading is undefined: it is read chunk by chunk, and has an empty size line. */
  predicate UndefinedContent(header: Parsed)
    requires header.Parsed?
  {
    FindField(header.fields, "Content-Length").None?
    && FindField(header.fields, "Transfer-Encoding") == Some("chunked") && EmptySizeLine(header.rest)
  }

  lemma ContentUndefinedIff(fields: seq<Field>, rest: string, behind: nat, badLength: Error, untilClose: bool,
                            good: bool)
    requires behind <= |rest| && badLength != Undefined
    ensures ContentOf(fields, rest, behind, badLength, untilClose) == Fails(Undefined)
            <==> UndefinedContent(Parsed(fields, rest, good))
  {
    var x, length := ContentOf(fields, rest, behind, badLength, untilClose), FindField(fields, "Content-Length");
    if length.None? && FindField(fields, "Transfer-Encoding") == Some("chunked") {
      UndefinedIff(rest, "");
      assert x == DecodeChunks(rest, "");
    } else if length.Some? {
      var n := StoUL(length.value, 10);
      assert x.Fails? ==> x == Fails(if n.None? then badLength else EndOfStream);
    } else {
      assert x.Plainly?;
    }
  }

  /** An exception leaves the client's handlers exactly for those streams: a head that is complete,
      with a status line that parses and a Content-Length that does not. */
  lemma ClientThrowsIff(all: string)
    ensures (Failed(Thrown) in Allowed(ResponseOf(all)))
            <==> HeadEnd(all).Some? && ParseStatusLine(LineOf(all)).Some?
                 && HeaderOf(all).Parsed? && UnreadableLength(HeaderOf(all).fields)
  {
    FailsIff(ResponseOf(all), Thrown);
    ResponseCases(all);
    if HeadEnd(all).Some? {
      var header, status := HeaderOf(all), ParseStatusLine(LineOf(all));
      if status.Some? {
        ContentThrowsIff(header.fields, header.rest, |all| - (HeadEnd(all).value + 4), Thrown,
                         UntilClose(status.value.0, header.fields));
      }
    }
  }

  /** What the client does is undefined exactly for those: a head that is complete, with a status
      line that parses and a content as above. */
  lemma ClientUndefinedIff(all: string)
    ensures (Failed(Undefined) in Allowed(ResponseOf(all)))
            <==> HeadEnd(all).Some? && ParseStatusLine(LineOf(all)).Some?
                 && HeaderOf(all).Parsed? && UndefinedContent(HeaderOf(all))
  {
    FailsIff(ResponseOf(all), Undefined);
    ResponseCases(all);
    if HeadEnd(all).Some? {
      var header, status := HeaderOf(all), ParseStatusLine(LineOf(all));
      if status.Some? {
        ContentUndefinedIff(header.fields, header.rest, |all| - (HeadEnd(all).value + 4), Thrown,
                            UntilClose(status.value.0, header.fields), header.good);
      }
    }
  }

  lemma ResponseCases(all: string)
    ensures HeadEnd(all).None? ==> ResponseOf(all) == Fails(EndOfStream)
    ensures HeadEnd(all).Some? ==>
      var behind := |all| - (HeadEnd(all).value + 4);
      && HeaderOf(all).Parsed? && |HeaderOf(all).rest| >= behind
      && ResponseOf(all) == BehindStatusLine(ParseStatusLine(LineOf(all)), HeaderOf(all), behind)
  {
    if HeadEnd(all).Some? {
      BlankLineEndsHeader(all);
    }
  }

  lemma RequestCases(all: string)
    ensures HeadEnd(all).None? ==> RequestOf(all) == Fails(EndOfStream)
    ensures HeadEnd(all).Some? ==>
      var behind := |all| - (HeadEnd(all).value + 4);
      && HeaderOf(all).Parsed? && |HeaderOf(all).rest| >= behind
      && RequestOf(all) == BehindRequestLine(ParseRequestLine(LineOf(all)), HeaderOf(all), behind)
  {
    if HeadEnd(all).Some? {
      BlankLineEndsHeader(all);
    }
  }

  /** No exception leaves the server's. */
  lemma ServerNeverThrows(all: string)
    ensures Failed(Thrown) !in Allowed(RequestOf(all))
  {
    FailsIff(RequestOf(all), Thrown);
    RequestCases(all);
    if HeadEnd(all).Some? && ParseRequestLine(LineOf(all)).Some? {
      var header := HeaderOf(all);
      ContentThrowsIff(header.fields, header.rest, |all| - (HeadEnd(all).value + 4), Protocol, false);
    }
  }

  /** But what it does is undefined as well, exactly for those requests. */
  lemma ServerUndefinedIff(all: string)
    ensures (Failed(Undefined) in Allowed(RequestOf(all)))
            <==> HeadEnd(all).Some? && ParseRequestLine(LineOf(all)).Some?
                 && HeaderOf(all).Parsed? && UndefinedContent(HeaderOf(all))
  {
    FailsIff(RequestOf(all), Undefined);
    RequestCases(all);
    if HeadEnd(all).Some? && ParseRequestLine(LineOf(all)).Some? {
      var header := HeaderOf(all);
      ContentUndefinedIff(header.fields, header.rest, |all| - (HeadEnd(all).value + 4), Protocol, false, header.good);
    }
  }

  /** What the caller gets besides the outcome. */
  datatype Response = Response(outcome: Outcome, head: ResponseHead)
  datatype Request = Request(outcome: Outcome, head: RequestHead)

  /** The client's `read`. For every fragmentation the outcome is what the bytes of the stream
      mean, as long as they fit the buffer, and a delivered response carries their head. */
  method ClientRead(inbox: Inbox) returns (response: Response)
    requires inbox.Valid()
    modifies inbox
    ensures response.outcome in AllowedWithin(ResponseOf(old(inbox.All())), inbox.maxSize)
    ensures old(|inbox.All()|) < inbox.maxSize ==> response.outcome in Allowed(ResponseOf(old(inbox.All())))
    ensures response.outcome.Delivered? ==>
      var all := old(inbox.All());
      && ParseStatusLine(LineOf(all)) == Some((response.head.version, response.head.statusCode))
      && HeaderOf(all).Parsed? && HeaderOf(all).fields == response.head.header
  {
    response := Response(Failed(Protocol), ResponseHead("", "", []));
    var error, numAdditionalBytes := ReceiveHead(inbox);
    if error.Some? {
      return response.(outcome := Failed(error.value));
    }
    ghost var buffered, coming := inbox.streambuf, inbox.Coming();
    var ok, head := ParseResponseHead(inbox);
    HeadInPrefix(buffered, coming, numAdditionalBytes);
    if !ok {
      BadResponse(buffered, coming, numAdditionalBytes);
      return;
    }
    ghost var rest, behind := inbox.All(), numAdditionalBytes + |coming|;
    var outcome := ReadContent(inbox, head.header, numAdditionalBytes, Thrown,
                               UntilClose(head.version, head.header), rest, behind);
    response := Response(outcome, head);
    ResponseVerdict(buffered, coming, behind, head, rest);
  }

  /** The parser run on the stream buffer. */
  method ParseResponseHead(inbox: Inbox) returns (ok: bool, head: ResponseHead)
    requires inbox.Valid() && HeaderOf(inbox.streambuf).Parsed?
    modifies inbox
    ensures inbox.Valid() && inbox.Coming() == old(inbox.Coming())
    ensures ok <==> ParseStatusLine(LineOf(old(inbox.streambuf))).Some?
    ensures ok ==>
      && Some((head.version, head.statusCode)) == ParseStatusLine(LineOf(old(inbox.streambuf)))
      && head.header == HeaderOf(old(inbox.streambuf)).fields
      && inbox.streambuf == HeaderOf(old(inbox.streambuf)).rest
  {
    RestIsShorter(inbox.streambuf);
    var stream := new IStream(inbox.streambuf);
    ok, head := ParseResponse(stream, ResponseHead("", "", []));
    inbox.streambuf := stream.rest;
  }

  lemma {:induction false} RestOfFieldsIsShorter(text: string)
    ensures ParseFields(text).Parsed? ==> |ParseFields(text).rest| <= |text|
    decreases |text|
  {
    if Has(text, '\n') && Has(LineOf(text), ':') {
      RestOfFieldsIsShorter(RestOf(text));
    }
  }

  lemma RestIsShorter(text: string)
    ensures |RestOf(text)| <= |text|
    ensures HeaderOf(text).Parsed? ==> |HeaderOf(text).rest| <= |text|
  {
    RestOfFieldsIsShorter(RestOf(text));
  }

  /** The server's `read`, likewise. */
  method ServerRead(inbox: Inbox, before: RequestHead) returns (request: Request)
    requires inbox.Valid()
    modifies inbox
    ensures request.outcome in AllowedWithin(RequestOf(old(inbox.All())), inbox.maxSize)
    ensures old(|inbox.All()|) < inbox.maxSize ==> request.outcome in Allowed(RequestOf(old(inbox.All())))
    ensures request.outcome.Delivered? ==>
      var all := old(inbox.All());
      && ParseRequestLine(LineOf(all)).Some? && HeaderOf(all).Parsed?
      && request.head == HeadOf(ParseRequestLine(LineOf(all)).value, before, HeaderOf(all).fields)
  {
    request := Request(Failed(Protocol), before);
    var error, numAdditionalBytes := ReceiveHead(inbox);
    if error.Some? {
      return request.(outcome := Failed(error.value));
    }
    ghost var buffered, coming := inbox.streambuf, inbox.Coming();
    var ok, head := ParseRequestHead(inbox, before);
    HeadInPrefix(buffered, coming, numAdditionalBytes);
    if !ok {
      BadRequest(buffered, coming, numAdditionalBytes);
      return;
    }
    ghost var rest, behind := inbox.All(), numAdditionalBytes + |coming|;
    var outcome := ReadContent(inbox, head.header, numAdditionalBytes, Protocol, false, rest, behind);
    request := Request(outcome, head);
    RequestVerdict(buffered, coming, behind, head.header, rest);
  }

  function HeadOf(line: RequestLine, before: RequestHead, header: seq<Field>): (head: RequestHead) {
    RequestHead(line.requestMethod, line.path, if line.query.None? then before.query else line.query.value,
                line.version, header)
  }

  method ParseRequestHead(inbox: Inbox, before: RequestHead) returns (ok: bool, head: RequestHead)
    requires inbox.Valid() && HeaderOf(inbox.streambuf).Parsed?
    modifies inbox
    ensures inbox.Valid() && inbox.Coming() == old(inbox.Coming())
    ensures ok <==> ParseRequestLine(LineOf(old(inbox.streambuf))).Some?
    ensures ok ==>
      && head == HeadOf(ParseRequestLine(LineOf(old(inbox.streambuf))).value, before,
                        HeaderOf(old(inbox.streambuf)).fields)
      && inbox.streambuf == HeaderOf(old(inbox.streambuf)).rest
  {
    RestIsShorter(inbox.streambuf);
    var stream := new IStream(inbox.streambuf);
    ok, head := ParseRequest(stream, before);
    inbox.streambuf := stream.rest;
  }
}
