/** The content of a message: Content-Length framing (section 3.3.2 of RFC 7230) and the chunked
    transfer coding (section 4.1), as the client and the server read them off a stream buffer. */
module Framing {
  import opened Text
  import opened Numerals
  import opened Http
  import opened Wire

  const CRLF := "\r\n"
  const BLANK_LINE := "\r\n\r\n"

  /** Where the first CRLF is. */
  function LineEnd(text: string): (end: Option<nat>)
    ensures end.Some? ==> MatchesAt(text, CRLF, end.value)
  {
    FindText(text, CRLF)
  }

  /** The errors that a read can end with. `Thrown` is an uncaught exception, `Undefined` the
      removal of the last character of an empty line. */
  datatype Error = EndOfStream | MessageSize | Protocol | Thrown | Undefined

  /** How a read ends for the caller: with an error or with a content. */
  datatype Outcome = Failed(error: Error) | Delivered(content: string)

  /** What the bytes of a stream say must come of reading them. How many of the bytes `beyond` the
      message are buffered already depends on the fragmentation; they end up behind a plain
      content and before a decoded one. */
  datatype Expectation =
    | Fails(error: Error)
    | Plainly(content: string, beyond: string)
    | Decoded(content: string, beyond: string)

  ghost predicate Meets(x: Expectation, outcome: Outcome) {
    match x
    case Fails(error) => outcome == Failed(error)
    case Plainly(content, beyond) =>
      exists k :: 0 <= k <= |beyond| && outcome == Delivered(content + beyond[..k])
    case Decoded(content, beyond) =>
      exists k :: 0 <= k <= |beyond| && outcome == Delivered(beyond[..k] + content)
  }

  /** The outcomes that meet an expectation. */
  ghost function Allowed(x: Expectation): (outcomes: iset<Outcome>) {
    iset outcome | Meets(x, outcome)
  }

  /** The outcomes with a buffer of `max` bytes, however long the stream: the same ones; or the
      error that the buffer is full; or, where decoded chunks go behind bytes that are buffered
      already, as much of both as the buffer holds. */
  ghost function AllowedWithin(x: Expectation, max: nat): (outcomes: iset<Outcome>) {
    iset outcome | outcome in Allowed(x) || outcome == Failed(MessageSize)
                   || (x.Decoded? && exists k :: 0 <= k <= |x.beyond| && |x.beyond[..k] + x.content| > max
                                                 && outcome == Delivered((x.beyond[..k] + x.content)[..max]))
  }

  lemma FailsIff(x: Expectation, error: Error)
    ensures Failed(error) in Allowed(x) <==> x == Fails(error)
  {
  }

  lemma SizeWithin(x: Expectation, max: nat)
    ensures Failed(MessageSize) in AllowedWithin(x, max)
  {
  }

  lemma FailsWithin(error: Error, max: nat)
    ensures Failed(error) in Allowed(Fails(error)) && Failed(error) in AllowedWithin(Fails(error), max)
  {
  }

  lemma Within(x: Expectation, max: nat)
    ensures Failed(MessageSize) in AllowedWithin(x, max)
    ensures forall outcome :: outcome in Allowed(x) ==> outcome in AllowedWithin(x, max)
    ensures x.Fails? ==> Failed(x.error) in Allowed(x)
  {
  }

  /** With nothing beyond the message the outcome is determined. */
  lemma MeetsExactly(x: Expectation, outcome: Outcome)
    requires outcome in Allowed(x) && (x.Fails? || x.beyond == "")
    ensures outcome == if x.Fails? then Failed(x.error) else Delivered(x.content)
  {
    if !x.Fails? {
      assert x.content + "" == x.content && "" + x.content == x.content;
    }
  }

  /** The chunk header that a text starts with: the size it announces, and how many bytes of the
      delimiter search lie behind its line (more than none only after a bare newline). */
  datatype ChunkHeader = Bad(error: Error) | Header(size: nat, gap: nat)

  function ReadChunkHeader(text: string): (h: ChunkHeader)
    ensures h.Header? ==> Has(text, '\n')
  {
    NewlineInCrlf(text);
    var end := LineEnd(text);
    if end.None? then Bad(EndOfStream) else HeaderOfLine(LineOf(text), end.value + 2 - (|LineOf(text)| + 1))
  }

  /** The header in a line, `gap` bytes before the end of the delimiter. */
  function HeaderOfLine(line: string, gap: nat): (h: ChunkHeader) {
    if line == "" then Bad(Undefined)
    else
      var size := StoUL(line[..|line| - 1], 16);
      if size.None? then Bad(Protocol) else Header(size.value, gap)
  }

  /** The meaning of a chunked body behind the decoded part `done`. */
  function DecodeChunks(text: string, done: string): (x: Expectation)
    decreases |text|
  {
    match ReadChunkHeader(text)
    case Bad(error) => Fails(error)
    case Header(size, gap) =>
      var rest := RestOf(text);
      if gap + 2 + size > |rest| then Fails(EndOfStream)
      else if size == 0 then Decoded(done, rest[2..])
      else DecodeChunks(rest[size + 2..], done + rest[..size])
  }

  /** Behind complete chunks with data comes an empty line, and a CRLF somewhere behind that. */
  predicate EmptySizeLine(text: string)
    decreases |text|
  {
    LineEnd(text).Some? &&
    match ReadChunkHeader(text)
    case Bad(_) => text[0] == '\n'
    case Header(size, gap) =>
      size > 0 && gap + 2 + size <= |RestOf(text)| && EmptySizeLine(RestOf(text)[size + 2..])
  }

  lemma EmptyLineIs(text: string)
    requires LineEnd(text).Some?
    ensures ReadChunkHeader(text) == Bad(Undefined) <==> text[0] == '\n'
    ensures ReadChunkHeader(text).Bad? ==> ReadChunkHeader(text).error != EndOfStream
  {
    NewlineInCrlf(text);
    LineJoin(text);
  }

  /** The handler removes the last character of an empty line, which is undefined, exactly for those
      bodies. */
  lemma {:induction false} UndefinedIff(text: string, done: string)
    ensures DecodeChunks(text, done) == Fails(Undefined) <==> EmptySizeLine(text)
    decreases |text|
  {
    if LineEnd(text).Some? {
      EmptyLineIs(text);
      match ReadChunkHeader(text)
      case Bad(_) =>
      case Header(size, gap) =>
        var rest := RestOf(text);
        if size > 0 && gap + 2 + size <= |rest| {
          UndefinedIff(rest[size + 2..], done + rest[..size]);
        }
    }
  }

  /** The shortest such body. */
  lemma EmptySizeLineExists()
    ensures EmptySizeLine("\n\r\n")
  {
    var text := "\n\r\n";
    assert MatchesAt(text, CRLF, 1);
    EmptyLineIs(text);
  }

  /** A text that holds a CRLF holds a newline, at or before the end of it. */
  lemma NewlineInCrlf(text: string)
    ensures LineEnd(text).Some? ==> Has(text, '\n') && |LineOf(text)| <= LineEnd(text).value + 1
  {
    var end := LineEnd(text);
    if end.Some? {
      assert text[end.value + 1] == CRLF[1];
    }
  }

  /** Cutting a line off the buffer cuts it off the stream. */
  lemma LineOfPrefix(buffered: string, coming: string)
    requires Has(buffered, '\n')
    ensures Has(buffered + coming, '\n')
    ensures LineOf(buffered + coming) == LineOf(buffered)
    ensures RestOf(buffered + coming) == RestOf(buffered) + coming
  {
    var end := Find(buffered, '\n').value;
    var all := buffered + coming;
    FindIs(all, '\n', 0, end);
    assert all[..end] == buffered[..end];
    assert all[end + 1..] == buffered[end + 1..] + coming;
  }

  /** A chunk header that is buffered is that of the stream. */
  lemma HeaderInBuffer(buffered: string, coming: string)
    requires LineEnd(buffered).Some?
    ensures Has(buffered, '\n') && |LineOf(buffered)| <= LineEnd(buffered).value + 1
    ensures ReadChunkHeader(buffered + coming)
            == HeaderOfLine(LineOf(buffered), LineEnd(buffered).value + 2 - (|LineOf(buffered)| + 1))
    ensures RestOf(buffered + coming) == RestOf(buffered) + coming
  {
    FoundInPrefix(buffered, coming, CRLF);
    NewlineInCrlf(buffered);
    LineOfPrefix(buffered, coming);
  }

  /** The handler of the search for the end of a chunk header, up to the exact read of what is
      missing of the chunk. `searched` is what the search leaves in the buffer behind the size line:
      nothing is read if the line was buffered already, and then no byte beyond the chunk. */
  method ReadChunkFrame(inbox: Inbox) returns (error: Option<Error>, size: nat, ghost searched: string)
    requires inbox.Valid()
    modifies inbox
    ensures inbox.Valid()
    ensures error.None? ==>
      && ReadChunkHeader(old(inbox.All())).Header? && ReadChunkHeader(old(inbox.All())).size == size
      && inbox.All() == RestOf(old(inbox.All())) && |inbox.All()| < old(|inbox.All()|)
      && ReadChunkHeader(old(inbox.All())).gap + 2 + size <= |inbox.streambuf|
    ensures error.None? ==>
      var chunk := ReadChunkHeader(old(inbox.All())).gap + 2 + size;
      && searched <= inbox.streambuf && |inbox.streambuf| == (if |searched| < chunk then chunk else |searched|)
      && (LineEnd(old(inbox.streambuf)).Some? ==> searched == RestOf(old(inbox.streambuf)))
    ensures error.Some? && error.value != MessageSize ==>
      match ReadChunkHeader(old(inbox.All()))
      case Bad(e) => error == Some(e)
      case Header(s, gap) => error == Some(EndOfStream) && gap + 2 + s > |RestOf(old(inbox.All()))|
    ensures error == Some(MessageSize) ==> old(|inbox.All()|) >= inbox.maxSize
  {
    var line, behind;
    error, line, behind := ReadSizeLine(inbox);
    size, searched := 0, inbox.streambuf;
    if error.Some? {
      return;
    }
    if line == "" {
      return Some(Undefined), 0, searched;
    }
    var length := StoUL(line[..|line| - 1], 16);
    if length.None? {
      return Some(Protocol), 0, searched;
    }
    size := length.value;
    error := ReadMissing(inbox, |inbox.streambuf| - behind, size);
  }

  /** The search, which takes the size line off the buffer; `behind` is how far the search went beyond
      it. */
  method ReadSizeLine(inbox: Inbox) returns (error: Option<Error>, line: string, behind: nat)
    requires inbox.Valid()
    modifies inbox
    ensures inbox.Valid()
    ensures error.None? ==>
      && ReadChunkHeader(old(inbox.All())) == HeaderOfLine(line, behind)
      && inbox.All() == RestOf(old(inbox.All())) && |inbox.All()| < old(|inbox.All()|)
      && behind <= |inbox.streambuf|
      && (LineEnd(old(inbox.streambuf)).Some? ==> inbox.streambuf == RestOf(old(inbox.streambuf)))
    ensures error.Some? ==> error.value == MessageSize || error.value == EndOfStream
    ensures error == Some(MessageSize) ==> old(|inbox.All()|) >= inbox.maxSize
    ensures error == Some(EndOfStream) ==> ReadChunkHeader(old(inbox.All())) == Bad(EndOfStream)
  {
    var end, bytesTransferred := inbox.ReadUntil(CRLF);
    if !end.EndOfFile? && |inbox.streambuf| == inbox.maxSize {
      return Some(MessageSize), "", 0;
    }
    ghost var buffered, coming := inbox.streambuf, inbox.Coming();
    if end.EndOfFile? {
      assert inbox.All() == buffered;
      return Some(EndOfStream), "", 0;
    }
    HeaderInBuffer(buffered, coming);
    line := LineOf(inbox.streambuf);
    inbox.streambuf := RestOf(inbox.streambuf);
    return None, line, bytesTransferred - (|line| + 1);
  }

  /** The exact read of what is missing of a chunk and its CRLF. */
  method ReadMissing(inbox: Inbox, numAdditionalBytes: nat, size: nat) returns (error: Option<Error>)
    requires inbox.Valid() && numAdditionalBytes <= |inbox.streambuf|
    modifies inbox
    ensures inbox.Valid() && inbox.All() == old(inbox.All()) && old(inbox.streambuf) <= inbox.streambuf
    ensures var chunk := old(|inbox.streambuf|) - numAdditionalBytes + 2 + size;
            && (error.None? ==>
                  |inbox.streambuf| == if old(|inbox.streambuf|) < chunk then chunk else old(|inbox.streambuf|))
            && (error.Some? ==> |inbox.streambuf| <= chunk)
            && (error == Some(EndOfStream) ==> |inbox.All()| < chunk)
    ensures error.None? || error == Some(EndOfStream) || (error == Some(MessageSize) && |inbox.All()| >= inbox.maxSize)
  {
    if 2 + size > numAdditionalBytes {
      var end := inbox.ReadExactly(2 + size - numAdditionalBytes);
      if end.EndOfFile? {
        return Some(EndOfStream);
      }
      if |inbox.streambuf| == inbox.maxSize {
        return Some(MessageSize);
      }
    }
    return None;
  }

  /** As much of a text as a buffer of `max` bytes holds. */
  function Cut(text: string, max: nat): (r: string) { if |text| <= max then text else text[..max] }

  /** The data of a chunk and the CRLF behind it leave the buffer. The stream buffer of the decoded
      chunks takes no more than its maximum, and is found full if they reach it. */
  method TakeChunk(inbox: Inbox, chunks: string, length: nat) returns (decoded: string, full: bool)
    requires inbox.Valid() && length + 2 <= |inbox.streambuf| && |chunks| <= inbox.maxSize
    modifies inbox
    ensures inbox.Valid()
    ensures decoded == Cut(chunks + old(inbox.All())[..length], inbox.maxSize)
    ensures full <==> length > 0 && |chunks| + length >= inbox.maxSize
    ensures !full ==> decoded == chunks + old(inbox.All())[..length]
    ensures !full ==> inbox.All() == old(inbox.All())[length + 2..]
  {
    ghost var all := inbox.All();
    decoded := chunks;
    if length > 0 {
      var room := inbox.maxSize - |chunks|;
      var data := inbox.streambuf[..length];
      decoded := decoded + if |data| <= room then data else data[..room];
      assert data == all[..length];
      inbox.streambuf := inbox.streambuf[length..];
      if |decoded| == inbox.maxSize {
        return decoded, true;
      }
    }
    inbox.streambuf := inbox.streambuf[2..];
    assert inbox.All() == all[length + 2..];
    full := false;
  }

  /** The decoded chunks go behind what the buffer holds already, as far as there is room. */
  method DeliverChunks(inbox: Inbox, decoded: string) returns (outcome: Outcome)
    requires inbox.Valid()
    modifies inbox
    ensures inbox.Valid()
    ensures outcome == Delivered(Cut(old(inbox.streambuf) + decoded, inbox.maxSize))
    ensures outcome in AllowedWithin(Decoded(decoded, old(inbox.All())), inbox.maxSize)
    ensures old(|inbox.All()|) + |decoded| < inbox.maxSize ==>
      outcome in Allowed(Decoded(decoded, old(inbox.All())))
  {
    ghost var k, all := |inbox.streambuf|, inbox.All();
    assert inbox.streambuf == all[..k];
    ghost var whole := inbox.streambuf + decoded;
    if |decoded| > 0 {
      var room := inbox.maxSize - |inbox.streambuf|;
      inbox.streambuf := inbox.streambuf + if |decoded| <= room then decoded else decoded[..room];
    }
    assert inbox.streambuf == Cut(whole, inbox.maxSize);
    outcome := Delivered(inbox.streambuf);
    assert whole == all[..k] + decoded;
  }

  /** The meaning of a chunked body, not to be unfolded. */
  function ChunkedMeaning(text: string, done: string): (x: Expectation) {
    DecodeChunks(text, done)
  }

  /** The meaning behind a chunk header: a zero chunk ends it, any other adds its data. */
  function BehindHeader(size: nat, rest: string, done: string): (x: Expectation)
    requires size + 2 <= |rest|
  {
    if size == 0 then Decoded(done, rest[2..]) else ChunkedMeaning(rest[size + 2..], done + rest[..size])
  }

  lemma DecodeStep(text: string, done: string)
    requires ReadChunkHeader(text).Header?
    requires var h := ReadChunkHeader(text); h.gap + 2 + h.size <= |RestOf(text)|
    ensures var size, rest := ReadChunkHeader(text).size, RestOf(text);
            && size + 2 <= |rest|
            && ChunkedMeaning(text, done)
               == if size == 0 then Decoded(done, rest[2..])
                  else ChunkedMeaning(rest[size + 2..], done + rest[..size])
  {
  }

  lemma StepBehind(text: string, done: string)
    requires ReadChunkHeader(text).Header?
    requires var h := ReadChunkHeader(text); h.gap + 2 + h.size <= |RestOf(text)|
    ensures ReadChunkHeader(text).size + 2 <= |RestOf(text)|
    ensures ChunkedMeaning(text, done) == BehindHeader(ReadChunkHeader(text).size, RestOf(text), done)
  {
    DecodeStep(text, done);
    var size, rest := ReadChunkHeader(text).size, RestOf(text);
    if size == 0 {
      NoneBehind(rest, done);
    } else {
      DataBehind(size, rest, done);
    }
  }

  lemma NoneBehind(rest: string, done: string)
    requires 2 <= |rest|
    ensures BehindHeader(0, rest, done) == Decoded(done, rest[2..])
  {
  }

  lemma DataBehind(size: nat, rest: string, done: string)
    requires 0 < size && size + 2 <= |rest|
    ensures BehindHeader(size, rest, done) == ChunkedMeaning(rest[size + 2..], done + rest[..size])
  {
  }

  lemma DecodeStops(text: string, done: string, error: Error)
    requires match ReadChunkHeader(text)
             case Bad(e) => error == e
             case Header(size, gap) => error == EndOfStream && gap + 2 + size > |RestOf(text)|
    ensures ChunkedMeaning(text, done) == Fails(error)
  {
  }

  /** `read_chunked_transfer_encoded` with `read_chunked_transfer_encoded_chunk`, which call each
      other chunk by chunk; `chunks` is the stream buffer of decoded chunks. For every
      fragmentation the outcome is what the bytes mean, as long as they fit the buffer. */
  method ReadChunked(inbox: Inbox, chunks: string, ghost x: Expectation) returns (outcome: Outcome)
    requires inbox.Valid() && |chunks| <= inbox.maxSize && x == ChunkedMeaning(inbox.All(), chunks)
    modifies inbox
    ensures inbox.Valid()
    ensures outcome in AllowedWithin(x, inbox.maxSize)
    ensures old(|inbox.All()|) + |chunks| < inbox.maxSize ==> outcome in Allowed(x)
    decreases |inbox.All()|
  {
    ghost var all := inbox.All();
    SizeWithin(x, inbox.maxSize);
    var error, length, searched := ReadChunkFrame(inbox);
    if error.Some? {
      if error.value != MessageSize {
        DecodeStops(all, chunks, error.value);
        FailsWithin(error.value, inbox.maxSize);
      }
      return Failed(error.value);
    }
    StepBehind(all, chunks);
    outcome := ReadChunk(inbox, chunks, length, x);
  }

  /** The second of the two: a chunk is buffered with its CRLF. */
  method ReadChunk(inbox: Inbox, chunks: string, length: nat, ghost x: Expectation) returns (outcome: Outcome)
    requires inbox.Valid() && |chunks| <= inbox.maxSize && length + 2 <= |inbox.streambuf|
    requires x == BehindHeader(length, inbox.All(), chunks)
    modifies inbox
    ensures inbox.Valid()
    ensures outcome in AllowedWithin(x, inbox.maxSize)
    ensures old(|inbox.All()|) + |chunks| < inbox.maxSize ==> outcome in Allowed(x)
    decreases |inbox.All()|
  {
    SizeWithin(x, inbox.maxSize);
    var decoded, full := TakeChunk(inbox, chunks, length);
    if full {
      return Failed(MessageSize);
    }
    if length > 0 {
      outcome := ReadChunked(inbox, decoded, x);
    } else {
      assert decoded == chunks;
      outcome := DeliverChunks(inbox, decoded);
    }
  }
}
