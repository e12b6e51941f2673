# A verified model of the sentry client's transport stack

This project models, in Dafny, the code that carries an event from the crash handler to the Sentry
server, and proves what that code is for. From the bottom up:

| files | model |
|---|---|
| `Text`, `Numerals` | `std::string` searching and slicing; printing and reading numbers |
| `Buffers`, `BufferCopy`, `BuffersIterator` | asio's buffer sequences: the `buffer_copy` overloads, on arrays, and the byte iterator |
| `StreamBuf`, `DynamicBuffer` | `basic_streambuf` and the dynamic string and vector buffers, and their equivalence |
| `Percent`, `QueryString` | percent coding (section 2.1 of RFC 3986, with '+' for a blank) and query strings |
| `Http`, `Messages`, `MessageRoundTrips` | lines, header fields, request and status lines (section 3 of RFC 7230): both printers, both parsers |
| `Wire`, `Framing`, `Exchange`, `EndToEnd`, `Versions`, `Reconnect` | a stream that arrives in arbitrary fragments; Content-Length and chunked framing (sections 3.3.2 and 4.1 of RFC 7230); the `read` of client and server; whole exchanges, responses of other versions of HTTP, and a second response behind what the first connection left |
| `ScopeRunner` | the lock-free counter that lets handlers run until it is stopped |
| `Findings`, `ConnectionPool` | the client's pool of connections and its sessions, with reconnect and stop |
| `Transport` | the queue of events, its producers and its one worker, with retry, back-off and drain |
| `FrameInfo` | the parser of the frame line that the backtrace handler prints |

Loops and objects that the program updates are methods and classes here, each proved against a
function on values; the main results are lemmas about these functions, and methods that put the
pieces together. The concurrent parts are transition systems: every atomic access, handler or
critical section is a step, a run is any sequence of possible steps, and the results hold for all
runs. A byte is a `char`, a multimap the sequence of its fields in the order of its iteration, and
whatever the network, the clock or the hash table decides is a parameter.

## Main results

- The copy loops and the byte iterator agree with the flat view of a buffer sequence, whatever
  empty buffers it holds; iterators that compare equal by position alone are at the same place.
- The stream buffer is a byte queue through compaction and growth, and no client of `prepare`,
  `commit` and `consume` that commits only what it has written can tell it from the dynamic buffers.
- Client and server read a message as its bytes mean, for every fragmentation, and what either
  prints the other reads back into an empty stream buffer, with the exact condition under which it
  does. A session that has reconnected does so if and only if its first connection left nothing.
- A stopped `ScopeRunner` has no live lock and grants none.
- Sessions never share a connection, the pool keeps one idle connection at most, and every session
  calls back once, unless the runner is stopped or an exception leaves its handler.
- The transport posts every event at most twice, in order, never within ten seconds after a
  failure, and drains after `stop`, in bounded time unless a response 429 intervenes.

## Where the code does not do what one might expect

Each of these is a lemma or a method with the exact condition or a concrete case.

- `Percent::encode` leaves '%' alone. A value survives exactly if each of its '%' is the last
  character or is followed by a single character that is not encoded (`Percent.DecodeUndoesEncode`).
- `HttpHeader::parse` does not look at the state of its stream. It runs forever on a text whose
  every line holds a ':' (`Http.TerminatesIff`); the blank line that both callers wait for excludes
  this (`Exchange.BlankLineEndsHeader`).
- `FrameInfo` throws on the line that is printed for an address without a symbol
  (`FrameInfo.UnresolvedThrows`), and a path with a ':' or a blank is cut (`FrameInfo.RoundTrip`).
- `reserve` moves the bytes before it throws and does not move the pointers. The input sequence is
  kept exactly if it repeats with the period of the gap (`StreamBuf.FailureKeeps`). `overflow` is
  not affected, because a full buffer has no gap.
- A session that reconnects reads the second response into the stream buffer of the first, which
  nothing clears. Unless the first connection broke before it delivered a byte, the caller never
  gets status, fields and content of the second (`Reconnect.AfterReconnect`,
  `ConnectionPool.ResponseGrows`).
- The chunk handlers of both sides call `pop_back` on the size line without a look at it, which is
  undefined for an empty one. The messages that bring this about are known exactly
  (`Exchange.ClientUndefinedIff`, `Exchange.ServerUndefinedIff`, `EndToEnd.UndefinedRequest`).
- Room that was prepared and not written may be committed. The stream buffer then shows bytes that
  were consumed before, a dynamic buffer zeros (`DynamicBuffer.UnwrittenDiffers`).
- Counts of 2^31 and more are narrowed by `commit` and `consume`
  (`StreamBuf.Narrowed`, `StreamBuf.StreamBuf.Commit`, `StreamBuf.StreamBuf.Consume`).
- A `commit` beyond what was prepared differs between the two kinds of buffer exactly if the stream
  buffer has more room than that (`DynamicBuffer.CommitBeyondPrepared`).
- The server compares "chunked" without regard to case and the client with regard to it, and the
  client looks for a field "Session: close" where the server says "Connection"; so there are
  responses without a length that the client does not wait for (`EndToEnd.ResponseFraming` with
  the exact condition, `EndToEnd.UnframedResponses`).
- The client does not catch the exception of a Content-Length that is no number. It is thrown
  exactly for a complete head with a status line that parses and such a field
  (`Exchange.ClientThrowsIff`); the session never calls back and its connection stays in use
  (`ConnectionPool.AbandonedForever`). The server catches it (`Exchange.ServerNeverThrows`). In the
  transport it ends the worker (`Transport.BackOff`).
- Decoded chunks go behind bytes that are buffered already, and are cut without an error where the
  two exceed the maximum size (`Framing.DeliverChunks`).
- A length or chunk size may have a sign; "-1" is read as 2^64 - 1 (`Numerals.MinusSign`).
- A header line loses its last character whether or not it is a carriage return (`Http.LineGives`), and
  so do the request line and the status line.
- A query splits at the last '=' of a piece, so names may hold '=' and still come back
  (`QueryString.RoundTrip`).
- An event accepted before `stop` may be pushed after the worker has exited. Every accepted event
  is requested exactly if the worker exits with no producer between its check and its push
  (`Transport.AllRequestedIff`; `Transport.LateEvent` is such a run).
- After a response 429 nothing is ever sent again, and `stop` does not return while the queue holds
  anything (`Transport.DroppingNeverDrains`). A "Retry-After" that is no number ends the thread
  with an exception (`Transport.RetryAfterIs`).

## Model

| member | source | states |
|---|---|---|
| `Buffers.BufferCopy1` | externals/asio-1.12.2/include/asio/buffer.hpp:1880-1890 | copies as many bytes as fit, to the front of the target only, and touches nothing else in its memory |
| `Buffers.Buffer.Advance` | externals/asio-1.12.2/include/asio/buffer.hpp:138-144 | the rest of the same buffer: it ends at the same place and is shorter by n, or empty |
| `Buffers.Buffer.Limit` | externals/asio-1.12.2/include/asio/buffer.hpp:871-882 | a view of the same memory from the same start, of the lesser of the two sizes |
| `Buffers.BytesOfViews` | externals/asio-1.12.2/include/asio/buffer.hpp:138-144 | what the two views show: the bytes of the buffer behind the first n, and the first `max` |
| `Buffers.BufferSize` | externals/asio-1.12.2/include/asio/buffer.hpp:508-522 | the loop adds up to the length of the flat view |
| `Buffers.FlatLength` | externals/asio-1.12.2/include/asio/buffer.hpp:544-549 | the total size of a buffer sequence is the length of all its bytes end to end |
| `BufferCopy.CopyChunk` | externals/asio-1.12.2/include/asio/buffer.hpp:1977-1978 | one copy between stretches of two buffers moves exactly that stretch between the two flat views, at the places of the two iterators, and keeps the sources and all other memory |
| `BufferCopy.CopyRound` | externals/asio-1.12.2/include/asio/buffer.hpp:1971-1994 | one round of a many-to-many loop keeps the agreement of the two (iterator, offset) pairs with the count of bytes copied, and extends the copied part of the flat view |
| `BufferCopy.NextWalked` | externals/asio-1.12.2/include/asio/buffer.hpp:1980-1994 | whichever of the two buffers a round uses up, both pairs still denote the new count in their concatenations |
| `BufferCopy.ManyToMany` | externals/asio-1.12.2/include/asio/buffer.hpp:1956-1998 | terminates for all lists of non-overlapping buffers, empty ones included; copies min(total target, total source) bytes; the flat target is the source's prefix followed by its own old bytes; sources and other memory are kept |
| `BufferCopy.ManyToManyLimited` | externals/asio-1.12.2/include/asio/buffer.hpp:2000-2046 | the same with a limit: the count is the least of the three |
| `BufferCopy.OneToMany` | externals/asio-1.12.2/include/asio/buffer.hpp:1910-1931 | gathering many buffers into one meets the same specification |
| `BufferCopy.ManyToOne` | externals/asio-1.12.2/include/asio/buffer.hpp:1933-1954 | scattering one buffer over many meets the same specification |
| `BufferCopy.OneToOne` | externals/asio-1.12.2/include/asio/buffer.hpp:1900-1908 | the overload for two single buffers meets the same specification |
| `BuffersIterators.OnlyPlace` | externals/asio-1.12.2/include/asio/buffers_iterator.hpp:341-345 | a position of the flat view has one place only: the (buffer, offset) that rests on a non-empty buffer or at the end |
| `BuffersIterators.BuffersIterator.Begin` | externals/asio-1.12.2/include/asio/buffers_iterator.hpp:167-184 | empty buffers at the front are skipped; the iterator is at position 0 of the flat view |
| `BuffersIterators.BuffersIterator.End` | externals/asio-1.12.2/include/asio/buffers_iterator.hpp:187-203 | the iterator is at the total number of bytes |
| `BuffersIterators.BuffersIterator.Dereference` | externals/asio-1.12.2/include/asio/buffers_iterator.hpp:341-345 | gives the byte of the flat view at the position |
| `BuffersIterators.BuffersIterator.Increment` | externals/asio-1.12.2/include/asio/buffers_iterator.hpp:354-374 | the position grows by one and (buffer, offset) follows it past any empty buffers |
| `BuffersIterators.BuffersIterator.Previous` | externals/asio-1.12.2/include/asio/buffers_iterator.hpp:391-402 | finds the last non-empty buffer before the current one |
| `BuffersIterators.BuffersIterator.Decrement` | externals/asio-1.12.2/include/asio/buffers_iterator.hpp:377-404 | the position shrinks by one and (buffer, offset) follows it back over any empty buffers |
| `BuffersIterators.BuffersIterator.Advance` | externals/asio-1.12.2/include/asio/buffers_iterator.hpp:407-485 | for any difference of either sign with a target in range, the position moves by it and (buffer, offset) denotes the new position |
| `BuffersIterators.BuffersIterator.Forward` | externals/asio-1.12.2/include/asio/buffers_iterator.hpp:409-444 | the positive half: terminates despite empty buffers anywhere |
| `BuffersIterators.BuffersIterator.Backward` | externals/asio-1.12.2/include/asio/buffers_iterator.hpp:445-484 | the negative half, likewise |
| `BuffersIterators.BuffersIterator.Index` | externals/asio-1.12.2/include/asio/buffers_iterator.hpp:218-223 | the byte at an offset from the position, leaving the iterator where it is |
| `BuffersIterators.BuffersIterator.Equal` | externals/asio-1.12.2/include/asio/buffers_iterator.hpp:348-351 | for iterators over the same buffers, equal positions mean equal places, so comparing positions alone is enough |
| `BuffersIterators.BuffersIterator.DistanceTo` | externals/asio-1.12.2/include/asio/buffers_iterator.hpp:488-491 | the distance is the difference of the flat positions: advancing by it gives the other iterator |
| `BuffersIterators.Steps` | externals/asio-1.12.2/include/asio/buffers_iterator.hpp:354-404 | taking single steps changes the position by their number |
| `BuffersIterators.AdvanceIsSteps` | externals/asio-1.12.2/include/asio/buffers_iterator.hpp:407-485 | advancing by a difference and taking as many single steps leave two iterators in the same state |
| `StreamBuf.StreamBuf.constructor` | externals/asio-1.12.2/include/asio/basic_streambuf.hpp:131-141 | starts as an empty queue with the pointers in order and the array of the right length |
| `StreamBuf.StreamBuf.Size` | externals/asio-1.12.2/include/asio/basic_streambuf.hpp:158-161 | the length of the queue, never above the maximum |
| `StreamBuf.StreamBuf.Data` | externals/asio-1.12.2/include/asio/basic_streambuf.hpp:193-197 | a view of exactly the queue |
| `StreamBuf.StreamBuf.Reserve` | externals/asio-1.12.2/include/asio/basic_streambuf.hpp:308-346 | throws exactly when the size and n exceed the maximum; otherwise the queue survives compaction and growth, the room behind it is what the state before says, and its memory is as it was; after a throw the pointers stay and the bytes under them are the smeared ones |
| `StreamBuf.StreamBuf.Prepare` | externals/asio-1.12.2/include/asio/basic_streambuf.hpp:214-219 | the area returned is the n bytes behind the queue, which is unchanged; it throws exactly when the maximum would be exceeded |
| `StreamBuf.StreamBuf.Commit` | externals/asio-1.12.2/include/asio/basic_streambuf.hpp:233-238 | for a count that fits an `int` once it is cut to the room, appends the first bytes of the room to the queue; for any other the put pointer goes where the narrowed count takes it, and stays in order exactly if that is not in front of the get pointer |
| `StreamBuf.StreamBuf.Consume` | externals/asio-1.12.2/include/asio/basic_streambuf.hpp:247-254 | for a count that fits an `int` once it is cut to the size, removes the first bytes of the queue; for any other likewise |
| `StreamBuf.Narrowed` | externals/asio-1.12.2/include/asio/basic_streambuf.hpp:236 | a count is narrowed to itself if and only if it fits |
| `StreamBuf.StreamBuf.Underflow` | externals/asio-1.12.2/include/asio/basic_streambuf.hpp:263-275 | shows the head of the queue, also bytes that were written but not yet readable, and is the end only of an empty queue |
| `StreamBuf.StreamBuf.Bump` | externals/asio-1.12.2/include/asio/basic_streambuf.hpp:263-275 | a character read takes the head of the queue |
| `StreamBuf.StreamBuf.Overflow` | externals/asio-1.12.2/include/asio/basic_streambuf.hpp:283-306 | a character is appended exactly when the size is below the maximum; a failure keeps the queue |
| `StreamBuf.StreamBuf.Put` | externals/asio-1.12.2/include/asio/basic_streambuf.hpp:283-306 | a character write appends to the queue, whether or not there is room in the put area |
| `StreamBuf.StreamBuf.ReadSizeHelper` | externals/asio-1.12.2/include/asio/basic_streambuf.hpp:353-359 | asks for all that the caller and the maximum size allow, or for at least 512 bytes that use up the capacity; it asks for more than 512 only within the capacity, and never for more than is allowed |
| `StreamBuf.StreamBuf.PrepareRead` | externals/asio-1.12.2/include/asio/basic_streambuf.hpp:353-359 | preparing the size that the helper gives never throws |
| `StreamBuf.SmearedIs` | externals/asio-1.12.2/include/asio/basic_streambuf.hpp:322-341 | moving the bytes down without the pointers leaves a view that is the tail of the queue followed by its last bytes once more |
| `StreamBuf.FailureKeeps` | externals/asio-1.12.2/include/asio/basic_streambuf.hpp:322-341 | a failed `reserve` keeps the queue if and only if it repeats with the period of the gap in front of it |
| `StreamBuf.FailureCanLose` | externals/asio-1.12.2/include/asio/basic_streambuf.hpp:322-341 | a run of writes, a read and a failed `prepare` after which a stream buffer shows other bytes than before |
| `DynamicBuffer.DynamicBuffer.Prepare` | externals/asio-1.12.2/include/asio/buffer.hpp:1592-1606 | throws exactly when size and n exceed the maximum; otherwise the area has exactly n bytes and the contents are kept |
| `DynamicBuffer.DynamicBuffer.Commit` | externals/asio-1.12.2/include/asio/buffer.hpp:1617-1621 | moves the first min(n, area) bytes of the area to the contents and drops the rest |
| `DynamicBuffer.DynamicBuffer.Consume` | externals/asio-1.12.2/include/asio/buffer.hpp:1630-1635 | removes the first min(n, size) bytes and keeps the prepared area |
| `DynamicBuffer.RunStreamBuf` | externals/asio-1.12.2/include/asio/basic_streambuf.hpp:214-306 | every run of prepare, writing into the room, commit, consume, character writes and reads, in any order in which only written room is committed, shows what a plain byte queue shows, step by step, up to the first length error; of any length, as long as each single count fits an `int` |
| `DynamicBuffer.RunDynamicBuffer` | externals/asio-1.12.2/include/asio/buffer.hpp:1592-1635 | every run of prepare, writing, commit and consume of that kind shows what the same plain queue shows |
| `DynamicBuffer.Indistinguishable` | externals/asio-1.12.2/include/asio/buffer.hpp:1592-1635 | for every such run from empty with the same maximum, stream buffer and dynamic buffer show the same data after every step and throw first at the same step; room may be prepared anew, written in pieces, left uncommitted or consumed in front of |
| `DynamicBuffer.SmallBufferFits` | externals/asio-1.12.2/include/asio/basic_streambuf.hpp:236-253 | with a maximum size that fits an `int` every count in every run does |
| `DynamicBuffer.UnwrittenDiffers` | externals/asio-1.12.2/include/asio/buffer.hpp:1592-1635 | a run that commits a byte of prepared room that it has not written: the stream buffer shows a byte that was consumed before, the dynamic buffer a zero |
| `DynamicBuffer.CommitBeyondPrepared` | externals/asio-1.12.2/include/asio/basic_streambuf.hpp:233-238 | preparing x and committing n leaves both kinds with the same size if and only if n is no more than x or, by the state before, preparing leaves the stream buffer no more room than x |
| `DynamicBuffer.CommitsDiffer` | externals/asio-1.12.2/include/asio/basic_streambuf.hpp:233-238 | on new buffers they differ |
| `Percent.EncodeLoop` | externals/http-server-3.0.0/utility.hpp:42-58 | the loop computes the encoding of the whole string |
| `Percent.DecodeLoop` | externals/http-server-3.0.0/utility.hpp:61-80 | the loop with its jumps over triples computes the decoding of the whole string |
| `Percent.EncodedAs` | externals/http-server-3.0.0/utility.hpp:46-56 | a blank is encoded as '+', each character of "!#$&'()*+,/:;=?@[]0123456789" as '%' and its two capital hexadecimal digits, and every other character, '%' included, as itself |
| `Percent.EncodeAppend` | externals/http-server-3.0.0/utility.hpp:42-58 | one more character adds its own code, whatever is in front of it |
| `Percent.DecodedAs` | externals/http-server-3.0.0/utility.hpp:72-76 | a '+' is decoded as a blank, and any other character that starts no triple as itself |
| `Percent.TripleDecodedAs` | externals/http-server-3.0.0/utility.hpp:66-71 | '%' and two hexadecimal digits of either case are decoded as the character of that number |
| `Percent.TripleDecodes` | externals/http-server-3.0.0/utility.hpp:51-52 | every triple that is printed decodes to its own character |
| `Percent.NeverPercent` | externals/http-server-3.0.0/utility.hpp:67-69 | two characters of which the first is no decimal digit, as after an unencoded '%', never decode to '%' |
| `Percent.DecodeUndoesEncode` | externals/http-server-3.0.0/utility.hpp:42-80 | decoding undoes encoding if and only if every '%' comes too late in the value to be taken for a triple; values without '%' are a special case |
| `Percent.LosesPercents` | externals/http-server-3.0.0/utility.hpp:42-80 | encoding and decoding never adds a '%', and loses one from every value that it does not give back |
| `QueryString.CreateLoop` | externals/http-server-3.0.0/utility.hpp:87-97 | the loop with its `first` flag joins the encoded fields with '&' |
| `QueryString.ParseLoop` | externals/http-server-3.0.0/utility.hpp:100-134 | on every input the one-pass parser equals the simple specification: split at '&', split each piece at its last '=', drop empty names, decode the values |
| `QueryString.EndPiece` | externals/http-server-3.0.0/utility.hpp:110-119 | what the parser emplaces at an '&' is what the piece before it means |
| `QueryString.EndQuery` | externals/http-server-3.0.0/utility.hpp:125-131 | what it emplaces at the end is what the last piece means |
| `QueryString.PieceGives` | externals/http-server-3.0.0/utility.hpp:110-131 | a piece gives its name and the decoded value behind its last '=', an empty value if there is no '=', and nothing if the name is empty |
| `QueryString.CreateReads` | externals/http-server-3.0.0/utility.hpp:91-94 | one more field adds its name, '=' and its encoded value, behind an '&' if it is not the first |
| `QueryString.FieldsOfCreate` | externals/http-server-3.0.0/utility.hpp:87-134 | the fields of a created query string are those it was created from, if all are usable |
| `QueryString.ParsedNamesAreUsable` | externals/http-server-3.0.0/utility.hpp:110-130 | a parsed name is never empty and never holds '&' |
| `QueryString.RoundTrip` | externals/http-server-3.0.0/utility.hpp:87-134 | parsing a created query string gives the multiset of fields back, in whatever order the multimaps iterate, if and only if every name is non-empty and free of '&' and every value survives percent coding; names may hold '=' |
| `FrameInfo.RoundTrip` | src/backtracehandler.h:38-68 | for any line number, address and function name, the frame parsed from the printed line has path, base name, line, name and the address in hexadecimal, if and only if the path holds neither ':' nor a blank |
| `FrameInfo.UnresolvedThrows` | src/backtracehandler.cpp:219 | the line printed for an address without a symbol makes the constructor throw, for every address |
| `FrameInfo.FirstSeparators` | src/backtracehandler.h:47-54 | in the printed line the first ':' ends the path and the first blank the line number |
| `FrameInfo.LastBlank` | src/backtracehandler.h:58-62 | in the printed line the last blank precedes the address, whatever blanks the name holds |
| `FrameInfo.MissingSeparators` | src/backtracehandler.h:46-64 | without a ':' the whole line is the path, and without a blank the whole line is the address |
| `Numerals.ReadBack` | src/backtracehandler.h:56-66 | a printed decimal or hexadecimal number is read back by `stoul`; with base 0 a printed decimal is taken for decimal |
| `Numerals.NoLeadingZero` | src/backtracehandler.h:56 | only zero is printed with a leading zero, so base detection never sees an octal |
| `Numerals.ValueOfPrint` | src/backtracehandler.h:65-67 | the digits printed denote the number |
| `Numerals.DigitsAre` | src/backtracehandler.h:63-68 | the sixteen digits that are printed, and the characters that are read as each of them |
| `Numerals.PlusSign` | externals/http-server-3.0.0/client_http.hpp:573-575 | a plus in front of a number is read over |
| `Numerals.MinusSign` | externals/http-server-3.0.0/client_http.hpp:573-575 | a minus takes the number from 2^64, so that "-1" is the largest of all sizes |
| `Numerals.HexPrefix` | externals/http-server-3.0.0/client_http.hpp:573-575 | "0x" in front of a hexadecimal number is read over |
| `Numerals.BlanksAreSkipped` | externals/http-server-3.0.0/client_http.hpp:481-483 | and any blank in front of any number |
| `Numerals.TooLarge` | externals/http-server-3.0.0/client_http.hpp:481-483 | every number of 2^64 and more is refused |
| `Numerals.NoDigit` | externals/http-server-3.0.0/client_http.hpp:573-580 | so is every text that starts with neither blank, sign nor digit |
| `Http.IStream.GetLine` | externals/http-server-3.0.0/utility.hpp:143 | takes the first line off the stream, and leaves the line as it was on a stream that is at its end |
| `Http.ParseHeader` | externals/http-server-3.0.0/utility.hpp:140-157 | the loop gives a field for each line up to the first line without ':' and leaves the stream behind that line |
| `Http.ForeverMeansForever` | externals/http-server-3.0.0/utility.hpp:145-155 | the parser's meaning is to run forever exactly when its loop guard holds after every number of rounds |
| `Http.TerminatesIff` | externals/http-server-3.0.0/utility.hpp:140-157 | the header parser terminates if and only if the text has a line without ':' |
| `Http.HeaderRoundTrip` | externals/http-server-3.0.0/utility.hpp:140-157 | printed header fields are parsed back, up to the content exactly, if and only if no name holds ':' or a newline and no value a newline |
| `Http.LineGives` | externals/http-server-3.0.0/utility.hpp:146-152 | a line gives its name and value with or without a blank behind the ':', less its last character whatever it is; a line that ends behind the ':' or the blank gives no field |
| `Http.MixedReadBack` | externals/http-server-3.0.0/utility.hpp:140-157 | fields printed with or without blanks, in any mix, are parsed up to the content exactly; only a value that starts with a blank and was printed without one loses that blank |
| `Http.MixedRoundTrip` | externals/http-server-3.0.0/utility.hpp:140-157 | so they are parsed back if and only if no name holds ':' or a newline, no value a newline, and no value that starts with a blank is printed without one |
| `Http.PrintFieldsIs` | externals/http-server-3.0.0/client_http.hpp:429-430 | a printed field is its name, a colon and a blank, its value and CRLF |
| `Http.LowerIs` | externals/http-server-3.0.0/utility.hpp:12-17 | two characters are equal up to case if and only if they are equal or the two cases of one letter |
| `Http.FindField` | externals/http-server-3.0.0/utility.hpp:36 | the lookup finds a value if and only if some field has that name up to case |
| `Http.FoundIsFirst` | externals/http-server-3.0.0/utility.hpp:36 | it is the value of the first of them in the order of the multimap |
| `Http.AnyOrder` | externals/http-server-3.0.0/utility.hpp:36 | for a name whose fields all have the same value the order of the multimap does not matter |
| `Messages.ScanTarget` | externals/http-server-3.0.0/utility.hpp:228-237 | the scan finds the first blank and splits at the last '?' that something follows |
| `Messages.TargetSplitsBack` | externals/http-server-3.0.0/utility.hpp:238-244 | path and query joined with '?' are the target again, also where the query is empty, as in "/a?" |
| `Messages.ParseRequest` | externals/http-server-3.0.0/utility.hpp:220-263 | the request parser computes the meaning of the request line and the header, with every early return, and leaves a missing query as it was |
| `Messages.ParseResponse` | externals/http-server-3.0.0/utility.hpp:269-289 | the same for the status line, with its positional version |
| `MessageRoundTrips.WriteHeader` | externals/http-server-3.0.0/server_http.hpp:68-83 | the loop prints all fields and adds a Content-Length exactly when no field frames the content and the connection stays open |
| `MessageRoundTrips.WriteResponse` | externals/http-server-3.0.0/server_http.hpp:116-121 | prints status line, header and content |
| `MessageRoundTrips.WriteRequest` | externals/http-server-3.0.0/client_http.hpp:254-264 | prints request line, Host, the fields, a length unless the fields frame the content, and the content |
| `MessageRoundTrips.WriteRequestFields` | externals/http-server-3.0.0/client_http.hpp:425-431 | the header part of it |
| `MessageRoundTrips.RequestRoundTrip` | externals/http-server-3.0.0/utility.hpp:220-263 | the server reads back method, target, version "1.1", all fields with Host, and is left exactly at the content, if and only if method and path hold no blank or newline, the host no newline, and the fields are well formed |
| `MessageRoundTrips.ResponseRoundTrip` | externals/http-server-3.0.0/utility.hpp:269-289 | the client reads back version, status and all fields with Content-Length, and is left exactly at the content, if and only if the status holds no newline and the fields are well formed |
| `MessageRoundTrips.TargetGives` | externals/http-server-3.0.0/utility.hpp:228-244 | a target parts at its last '?', and one without '?' has no query |
| `MessageRoundTrips.RequestLineGives` | externals/http-server-3.0.0/utility.hpp:225-256 | a request line of any version gives method, path, query and version, less its last character whatever it is, if and only if the protocol is "HTTP" |
| `MessageRoundTrips.RequestLineRefused` | externals/http-server-3.0.0/utility.hpp:238-262 | a line without two blanks, or without a '/' behind the second, is refused |
| `MessageRoundTrips.StatusLineGives` | externals/http-server-3.0.0/utility.hpp:273-283 | a status line gives any version and any status, less its last character; a protocol shorter than "HTTP/" makes the count of the version wrap, so that it reaches to the end of the line |
| `MessageRoundTrips.StatusLineRefused` | externals/http-server-3.0.0/utility.hpp:273-288 | a status line is refused if and only if it has no blank, at most five characters, or nothing behind its first blank |
| `MessageRoundTrips.RequestText` | externals/http-server-3.0.0/client_http.hpp:415-432 | the text of a request: "/" for an empty path, Host first, the length last and only if there is a content that no field frames |
| `Wire.FoundInPrefix` | externals/http-server-3.0.0/client_http.hpp:464 | a delimiter found in what is buffered is the first one of the whole stream |
| `Wire.Inbox.ReadUntil` | externals/http-server-3.0.0/client_http.hpp:464 | reads fragments as they come until the delimiter is buffered, the buffer is full or the stream ends; no byte is lost |
| `Wire.Inbox.ReadExactly` | externals/http-server-3.0.0/client_http.hpp:486 | asks for exactly the missing bytes, and fails at the end of the stream only if they are not there |
| `Wire.Inbox.ReadAll` | externals/http-server-3.0.0/client_http.hpp:510 | reads up to the end of the stream or a full buffer |
| `Framing.ReadChunkFrame` | externals/http-server-3.0.0/client_http.hpp:557-604 | the handler reads the size line and fails as the bytes of the stream say, wherever the fragments end; it searches only if the line is not buffered, and then holds the larger of what the search left and the chunk with its CRLF: no byte beyond the chunk is asked for |
| `Framing.ReadMissing` | externals/http-server-3.0.0/client_http.hpp:583-604 | the exact read ends at the CRLF of the chunk and never beyond it |
| `Framing.TakeChunk` | externals/http-server-3.0.0/client_http.hpp:608-622 | the chunk goes behind the decoded ones and its CRLF is removed; the buffer of decoded chunks holds no more than the maximum and is reported full exactly if they reach it |
| `Framing.DeliverChunks` | externals/http-server-3.0.0/client_http.hpp:626-633 | the decoded chunks go behind what is buffered, cut silently at the maximum size |
| `Framing.ReadChunked` | externals/http-server-3.0.0/client_http.hpp:555-634 | for every fragmentation of a stream below the maximum size the decoder ends with what the bytes mean: the content decoded, or the same error; for any longer stream with that, with an error of size, or with the content cut at the maximum |
| `Framing.ReadChunk` | externals/http-server-3.0.0/client_http.hpp:608-634 | its second half: a buffered chunk adds its data and the decoder goes on, a zero chunk ends it |
| `Framing.DecodeStep` | externals/http-server-3.0.0/client_http.hpp:608-634 | one chunk of the meaning: a zero chunk ends it, any other adds its data |
| `Framing.MeetsExactly` | externals/http-server-3.0.0/client_http.hpp:626-633 | with nothing beyond the message the outcome is determined by the bytes alone |
| `Framing.UndefinedIff` | externals/http-server-3.0.0/client_http.hpp:570-571 | the decoder removes the last character of an empty line, which is undefined, if and only if behind complete chunks with data comes an empty line with a CRLF somewhere behind it |
| `Framing.EmptySizeLineExists` | externals/http-server-3.0.0/client_http.hpp:570-571 | the shortest such body |
| `Exchange.EmptyLineStops` | externals/http-server-3.0.0/utility.hpp:140-157 | an empty line stops the header parser at the latest |
| `Exchange.BlankLineEndsHeader` | externals/http-server-3.0.0/client_http.hpp:464-476 | a buffered blank line guarantees that the header parser terminates within the buffer |
| `Exchange.HeaderInPrefix` | externals/http-server-3.0.0/client_http.hpp:464-476 | parsing the buffered part of the stream and parsing the whole stream give the same head |
| `Exchange.ReceiveHead` | externals/http-server-3.0.0/client_http.hpp:464-474 | waits for the blank line and counts the bytes behind it |
| `Exchange.ReadContent` | externals/http-server-3.0.0/client_http.hpp:481-529 | length, chunks, end of stream or nothing: for every fragmentation the content delivered is what the framing of the whole stream says; of a content with a length exactly the missing bytes are read, and of one that nothing frames none |
| `Exchange.ReadByLength` | externals/http-server-3.0.0/client_http.hpp:482-505 | the part of it with a length: the buffer is left alone if it holds the content, and otherwise ends with it |
| `Exchange.ClientRead` | externals/http-server-3.0.0/client_http.hpp:462-529 | for every stream below the maximum size and every fragmentation the client ends as the bytes mean, and a delivered response carries their head; a longer stream can only add an error of size or cut a decoded content at the maximum |
| `Exchange.ClientThrowsIff` | externals/http-server-3.0.0/client_http.hpp:481-483 | `stoull` throws out of the client's handler if and only if the stream has a complete head whose status line parses and whose Content-Length is no number in range |
| `Exchange.ClientUndefinedIff` | externals/http-server-3.0.0/client_http.hpp:570-571 | what the client does is undefined if and only if the head is complete, the status line parses, no length is given, the coding is "chunked" and the body has an empty size line |
| `Exchange.ServerNeverThrows` | externals/http-server-3.0.0/server_http.hpp:463-473 | no stream makes `stoull` or `stoul` throw out of the server's handlers |
| `Exchange.ServerUndefinedIff` | externals/http-server-3.0.0/server_http.hpp:527-530 | but what the server does is undefined for the requests of the same kind, and for no others |
| `Exchange.ServerRead` | externals/http-server-3.0.0/server_http.hpp:433-509 | the same for the server |
| `EndToEnd.DecodeEncoded` | externals/http-server-3.0.0/client_http.hpp:555-634 | decoding undoes the chunked encoding of any list of non-empty chunks and a zero chunk, with any size lines that denote the sizes, and leaves what lies beyond |
| `EndToEnd.PrintedSize` | externals/http-server-3.0.0/client_http.hpp:575 | printed hexadecimal sizes, with or without an extension, are such size lines |
| `EndToEnd.CutShort` | externals/http-server-3.0.0/client_http.hpp:557-604 | a chunked body that lacks any part of its end, be it one byte, fails with the end of the stream |
| `EndToEnd.BadSize` | externals/http-server-3.0.0/client_http.hpp:573-580 | a size line that is no number fails with an error of the protocol |
| `EndToEnd.BareHeader` | externals/http-server-3.0.0/client_http.hpp:566-583 | a size line that ends with a bare newline loses its last character, and the bytes up to the next CRLF, that included, come on top of what is asked for |
| `EndToEnd.ChunkedRoundTrip` | externals/http-server-3.0.0/server_http.hpp:511-602 | for every fragmentation both chunk decoders, which have the same steps, deliver the concatenation of the chunks |
| `EndToEnd.PrintedResponse` | externals/http-server-3.0.0/server_http.hpp:116-121 | what a printed response means depends on its framing fields and its content only |
| `EndToEnd.AddsLengthIff` | externals/http-server-3.0.0/server_http.hpp:68-83 | the server adds a length if and only if the connection stays open, no field is named "Content-Length" and none is "Transfer-Encoding" with "chunked", all up to case; an empty header is one of those |
| `EndToEnd.ResponseText` | externals/http-server-3.0.0/server_http.hpp:68-121 | the text of a response, with the length last and only then |
| `EndToEnd.ResponseFraming` | externals/http-server-3.0.0/server_http.hpp:79-82 | for a caller that frames nothing the client takes the content for the content if and only if the server adds the length or a field "Session: close" makes the client wait for the end; otherwise it delivers whatever happens to be buffered |
| `EndToEnd.CallerLengthResponse` | externals/http-server-3.0.0/server_http.hpp:72-73 | a length of the caller's own frames a response as far as it goes, whether or not it is the length of the content |
| `EndToEnd.UnframedResponses` | externals/http-server-3.0.0/server_http.hpp:74-80 | a "Chunked" with a capital, and `close_connection_after_response`, are two such cases, for any content |
| `EndToEnd.ChunkedResponse` | externals/http-server-3.0.0/server_http.hpp:68-83 | a response that its caller framed as chunks means the data of the chunks |
| `EndToEnd.RequestFraming` | externals/http-server-3.0.0/client_http.hpp:254-264 | a request whose caller frames nothing is framed by the client |
| `EndToEnd.UnframedRequest` | externals/http-server-3.0.0/server_http.hpp:449-509 | a request that nothing frames ends with its head: what follows is left in the buffer |
| `EndToEnd.CallerLengthRequest` | externals/http-server-3.0.0/client_http.hpp:256-257 | a length of the caller's own frames a request as far as it goes |
| `EndToEnd.ChunkedRequest` | externals/http-server-3.0.0/client_http.hpp:258-260 | a request that its caller framed as chunks means the data of the chunks |
| `EndToEnd.ServerToClient` | externals/http-server-3.0.0/client_http.hpp:462-505 | for every fragmentation a client that starts with an empty stream buffer gets the status, the fields with Content-Length and exactly the content that the server wrote |
| `EndToEnd.ClientToServer` | externals/http-server-3.0.0/server_http.hpp:433-509 | for every fragmentation the server gets the method, target, version, fields and exactly the content that the client was asked to send |
| `EndToEnd.UndefinedRequest` | externals/http-server-3.0.0/server_http.hpp:527-530 | a request, with any method, target and host, that makes the server's reading undefined |
| `Versions.LessIs` | externals/http-server-3.0.0/client_http.hpp:510 | the order of versions is lexicographic: a proper prefix, or the smaller character at the first difference, comes first |
| `Versions.OldVersions` | externals/http-server-3.0.0/client_http.hpp:510 | "1.0" and "0.9" come before "1.1"; "1.1", "1.2" and "2" do not |
| `Versions.VersionedResponse` | externals/http-server-3.0.0/client_http.hpp:508-529 | a response of any version that no field frames means all that follows its head if the version comes before "1.1" or a field says "Session: close", and otherwise none of it |
| `Versions.OldResponse` | externals/http-server-3.0.0/client_http.hpp:510-526 | so every HTTP/1.0 response without a length means all that follows its head |
| `Versions.OldServerToClient` | externals/http-server-3.0.0/client_http.hpp:462-529 | for every fragmentation the client delivers exactly that content, with version "1.0", the status and the fields |
| `Reconnect.AfterReconnect` | externals/http-server-3.0.0/client_http.hpp:531-551 | a session that has reconnected gets status, fields and content of the second response if and only if nothing was left in its stream buffer by the first connection, whatever it was and for every fragmentation |
| `Reconnect.StaleFields` | externals/http-server-3.0.0/client_http.hpp:531-551 | what was left in front of a status line either stops the header parser before the fields or adds to them |
| `Reconnect.StaleLine` | externals/http-server-3.0.0/client_http.hpp:531-551 | a status line with anything in front of it does not give the same version and status |
| `Findings.FindingMeans` | externals/http-server-3.0.0/client_http.hpp:476-483 | the handler of the head throws, by the bytes that are buffered, if and only if the bytes of the whole stream say so |
| `Findings.LengthComplete` | externals/http-server-3.0.0/client_http.hpp:482-505 | with a length the response is found complete if that many bytes lie behind the blank line, and then it means exactly these, whatever follows |
| `Findings.LengthMissing` | externals/http-server-3.0.0/client_http.hpp:484-502 | if bytes of the length are missing they are asked for, and then the stream may not end here |
| `Findings.NothingFound` | externals/http-server-3.0.0/client_http.hpp:510-529 | without a length and "chunked" the rest of the stream is read exactly for a version before "1.1" or a field "Session: close", and the response means all of it; any other is complete without content |
| `Findings.ChunksFound` | externals/http-server-3.0.0/client_http.hpp:506-509 | where "chunked" is said and no length, chunks are read, and the response means what they decode to |
| `Findings.ChunkedHead` | externals/http-server-3.0.0/client_http.hpp:508-511 | behind any well-formed head that says "chunked" chunks are read |
| `ScopeRunner.StepIsSafe` | externals/http-server-3.0.0/utility.hpp:333-353 | every atomic step of any call keeps the invariant; a stopped runner stays stopped |
| `ScopeRunner.ReachableIsSafe` | externals/http-server-3.0.0/utility.hpp:312-354 | in every interleaving of any number of calls, spurious failures included, the count is the number of live locks, or -1 with no lock live |
| `ScopeRunner.StopIsFinal` | externals/http-server-3.0.0/utility.hpp:345-353 | once a `stop` has returned the count is -1 with no lock live, and in every continuation no lock is granted to anyone |
| `ScopeRunner.StoppingStep` | externals/http-server-3.0.0/utility.hpp:345-353 | the step that stops the runner is a successful exchange of `stop` with no lock live |
| `ScopeRunner.LockIsObstructionFree` | externals/http-server-3.0.0/utility.hpp:333-342 | in every reachable state two exchanges without interference decide a `continue_lock` |
| `ScopeRunner.StopIsObstructionFree` | externals/http-server-3.0.0/utility.hpp:345-353 | in every reachable state one exchange without interference ends `stop` if and only if no lock is live |
| `ConnectionPool.FirstIdle` | externals/http-server-3.0.0/client_http.hpp:390-395 | an idle connection is found if and only if the pool holds one, in whatever order it is iterated |
| `ConnectionPool.KeptFacts` | externals/http-server-3.0.0/client_http.hpp:235-247 | of the pool the connections in use stay unless one failed, at most one idle one stays, and one does if there is one |
| `ConnectionPool.Prune` | externals/http-server-3.0.0/client_http.hpp:233-247 | the loop that erases while it iterates leaves exactly these |
| `ConnectionPool.Client.GetConnection` | externals/http-server-3.0.0/client_http.hpp:381-413 | takes the first idle connection or makes a new one, marks it in use and ready to reconnect, and changes no other |
| `ConnectionPool.Client.Start` | externals/http-server-3.0.0/client_http.hpp:223-268 | a request does one step of the transition system |
| `ConnectionPool.Client.Connect` | externals/http-server-3.0.0/client_http.hpp:652-684 | an open connection is written to at once, another is resolved first |
| `ConnectionPool.Client.Write` | externals/http-server-3.0.0/client_http.hpp:448-460 | a view of the request buffer is sent, and the buffer keeps its contents |
| `ConnectionPool.Client.Callback` | externals/http-server-3.0.0/client_http.hpp:228-252 | the callback does exactly the release, the pruning and the call of the specification |
| `ConnectionPool.Client.HandleHead` | externals/http-server-3.0.0/client_http.hpp:464-551 | the handler of the head does what the specification says in all its branches, the reconnect included |
| `ConnectionPool.Client.HandleNext` | externals/http-server-3.0.0/client_http.hpp:448-634 | every handler does one step of the transition system, and none but its own session's |
| `ConnectionPool.Client.StopAll` | externals/http-server-3.0.0/client_http.hpp:345-352 | the pool is emptied and nothing else changes |
| `ConnectionPool.StepIsSafe` | externals/http-server-3.0.0/client_http.hpp:223-634 | every step of every session keeps the invariant of pool and sessions |
| `ConnectionPool.PoolInvariant` | externals/http-server-3.0.0/client_http.hpp:228-248 | in every run two unfinished sessions never share a connection, the connection of each is marked in use, and the pool holds at most one idle connection and at most one more than there are unfinished sessions |
| `ConnectionPool.RunRank` | externals/http-server-3.0.0/client_http.hpp:448-634 | every handler of a session, but for going on to the next chunk, brings it closer to its end, in any interleaving |
| `ConnectionPool.SessionInvariant` | externals/http-server-3.0.0/client_http.hpp:448-634 | a session calls back at most once, and exactly once if nothing is pending, the runner is not stopped and no exception has left a handler of it; it reconnects at most once, runs at most nine handlers beside further chunks, and sends only its whole request, on a different connection each time |
| `ConnectionPool.ReconnectsExactly` | externals/http-server-3.0.0/client_http.hpp:531-551 | a handler reconnects if and only if the head failed for a reason other than a full buffer or a cancelled operation, on the session's first try, with its connection still in the pool |
| `ConnectionPool.CallbacksAre` | externals/http-server-3.0.0/client_http.hpp:448-634 | phase by phase, by how the operation completed and what was found: when the callback is told of a failure, when of a success, and where the session goes on otherwise |
| `ConnectionPool.ConnectionsAre` | externals/http-server-3.0.0/client_http.hpp:228-551 | what a handler does to connections and pool: a reconnect puts a new connection, not to be tried again, in the place of the old; a callback frees its own connection, and removes it if it failed; a head that arrives lets its connection be tried again; only idle connections leave the pool besides |
| `ConnectionPool.RequestIs` | externals/http-server-3.0.0/client_http.hpp:223-268 | a request takes an idle connection or the new one, is written at once only on an old one that is open, starts with no response and its own bytes, and changes nothing else |
| `ConnectionPool.StoppedDrops` | externals/http-server-3.0.0/client_http.hpp:466-468 | a handler that finds the runner stopped drops its session and does nothing else |
| `ConnectionPool.ResponseIs` | externals/http-server-3.0.0/client_http.hpp:531-551 | a step adds to the response buffer of a session what arrives for it and nothing else, and takes nothing away, a reconnect included |
| `ConnectionPool.ResponseGrows` | externals/http-server-3.0.0/client_http.hpp:531-551 | so in every run what has arrived for a session stays in front of what arrives later, also over a second connection |
| `ConnectionPool.NineHandlers` | externals/http-server-3.0.0/client_http.hpp:448-634 | a run, in which every finding is in the bytes, of a session that runs nine handlers and sends its request twice: the bounds are reached |
| `ConnectionPool.AbandonsExactly` | externals/http-server-3.0.0/client_http.hpp:481-483 | a session is abandoned if and only if the handler of its head runs and `stoull` throws there, which the bytes that have arrived and any that may follow decide |
| `ConnectionPool.AbandonedForever` | externals/http-server-3.0.0/client_http.hpp:481-483 | such a session never calls back, in any continuation, and its connection stays marked in use |
| `ConnectionPool.IdleIsReused` | externals/http-server-3.0.0/client_http.hpp:390-402 | a request takes an idle connection of the pool if there is one, and then neither makes nor adds any |
| `ConnectionPool.PendingCanBeHandled` | externals/http-server-3.0.0/client_http.hpp:448-634 | any completion of the operation of a pending session can be handled, and any failure but that of the head calls back |
| `ConnectionPool.FailedConnectionIsNotReused` | externals/http-server-3.0.0/client_http.hpp:236-237 | the connection of a session that ended with an error is never given to a session again, in any continuation |
| `ConnectionPool.SuccessKeepsAConnection` | externals/http-server-3.0.0/client_http.hpp:228-248 | a session that ends well on a pooled connection leaves exactly one idle connection, which the next request takes instead of a new one |
| `ConnectionPool.StopEndsReconnects` | externals/http-server-3.0.0/client_http.hpp:345-352 | from any safe state with an empty pool no session reconnects, and the pool stays empty until the next request |
| `ConnectionPool.AfterStop` | externals/http-server-3.0.0/client_http.hpp:345-352 | `stop` leads to such a state from every safe one |
| `Transport.RetryAfterIs` | src/transport.cpp:341-350 | the header asks for the time in its last "Retry-After" field, for the default without one, and throws if and only if any of these fields is no number in range |
| `Transport.Transport.HandleTooManyRequests` | src/transport.cpp:341-350 | the loop computes that time and starts to drop, unless it throws |
| `Transport.Transport.CheckResponse` | src/transport.cpp:313-338 | only 200 and 429 count as handled |
| `Transport.RepliesAre` | src/transport.cpp:313-350 | by status: "200 OK" is handled, "429 Too Many Requests" is handled or throws if a "Retry-After" is no number in range, and every other is refused |
| `Transport.Transport.AddActionToQueue` | src/transport.cpp:115-123 | appends to the queue unless stopped |
| `Transport.Transport.SendEvent` | src/transport.cpp:214-219 | enqueues a first try |
| `Transport.Transport.SendEventRetry` | src/transport.cpp:221-226 | enqueues a second try with the same content and the header of the first |
| `Transport.Transport.PerformNoConnection` | src/transport.cpp:149-166 | sends again exactly when ten seconds have passed in whole milliseconds |
| `Transport.SendsAgainIff` | src/transport.cpp:149-166 | ten seconds in nanoseconds after the last failure, and not before |
| `Transport.Transport.SendPost` | src/transport.cpp:251-275 | a failure records the time, a refusal enqueues one retry, and nothing else does |
| `Transport.AnswersAre` | src/transport.cpp:251-350 | what one request does to queue, state, clock and worker, for a failure, an exception, and each of the statuses "200 OK", "429 Too Many Requests" and any other; only the last, on a first try, goes on to a retry |
| `Transport.Transport.PerformSendEvents` | src/transport.cpp:168-185 | runs the oldest action |
| `Transport.Transport.Perform` | src/transport.cpp:125-147 | one round of the worker, by state |
| `Transport.PerformIsUninterrupted` | src/transport.cpp:125-275 | the worker's atomic steps, when nobody interferes, add up to `perform` |
| `Transport.StepIsSafe` | src/transport.cpp:101-275 | every atomic step of the worker and of any producer keeps the invariant of queue, clock and events |
| `Transport.Conservation` | src/transport.cpp:115-123 | in every interleaving what was pushed is what was popped followed by the queue, in order; popping never finds the queue empty; an event is requested at most twice, first as it was accepted, and again, with the same content and header, only after a response neither 200 nor 429 |
| `Transport.BackOff` | src/transport.cpp:149-166 | in every interleaving with a monotone clock no request starts within ten seconds after the end of a failed one, and none at all after a response 429 or an uncaught exception |
| `Transport.NothingForgotten` | src/transport.cpp:94-123 | in every interleaving, with the client set from the start, an accepted event is on its way or was requested; if its only reply was a refusal and it is not on its way, the transport was stopped |
| `Transport.OnItsWay` | src/transport.cpp:251-275 | in every run an event that is on its way was never requested, or once with a status that is neither "200 OK" nor "429 Too Many Requests" |
| `Transport.DropsIff` | src/transport.cpp:313-350 | in every run DROP_EVENTS is the state if and only if a response "429 Too Many Requests" has come of which every "Retry-After" is a number in range |
| `Transport.ExitDecides` | src/transport.cpp:101-112 | when the worker exits everything pushed has been popped, and in every continuation an accepted event has been requested if and only if no producer was still between its check and its push with it |
| `Transport.AllRequestedIff` | src/transport.cpp:101-123 | so in every continuation every accepted event has been requested if and only if the worker exited with no producer between its check and its push |
| `Transport.NothingLost` | src/transport.cpp:94-112 | a condition that can be seen before: some moment after `stop` with no such producer and the worker still there |
| `Transport.LateEvent` | src/transport.cpp:115-123 | a run in which the worker exits with such a producer, and its event stays in the queue in every continuation |
| `Transport.StepDrains` | src/transport.cpp:101-185 | after `stop` the actions still to be popped never grow, retries included; every pop takes one away; and every step of the worker but the waiting brings it closer to its end |
| `Transport.Drains` | src/transport.cpp:101-185 | so what is left at any moment after `stop` bounds the pops and the steps of every continuation, up to the waiting |
| `Transport.DrainsInTime` | src/transport.cpp:101-185 | after `stop` and without a response 429 the worker waits no longer in all than ten seconds for each action that may still fail, beside what is left of the back-off; if time passes whenever it waits, all its remaining steps are bounded |
| `Transport.DroppingNeverDrains` | src/transport.cpp:140-141 | in DROP_EVENTS nothing is popped or requested any more, and a worker with a queue that is not empty never exits |

## Left out

- Sockets, name resolution, TLS, timers and the scheduling of the io_service: operations complete in any order with any result, and bytes arrive in any fragments.
- The internals of `async_read_until`, `async_read` and `transfer_exactly`: `Wire.Inbox` has their documented contracts.
- Wire.Inbox.ReadUntil: bytes are read into a `seq` and not into the model of `basic_streambuf`, which is proved to be such a queue; what the search reads beyond the delimiter is left to the network, up to 65536 bytes in a read.
- Framing.ReadChunkFrame: does not model that `2 + length` wraps around for chunk sizes within two bytes of 2^64.
- StreamBuf.StreamBuf.Commit: says nothing of the object once its put pointer is in front of its get pointer.
- StreamBuf.StreamBuf.Consume: likewise once the get pointer is in front of the array.
- StreamBuf.StreamBuf.Reserve: a resize of the vector always moves to a new array; a resize in place would differ only for views taken before it.
- StreamBuf.StreamBuf.ReadSizeHelper: the capacity of the vector is a parameter.
- The dynamic buffers over a string and over a vector share one class, because their bodies are the same; their storage is a `seq`.
- BufferCopy.ManyToMany: the buffers of the two sequences do not overlap, as `memcpy` demands; buffers within the sources may.
- Exchange.ClientRead: wrap-around of counts in `std::string::substr` is modelled as reaching the end of the string.
- Exchange.ServerRead: the 413 response that the server writes for a full buffer is not modelled.
- Http.FindField: a multimap is iterated in one fixed order, and with different values under one name the first is found; which one the library gives is its own choice, and `Http.AnyOrder` says when that does not matter.
- ConnectionPool.SessionInvariant: holds of all findings of a handler, those included that are not in the bytes; what the handlers behind the head find is not tied to the bytes there, but in `Exchange`.
- ConnectionPool.Client.HandleNext: a handler is one step, and the connection objects are a map from identities to their flags; `io_service` and query set-up in `get_connection` and the proxy are not modelled.
- ScopeRunner.ReachableIsSafe: the counter is unbounded; more than 2^63 live locks are not considered, and neither are weaker memory orders, because the code uses the strongest.
- Transport.Conservation: reading `m_tasks.empty()` without the lock is one atomic step here.
- Transport.NothingLost: needs the client to be set before the worker starts; an action that runs before `setupClient` is popped and sends nothing, which the transition system does model.
- Transport.RetryAfterIs: what becomes of the time is not modelled further, because no code reads it: `performDropEvents` is never called.
- Progress after a response 429, which the code does not make.
- FrameInfo.RoundTrip: a NUL byte in a printed string, which ends it, and the truncation of the buffer of `snprintf` are not modelled.
- Percent.DecodeLoop: a NUL in the two characters behind '%' ends the number as any other character that is no digit.
- `SemicolonSeparatedAttributes::parse`, the status code table, `parse_host_port` and the timeouts of connections: they add nothing to the properties above.
- `SentryDSN::parseDSN`, which rests on the matching of `std::regex`; the rate limiting of `Hub`, which erases while it iterates; scopes, breadcrumbs and the assembly of JSON.
- Symbol lookup, signal handlers and the formatting of backtraces beyond the one line that `FrameInfo` parses.
- Debugging hooks of buffers, pointer overflow and failures of allocation.
