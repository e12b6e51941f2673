/** Request and response heads: what the client and the server print and how the other side
    parses it. */
module Messages {
  import opened Text
  import opened Numerals
  import opened Http

  /** The out-parameters of `RequestMessage::parse`. */
  datatype RequestHead = RequestHead(
    requestMethod: string, path: string, query: string, version: string, header: seq<Field>)

  /** The two positions that the scan of the request target finds: behind the last '?' that is
      not the end of the line, and the first blank. */
  function TargetEnd(line: string, start: nat): (end: Option<nat>)
    ensures end.Some? ==> start <= end.value < |line|
  {
    Find(line, ' ', start)
  }

  method ScanTarget(line: string, start: nat) returns (queryStart: Option<nat>, end: Option<nat>)
    requires start <= |line|
    ensures end == TargetEnd(line, start)
    ensures end.Some? ==> queryStart == QueryStart(line[start..end.value], start)
  {
    queryStart, end := None, None;
    var i := start;
    while i < |line|
      invariant start <= i <= |line|
      invariant forall k :: start <= k < i ==> line[k] != ' '
      invariant queryStart.Some? ==> start < queryStart.value <= i && line[queryStart.value - 1] == '?'
      invariant forall k :: (if queryStart.Some? then queryStart.value else start) <= k < i && k + 1 < |line| ==>
        line[k] != '?'
    {
      if line[i] == '?' && i + 1 < |line| {
        queryStart := Some(i + 1);
      } else if line[i] == ' ' {
        end := Some(i);
        FindIs(line, ' ', start, i);
        if queryStart.Some? {
          RFindIs(line[start..i], '?', queryStart.value - 1 - start);
        }
        return;
      }
      i := i + 1;
    }
  }

  /** The position behind the last '?' of a target that starts at `start`. */
  function QueryStart(target: string, start: nat): (r: Option<nat>) {
    var q := RFind(target, '?');
    if q.None? then None else Some(start + q.value + 1)
  }

  /** A target without its query, and the query: they part at the last '?'. */
  function SplitTarget(target: string): (r: (string, Option<string>)) {
    var q := RFind(target, '?');
    if q.None? then (target, None) else (target[..q.value], Some(target[q.value + 1..]))
  }

  function JoinTarget(path: string, query: Option<string>): (target: string) {
    if query.None? then path else path + "?" + query.value
  }

  lemma TargetSplitsBack(target: string)
    ensures var (path, query) := SplitTarget(target); JoinTarget(path, query) == target
    ensures var (path, query) := SplitTarget(target); query.None? ==> '?' !in path
    ensures var (path, query) := SplitTarget(target); query.Some? ==> '?' !in query.value
  {
    var q := RFind(target, '?');
    if q.Some? {
      assert target == target[..q.value] + [target[q.value]] + target[q.value + 1..];
    }
  }

  /** The first line of a request, as `parse` cuts it up; None where it returns false. The query
      is absent when the target has no '?', and the caller's query string is then left alone. */
  datatype RequestLine = RequestLine(requestMethod: string, path: string, query: Option<string>, version: string)

  function ParseRequestLine(line: string): (r: Option<RequestLine>) {
    var methodEnd := Find(line, ' ');
    if methodEnd.None? then None else
    var start := methodEnd.value + 1;
    var end := TargetEnd(line, start);
    if end.None? then None else
    var (path, query) := SplitTarget(line[start..end.value]);
    var version := VersionOf(line, end.value);
    if version.None? then None
    else Some(RequestLine(line[..methodEnd.value], path, query, version.value))
  }

  /** The header of a message: what is parsed behind its first line, if that line ends. */
  function HeaderOf(text: string): (r: Parsed) {
    if Has(text, '\n') then ParseFields(RestOf(text)) else Parsed([], [], false)
  }

  method CutTarget(line: string, start: nat, before: RequestHead) returns (end: Option<nat>, head: RequestHead)
    requires start <= |line|
    ensures end == TargetEnd(line, start)
    ensures end.Some? ==>
      var (path, query) := SplitTarget(line[start..end.value]);
      head == before.(path := path, query := if query.None? then before.query else query.value)
  {
    head := before;
    var queryStart;
    queryStart, end := ScanTarget(line, start);
    if end.None? {
      return;
    }
    ghost var target := line[start..end.value];
    if queryStart.Some? {
      var path := Substr(line, start, queryStart.value - start - 1);
      var query := Substr(line, queryStart.value, end.value - queryStart.value);
      assert target[..queryStart.value - 1 - start] == path;
      assert target[queryStart.value - start..] == query;
      head := head.(path := path, query := query);
    } else {
      head := head.(path := Substr(line, start, end.value - start));
    }
  }

  /** The version behind the target, if the protocol is HTTP. */
  function VersionOf(line: string, end: nat): (version: Option<string>)
    requires end < |line|
  {
    var protocolEnd := Find(line, '/', end + 1);
    if protocolEnd.None? || Substr(line, end + 1, protocolEnd.value - end - 1) != "HTTP" then None
    else Some(Substr(line, protocolEnd.value + 1, |line| - protocolEnd.value - 2))
  }

  method CutRequestLine(line: string, before: RequestHead) returns (ok: bool, head: RequestHead)
    ensures ok <==> ParseRequestLine(line).Some?
    ensures ok ==>
      var r := ParseRequestLine(line).value;
      head == RequestHead(r.requestMethod, r.path, if r.query.None? then before.query else r.query.value,
                          r.version, before.header)
    ensures head.header == before.header
  {
    head := before;
    var methodEnd := Find(line, ' ');
    if methodEnd.None? {
      return false, head;
    }
    head := head.(requestMethod := line[..methodEnd.value]);
    var end, cut := CutTarget(line, methodEnd.value + 1, head);
    if end.None? {
      return false, head;
    }
    head := cut;
    var version := VersionOf(line, end.value);
    if version.None? {
      return false, head;
    }
    return true, head.(version := version.value);
  }

  /** `RequestMessage::parse` */
  method ParseRequest(stream: IStream, before: RequestHead) returns (ok: bool, head: RequestHead)
    requires stream.good
    requires ParseRequestLine(LineOf(stream.rest)).Some? ==> HeaderOf(stream.rest) != Forever
    modifies stream
    ensures ok <==> ParseRequestLine(LineOf(old(stream.rest))).Some?
    ensures ok ==>
      var r := ParseRequestLine(LineOf(old(stream.rest))).value;
      && head == RequestHead(r.requestMethod, r.path, if r.query.None? then before.query else r.query.value,
                             r.version, head.header)
      && Parsed(head.header, stream.rest, stream.good) == HeaderOf(old(stream.rest))
    ensures !ok ==> head.header == [] && stream.rest == RestOf(old(stream.rest))
  {
    head := before.(header := []);
    var line := stream.GetLine("");
    ok, head := CutRequestLine(line, head);
    if ok {
      var header := ParseHeader(stream);
      head := head.(header := header);
    }
  }

  /** The status line, as `ResponseMessage::parse` cuts it up: the version and the status code;
      None where it returns false. */
  function ParseStatusLine(line: string): (r: Option<(string, string)>) {
    var versionEnd := Find(line, ' ');
    if versionEnd.None? || |line| <= 5 || |line| <= versionEnd.value + 1 then None
    else Some((Substr(line, 5, versionEnd.value - 5),
               Substr(line, versionEnd.value + 1, |line| - (versionEnd.value + 1) - 1)))
  }

  /** The out-parameters of `ResponseMessage::parse`. */
  datatype ResponseHead = ResponseHead(version: string, statusCode: string, header: seq<Field>)

  /** `ResponseMessage::parse` */
  method ParseResponse(stream: IStream, before: ResponseHead) returns (ok: bool, head: ResponseHead)
    requires stream.good
    requires ParseStatusLine(LineOf(stream.rest)).Some? ==> HeaderOf(stream.rest) != Forever
    modifies stream
    ensures ok <==> ParseStatusLine(LineOf(old(stream.rest))).Some?
    ensures ok ==>
      && (head.version, head.statusCode) == ParseStatusLine(LineOf(old(stream.rest))).value
      && Parsed(head.header, stream.rest, stream.good) == HeaderOf(old(stream.rest))
    ensures !ok ==> head.header == [] && stream.rest == RestOf(old(stream.rest))
  {
    head := before.(header := []);
    var line := stream.GetLine("");
    var versionEnd := Find(line, ' ');
    if versionEnd.None? {
      return false, head;
    }
    if 5 < |line| {
      head := head.(version := Substr(line, 5, versionEnd.value - 5));
    } else {
      return false, head;
    }
    if versionEnd.value + 1 < |line| {
      head := head.(statusCode := Substr(line, versionEnd.value + 1, |line| - (versionEnd.value + 1) - 1));
    } else {
      return false, head;
    }
    var header := ParseHeader(stream);
    return true, head.(header := header);
  }

  predicate Plain(s: string) {
    ' ' !in s && '\n' !in s
  }

  function CorrectedPath(path: string): (r: string) {
    if path == "" then "/" else path
  }

  /** The fields that `create_request_header` and `request` print: Host, the caller's, and the
      length of a content that the caller's fields do not describe. */
  function RequestFields(host: string, fields: seq<Field>, content: string): (r: seq<Field>) {
    [("Host", host)] + fields +
    if content != [] && FindField(fields, "Content-Length").None? &&
       FindField(fields, "Transfer-Encoding") != Some("chunked")
    then [("Content-Length", Print(|content|, 10))] else []
  }

  /** A request line, without its newline. */
  function RequestLineText(requestMethod: string, target: string): (line: string) {
    requestMethod + " " + target + " HTTP/1.1\r"
  }

  /** What `request` puts into the request stream buffer for a client without a proxy. */
  function PrintRequest(requestMethod: string, path: string, host: string, fields: seq<Field>, content: string)
    : (text: string)
  {
    RequestLineText(requestMethod, CorrectedPath(path)) + "\n"
    + (PrintFields(RequestFields(host, fields, content)) + "\r\n" + content)
  }

  predicate NamesLength(f: Field) {
    CaseInsensitiveEqual(f.0, "content-length")
  }

  predicate SaysChunked(f: Field) {
    CaseInsensitiveEqual(f.0, "transfer-encoding") && CaseInsensitiveEqual(f.1, "chunked")
  }

  /** Whether `write_header` adds a Content-Length field of its own: the caller's fields frame
      the content in neither way, and the end of the connection will not. */
  predicate AddsLength(header: seq<Field>, closeAfter: bool) {
    !closeAfter && forall k :: 0 <= k < |header| ==> !NamesLength(header[k]) && !SaysChunked(header[k])
  }

  function ResponseFields(header: seq<Field>, closeAfter: bool, size: nat): (r: seq<Field>) {
    header + if AddsLength(header, closeAfter) then [("Content-Length", Print(size, 10))] else []
  }

  function StatusLineText(status: string): (line: string) {
    "HTTP/1.1 " + status + "\r"
  }

  /** What the server's `write` puts into the response stream buffer. */
  function PrintResponse(status: string, header: seq<Field>, closeAfter: bool, content: string): (text: string) {
    StatusLineText(status) + "\n"
    + (PrintFields(ResponseFields(header, closeAfter, |content|)) + "\r\n" + content)
  }
}
