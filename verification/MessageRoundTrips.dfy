/** What one side prints the other side reads back. */
module MessageRoundTrips {
  import opened Text
  import opened Numerals
  import opened Http
  import opened Messages

  /** The server's header loop. */
  method WriteHeader(header: seq<Field>, size: nat, closeConnectionAfterResponse: bool) returns (text: string)
    ensures text == PrintFields(ResponseFields(header, closeConnectionAfterResponse, size)) + "\r\n"
  {
    var contentLengthWritten, chunkedTransferEncoding := false, false;
    text := "";
    var i := 0;
    while i < |header|
      invariant 0 <= i <= |header| && text == PrintFields(header[..i])
      invariant contentLengthWritten <==> exists k :: 0 <= k < i && NamesLength(header[k])
      invariant chunkedTransferEncoding <==> exists k :: 0 <= k < i && SaysChunked(header[k])
    {
      var field := header[i];
      DifferentNames(field);
      if !contentLengthWritten && CaseInsensitiveEqual(field.0, "content-length") {
        assert NamesLength(header[i]);
        contentLengthWritten := true;
      } else if !chunkedTransferEncoding && CaseInsensitiveEqual(field.0, "transfer-encoding") &&
                CaseInsensitiveEqual(field.1, "chunked") {
        assert SaysChunked(header[i]);
        chunkedTransferEncoding := true;
      }
      PrintFieldsAppend(header[..i], field);
      assert header[..i + 1] == header[..i] + [field];
      text := text + (field.0 + ": " + field.1 + "\r\n");
      i := i + 1;
    }
    assert header[..i] == header;
    if !contentLengthWritten && !chunkedTransferEncoding && !closeConnectionAfterResponse {
      PrintFieldsAppend(header, ("Content-Length", Print(size, 10)));
      text := text + ("Content-Length" + ": " + Print(size, 10) + "\r\n") + "\r\n";
    } else {
      assert header + [] == header;
      text := text + "\r\n";
    }
  }

  lemma DifferentNames(f: Field)
    ensures !(NamesLength(f) && SaysChunked(f))
  {
  }

  lemma {:induction false} PrintFieldsAppend(fields: seq<Field>, f: Field)
    ensures PrintFields(fields + [f]) == PrintFields(fields) + PrintField(f)
  {
    if fields == [] {
      assert fields + [f] == [f] && [f][1..] == [];
    } else {
      assert (fields + [f])[1..] == fields[1..] + [f];
      PrintFieldsAppend(fields[1..], f);
    }
  }

  /** The server's `write` */
  method WriteResponse(status: string, content: string, header: seq<Field>, closeConnectionAfterResponse: bool)
    returns (text: string)
    ensures text == PrintResponse(status, header, closeConnectionAfterResponse, content)
  {
    text := "HTTP/1.1 " + status + "\r\n";
    var head := WriteHeader(header, |content|, closeConnectionAfterResponse);
    text := text + (head + (if content != [] then content else ""));
  }

  /** The client's header loop, in `create_request_header`, and the framing that `request` adds. */
  method WriteRequestFields(host: string, header: seq<Field>, content: string) returns (text: string)
    ensures text == PrintFields(RequestFields(host, header, content))
  {
    ghost var printed := [("Host", host)];
    text := "Host" + ": " + host + "\r\n";
    assert text == PrintFields(printed) by { PrintFieldsAppend([], ("Host", host)); }
    var i := 0;
    while i < |header|
      invariant 0 <= i <= |header| && printed == [("Host", host)] + header[..i]
      invariant text == PrintFields(printed)
    {
      PrintFieldsAppend(printed, header[i]);
      text := text + (header[i].0 + ": " + header[i].1 + "\r\n");
      printed := printed + [header[i]];
      i := i + 1;
    }
    if |content| > 0 {
      var found := FindField(header, "Content-Length");
      if found.None? {
        found := FindField(header, "Transfer-Encoding");
        if found.None? || found.value != "chunked" {
          PrintFieldsAppend(printed, ("Content-Length", Print(|content|, 10)));
          text := text + ("Content-Length" + ": " + Print(|content|, 10) + "\r\n");
          printed := printed + [("Content-Length", Print(|content|, 10))];
        }
      }
    }
    assert printed == RequestFields(host, header, content);
  }

  method WriteRequest(requestMethod: string, path: string, host: string, header: seq<Field>, content: string)
    returns (text: string)
    ensures text == PrintRequest(requestMethod, path, host, header, content)
  {
    var correctedPath := path;
    if correctedPath == "" {
      correctedPath := "/";
    }
    var fields := WriteRequestFields(host, header, content);
    text := requestMethod + " " + correctedPath + " HTTP/1.1\r\n";
    assert text == RequestLineText(requestMethod, CorrectedPath(path)) + "\n";
    text := text + (fields + "\r\n" + content);
  }

  lemma SlashInVersion(line: string, end: nat)
    requires end <= |line| && line[end..] == " HTTP/1.1\r"
    ensures |line| == end + 10 && Find(line, '/', end + 1) == Some(end + 5)
  {
    var tail := " HTTP/1.1\r";
    assert forall k :: end <= k < |line| ==> line[k] == line[end..][k - end];
    FindIs(line, '/', end + 1, end + 5);
  }

  /** The version behind a printed target. */
  lemma VersionReadBack(front: string)
    ensures VersionOf(front + " HTTP/1.1\r", |front|) == Some("1.1")
  {
    var tail := " HTTP/1.1\r";
    var line, end := front + tail, |front|;
    assert line[end..] == tail;
    SlashInVersion(line, end);
    assert line[end + 1..end + 5] == tail[1..5] == "HTTP";
    assert line[end + 6..end + 9] == tail[6..9] == "1.1";
  }

  lemma RequestLineReadBack(requestMethod: string, target: string)
    requires Plain(requestMethod) && Plain(target)
    ensures var (path, query) := SplitTarget(target);
            ParseRequestLine(RequestLineText(requestMethod, target))
            == Some(RequestLine(requestMethod, path, query, "1.1"))
  {
    var front := requestMethod + " " + target;
    var line := RequestLineText(requestMethod, target);
    var start := |requestMethod| + 1;
    VersionReadBack(front);
    assert line == front + " HTTP/1.1\r";
    FindIs(line, ' ', 0, |requestMethod|);
    FindIs(line, ' ', start, |front|);
    assert line[..|requestMethod|] == requestMethod && line[start..|front|] == target;
  }

  /** The head that the server reads agrees with the request that the client was asked for. */
  predicate RequestAgrees(text: string, requestMethod: string, path: string, host: string,
                          fields: seq<Field>, content: string) {
    var line := ParseRequestLine(LineOf(text));
    && line.Some? && line.value.requestMethod == requestMethod && line.value.version == "1.1"
    && JoinTarget(line.value.path, line.value.query) == CorrectedPath(path)
    && HeaderOf(text) == Parsed(RequestFields(host, fields, content), content, true)
  }

  lemma PrintedLengthIsWellFormed(n: nat)
    ensures WellFormed(("Content-Length", Print(n, 10)))
  {
  }

  lemma RequestFieldsWellFormed(host: string, fields: seq<Field>, content: string)
    ensures (forall f :: f in RequestFields(host, fields, content) ==> WellFormed(f))
            <==> '\n' !in host && forall f :: f in fields ==> WellFormed(f)
  {
    var all := RequestFields(host, fields, content);
    PrintedLengthIsWellFormed(|content|);
    assert all[0] == ("Host", host) && all[0] in all;
    assert forall k :: 0 <= k < |fields| ==> all[k + 1] == fields[k];
    assert forall k :: |fields| < k < |all| ==> all[k] == ("Content-Length", Print(|content|, 10));
    if '\n' !in host && forall f :: f in fields ==> WellFormed(f) {
      forall f | f in all ensures WellFormed(f) {
        var k :| 0 <= k < |all| && all[k] == f;
        assert 0 < k <= |fields| ==> f == fields[k - 1];
      }
    }
  }

  lemma RequestReadBack(requestMethod: string, path: string, host: string, fields: seq<Field>, content: string)
    requires Plain(requestMethod) && Plain(path)
    requires forall f :: f in RequestFields(host, fields, content) ==> WellFormed(f)
    ensures RequestAgrees(PrintRequest(requestMethod, path, host, fields, content),
                          requestMethod, path, host, fields, content)
  {
    var line := RequestLineText(requestMethod, CorrectedPath(path));
    var printed := RequestFields(host, fields, content);
    LineSplit(line, PrintFields(printed) + "\r\n" + content);
    RequestLineReadBack(requestMethod, CorrectedPath(path));
    TargetSplitsBack(CorrectedPath(path));
    FieldsReadBack(printed, content);
  }

  lemma ParsedTargetIsPlain(line: string)
    requires '\n' !in line && ParseRequestLine(line).Some?
    ensures var r := ParseRequestLine(line).value;
            Plain(r.requestMethod) && Plain(JoinTarget(r.path, r.query))
  {
    var start := Find(line, ' ').value + 1;
    var end := TargetEnd(line, start).value;
    var requestMethod, target := line[..start - 1], line[start..end];
    CutAt(line, requestMethod, target, end);
    TargetSplitsBack(target);
    assert Plain(requestMethod) && Plain(target);
  }

  lemma AgreedRequestIsPlain(text: string, requestMethod: string, path: string, host: string,
                             fields: seq<Field>, content: string)
    requires RequestAgrees(text, requestMethod, path, host, fields, content)
    ensures Plain(requestMethod) && Plain(path)
    ensures forall f :: f in RequestFields(host, fields, content) ==> WellFormed(f)
  {
    LineJoin(text);
    ParsedTargetIsPlain(LineOf(text));
    HeaderFieldsAreWellFormed(text);
  }

  /** The server reads back the method, the target, the version, the header with Host and any
      Content-Length, and is left exactly at the content, when and only when method and path hold
      no blank and no newline, the host no newline, and the fields are well formed. */
  lemma RequestRoundTrip(requestMethod: string, path: string, host: string, fields: seq<Field>, content: string)
    ensures RequestAgrees(PrintRequest(requestMethod, path, host, fields, content),
                          requestMethod, path, host, fields, content)
            <==> Plain(requestMethod) && Plain(path) && '\n' !in host && forall f :: f in fields ==> WellFormed(f)
  {
    var text := PrintRequest(requestMethod, path, host, fields, content);
    RequestFieldsWellFormed(host, fields, content);
    if RequestAgrees(text, requestMethod, path, host, fields, content) {
      AgreedRequestIsPlain(text, requestMethod, path, host, fields, content);
    } else if Plain(requestMethod) && Plain(path) && '\n' !in host && forall f :: f in fields ==> WellFormed(f) {
      RequestReadBack(requestMethod, path, host, fields, content);
    }
  }

  lemma HeaderFieldsAreWellFormed(text: string)
    requires HeaderOf(text).Parsed?
    ensures forall f :: f in HeaderOf(text).fields ==> WellFormed(f)
  {
    if Has(text, '\n') {
      ParsedFieldsAreWellFormed(RestOf(text));
    }
  }

  /** The head that the client reads agrees with the response that the server wrote. */
  predicate ResponseAgrees(text: string, status: string, header: seq<Field>, closeAfter: bool, content: string) {
    && ParseStatusLine(LineOf(text)) == Some(("1.1", status))
    && HeaderOf(text) == Parsed(ResponseFields(header, closeAfter, |content|), content, true)
  }

  lemma StatusLineReadBack(status: string)
    ensures ParseStatusLine(StatusLineText(status)) == Some(("1.1", status))
  {
    var front := "HTTP/1.1 ";
    var line := front + status + "\r";
    assert forall k :: 0 <= k < 9 ==> line[k] == front[k];
    assert line[8] == front[8] == ' ';
    FindIs(line, ' ', 0, 8);
    assert line[5..8] == front[5..8] == "1.1";
    assert line[9..9 + |status|] == status;
  }

  /** The client reads back the version, the status, the header with any Content-Length, and is
      left exactly at the content, when and only when the status holds no newline and the fields
      are well formed. */
  lemma ResponseRoundTrip(status: string, header: seq<Field>, closeAfter: bool, content: string)
    ensures ResponseAgrees(PrintResponse(status, header, closeAfter, content), status, header, closeAfter, content)
            <==> '\n' !in status && forall f :: f in header ==> WellFormed(f)
  {
    var text := PrintResponse(status, header, closeAfter, content);
    var printed := ResponseFields(header, closeAfter, |content|);
    if '\n' !in status && forall f :: f in header ==> WellFormed(f) {
      var line := StatusLineText(status);
      var rest := PrintFields(printed) + "\r\n" + content;
      LineSplit(line, rest);
      StatusLineReadBack(status);
      PrintedLengthIsWellFormed(|content|);
      FieldsReadBack(printed, content);
    } else if ResponseAgrees(text, status, header, closeAfter, content) {
      LineJoin(text);
      HeaderFieldsAreWellFormed(text);
      assert forall k :: 0 <= k < |header| ==> printed[k] == header[k];
    }
  }

  // ---------------------------------------------------------------------------------------------
  // Lines of other versions, other protocols and other shapes

  /** The query of a target is what follows its last '?'. */
  lemma TargetGives(path: string, query: string)
    requires '?' !in query
    ensures SplitTarget(path + "?" + query) == (path, Some(query))
    ensures SplitTarget(query) == (query, None)
  {
    var target := path + "?" + query;
    RFindIs(target, '?', |path|);
    assert target[..|path|] == path && target[|path| + 1..] == query;
  }

  /** A request line of any version is cut up without its last character, and one of another protocol is refused. */
  lemma RequestLineGives(requestMethod: string, target: string, protocol: string, version: string, last: char)
    requires ' ' !in requestMethod && ' ' !in target && '/' !in protocol
    ensures ParseRequestLine(requestMethod + " " + target + " " + protocol + "/" + version + [last])
            == if protocol != "HTTP" then None
               else Some(RequestLine(requestMethod, SplitTarget(target).0, SplitTarget(target).1, version))
  {
    var front := requestMethod + " " + target;
    var line, tail := front + " " + protocol + "/" + version + [last], protocol + "/" + version + [last];
    VersionGives(front, protocol, version, last);
    assert line == front + " " + tail;
    LineCutUp(line, requestMethod, target, tail, VersionOf(line, |front|));
  }

  lemma LineCutUp(line: string, requestMethod: string, target: string, tail: string, version: Option<string>)
    requires ' ' !in requestMethod && ' ' !in target
    requires line == requestMethod + " " + target + " " + tail
    requires VersionOf(line, |requestMethod + " " + target|) == version
    ensures ParseRequestLine(line)
            == if version.None? then None
               else Some(RequestLine(requestMethod, SplitTarget(target).0, SplitTarget(target).1, version.value))
  {
    Blanks(line, requestMethod, target, tail);
    CutAt(line, requestMethod, target, |requestMethod + " " + target|);
  }

  lemma Blanks(line: string, requestMethod: string, target: string, tail: string)
    requires ' ' !in requestMethod && ' ' !in target
    requires line == requestMethod + " " + target + " " + tail
    ensures Find(line, ' ') == Some(|requestMethod|)
    ensures TargetEnd(line, |requestMethod| + 1) == Some(|requestMethod + " " + target|)
    ensures line[..|requestMethod|] == requestMethod
    ensures line[|requestMethod| + 1..|requestMethod + " " + target|] == target
  {
    var front, start := requestMethod + " " + target, |requestMethod| + 1;
    assert forall k :: 0 <= k < |front| ==> line[k] == front[k];
    FindIs(line, ' ', 0, |requestMethod|);
    FindIs(line, ' ', start, |front|);
  }

  lemma CutAt(line: string, requestMethod: string, target: string, end: nat)
    requires Find(line, ' ') == Some(|requestMethod|) && TargetEnd(line, |requestMethod| + 1) == Some(end)
    requires line[..|requestMethod|] == requestMethod && line[|requestMethod| + 1..end] == target
    ensures ParseRequestLine(line)
            == if VersionOf(line, end).None? then None
               else Some(RequestLine(requestMethod, SplitTarget(target).0, SplitTarget(target).1,
                                     VersionOf(line, end).value))
  {
  }

  /** So is one without a '/' behind its target, or without two blanks. */
  lemma RequestLineRefused(requestMethod: string, target: string, protocol: string)
    requires ' ' !in requestMethod && ' ' !in target && '/' !in protocol
    ensures ParseRequestLine(requestMethod).None?
    ensures ParseRequestLine(requestMethod + " " + target).None?
    ensures ParseRequestLine(requestMethod + " " + target + " " + protocol).None?
  {
    var line := requestMethod + " " + target;
    FindIs(line, ' ', 0, |requestMethod|);
    assert forall k :: |requestMethod| < k < |line| ==> line[k] == target[k - |requestMethod| - 1];
    NoSlash(line, protocol);
    LineCutUp(line + " " + protocol, requestMethod, target, protocol, None);
  }

  lemma NoSlash(front: string, protocol: string)
    requires '/' !in protocol
    ensures VersionOf(front + " " + protocol, |front|).None?
  {
    var line := front + " " + protocol;
    assert forall k :: |front| < k < |line| ==> line[k] == protocol[k - |front| - 1];
  }

  lemma VersionGives(front: string, protocol: string, version: string, last: char)
    requires '/' !in protocol
    ensures var line := front + " " + protocol + "/" + version + [last];
            VersionOf(line, |front|) == if protocol == "HTTP" then Some(version) else None
  {
    var line, slash := front + " " + protocol + "/" + version + [last], |front| + 1 + |protocol|;
    assert forall k :: |front| < k < slash ==> line[k] == protocol[k - |front| - 1];
    FindIs(line, '/', |front| + 1, slash);
    assert line[|front| + 1..slash] == protocol;
    assert line[slash + 1..|line| - 1] == version;
  }

  /** A status line gives its version and its status, whatever they are, without its last character. A
      protocol shorter than "HTTP/" makes the count of the version wrap. */
  lemma StatusLineGives(version: string, status: string, short: string, last: char)
    requires ' ' !in version
    ensures ParseStatusLine("HTTP/" + version + " " + status + [last]) == Some((version, status))
    ensures ' ' !in short && |short| < 5 && |short| + |status| > 3 ==>
      var line := short + " " + status + [last]; ParseStatusLine(line) == Some((line[5..], status))
  {
    var line := "HTTP/" + version + " " + status + [last];
    var end := 5 + |version|;
    assert forall k :: 0 <= k < 5 ==> line[k] == "HTTP/"[k];
    FindIs(line, ' ', 0, end);
    assert line[5..end] == version && line[end + 1..|line| - 1] == status;
    if ' ' !in short && |short| < 5 && |short| + |status| > 3 {
      var other := short + " " + status + [last];
      FindIs(other, ' ', 0, |short|);
      assert other[|short| + 1..|other| - 1] == status;
    }
  }

  /** A status line is refused exactly if it has no blank, at most five characters or nothing behind
      its first blank. */
  lemma StatusLineRefused(line: string)
    ensures ParseStatusLine(line).None?
            <==> ' ' !in line || |line| <= 5 || exists front :: ' ' !in front && line == front + " "
  {
    var end := Find(line, ' ');
    if end.Some? && |line| == end.value + 1 {
      assert line == line[..end.value] + " ";
    }
    if front :| ' ' !in front && line == front + " " {
      FindIs(line, ' ', 0, |front|);
    }
  }

  /** What a request looks like. */
  lemma RequestText(requestMethod: string, path: string, host: string, fields: seq<Field>, content: string)
    ensures var length := if content != "" && FindField(fields, "Content-Length").None?
                             && FindField(fields, "Transfer-Encoding") != Some("chunked")
                          then "Content-Length: " + Print(|content|, 10) + "\r\n" else "";
            PrintRequest(requestMethod, path, host, fields, content)
            == requestMethod + " " + (if path == "" then "/" else path) + " HTTP/1.1\r\n"
               + ("Host: " + host + "\r\n" + PrintFields(fields) + length + "\r\n" + content)
  {
    var front := requestMethod + " " + (if path == "" then "/" else path);
    assert front + " HTTP/1.1\r\n" == RequestLineText(requestMethod, CorrectedPath(path)) + "\n";
    RequestFieldsText(host, fields, content);
  }

  lemma RequestFieldsText(host: string, fields: seq<Field>, content: string)
    ensures var length := if content != "" && FindField(fields, "Content-Length").None?
                             && FindField(fields, "Transfer-Encoding") != Some("chunked")
                          then "Content-Length: " + Print(|content|, 10) + "\r\n" else "";
            PrintFields(RequestFields(host, fields, content))
            == "Host: " + host + "\r\n" + PrintFields(fields) + length
  {
    var field := ("Content-Length", Print(|content|, 10));
    AddedFieldText(Print(|content|, 10));
    PrintFieldsJoin([("Host", host)], fields);
    HostText(host);
    if RequestFields(host, fields, content) == [("Host", host)] + fields + [field] {
      PrintFieldsAppend([("Host", host)] + fields, field);
    } else {
      assert RequestFields(host, fields, content) == [("Host", host)] + fields;
    }
  }

  lemma AddedFieldText(n: string)
    ensures PrintField(("Content-Length", n)) == "Content-Length: " + n + "\r\n"
  {
    assert "Content-Length" + ": " == "Content-Length: ";
  }

  lemma HostText(host: string)
    ensures PrintFields([("Host", host)]) == "Host: " + host + "\r\n"
  {
    assert "Host" + ": " == "Host: ";
    assert [("Host", host)][1..] == [];
  }

  lemma {:induction false} PrintFieldsJoin(a: seq<Field>, b: seq<Field>)
    ensures PrintFields(a + b) == PrintFields(a) + PrintFields(b)
  {
    if a == [] {
      assert a + b == b;
    } else {
      assert (a + b)[0] == a[0] && (a + b)[1..] == a[1..] + b;
      PrintFieldsJoin(a[1..], b);
    }
  }
}
