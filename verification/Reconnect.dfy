/** A session that has reconnected: the response of the second connection behind what the first has
    left in the stream buffer. */
module Reconnect {
  import opened Text
  import opened Numerals
  import opened Http
  import opened Messages
  import opened MessageRoundTrips
  import opened Wire
  import opened Framing
  import opened Exchange
  import opened EndToEnd

  /** A line that ends in a carriage return gives a field if it holds a ':'. */
  lemma GivesField(line: string)
    requires Has(line, ':') && line[|line| - 1] == '\r'
    ensures |FieldOf(line)| == 1
  {
  }

  /** What was left in front of the status line either stops the header parser before the fields, or
      adds to them. */
  lemma {:induction false} StaleFields(stale: string, line: string, rest: string, fields: seq<Field>, content: string)
    requires '\n' !in line && line != "" && line[|line| - 1] == '\r'
    requires ParseFields(rest) == Parsed(fields, content, true)
    ensures var p := ParseFields(stale + (line + "\n" + rest));
            p.Parsed? && (|p.fields| > |fields| || |p.rest| >= |rest|)
    decreases |stale|
  {
    var tail := line + "\n" + rest;
    if Has(stale, '\n') {
      LineOfPrefix(stale, tail);
      if Has(LineOf(stale), ':') {
        StaleFields(RestOf(stale), line, rest, fields, content);
      }
    } else {
      assert stale + tail == (stale + line) + "\n" + rest;
      LineJoin(stale);
      LineSplit(stale + line, rest);
      if Has(stale + line, ':') {
        GivesField(stale + line);
      }
    }
  }

  /** Nor is a status line with something in front of it the same. */
  lemma StaleLine(stale: string, status: string)
    requires stale != ""
    ensures ParseStatusLine(stale + StatusLineText(status)) != Some(("1.1", status))
  {
    var line := stale + StatusLineText(status);
    assert line[|stale| + 8] == StatusLineText(status)[8] == ' ';
    var end := Find(line, ' ').value;
    assert end <= |stale| + 8;
    assert |Substr(line, end + 1, |line| - (end + 1) - 1)| == |line| - end - 2;
    assert end == |stale| + 8 ==> |Substr(line, 5, end - 5)| == |stale| + 3;
  }

  /** The blank line of the second response is the first one. */
  lemma StaleBlankLine(stale: string, text: string)
    requires HeadEnd(stale).None? && HeadEnd(text).Some? && text[0] == 'H'
    ensures HeadEnd(stale + text) == Some(|stale| + HeadEnd(text).value)
  {
    var all, at := stale + text, |stale| + HeadEnd(text).value;
    forall k: nat | k < at ensures !MatchesAt(all, BLANK_LINE, k) {
      if MatchesAt(all, BLANK_LINE, k) {
        BlankLineWhere(stale, text, k);
      }
    }
    assert MatchesAt(all, BLANK_LINE, at);
  }

  lemma BlankLineWhere(stale: string, text: string, k: nat)
    requires text != "" && text[0] == 'H' && MatchesAt(stale + text, BLANK_LINE, k)
    ensures if k < |stale| then MatchesAt(stale, BLANK_LINE, k) else MatchesAt(text, BLANK_LINE, k - |stale|)
  {
    var all := stale + text;
    assert all[k] == BLANK_LINE[0] && all[k + 1] == BLANK_LINE[1];
    assert all[k + 2] == BLANK_LINE[2] && all[k + 3] == BLANK_LINE[3];
    assert all[|stale|] == 'H';
  }

  /** With something in front of it, the second response is not read as what it is: the status or the
      fields differ, or more is left than the content. */
  lemma StaleDiffers(stale: string, status: string, rest: string, fields: seq<Field>, content: string)
    requires stale != "" && '\n' !in status
    requires ParseFields(rest) == Parsed(fields, content, true) && |rest| > |content|
    ensures var all := stale + (StatusLineText(status) + "\n" + rest);
            || ParseStatusLine(LineOf(all)) != Some(("1.1", status))
            || (HeaderOf(all).Parsed? && (|HeaderOf(all).fields| > |fields| || |HeaderOf(all).rest| > |content|))
  {
    var line := StatusLineText(status);
    var tail := line + "\n" + rest;
    if Has(stale, '\n') {
      LineOfPrefix(stale, tail);
      StaleFields(RestOf(stale), line, rest, fields, content);
    } else {
      LineJoin(stale);
      assert stale + tail == (stale + line) + "\n" + rest;
      LineSplit(stale + line, rest);
      StaleLine(stale, status);
    }
  }

  /** Where the head of the second response ends behind what was left. */
  lemma StaleHeadEnd(stale: string, status: string, fields: seq<Field>, content: string)
    requires HeadEnd(stale).None? && '\n' !in status
    requires ParseFields(PrintFields(fields) + "\r\n" + content) == Parsed(fields, content, true)
    ensures var all := stale + (StatusLineText(status) + "\n" + (PrintFields(fields) + "\r\n" + content));
            HeadEnd(all).Some? && |all| - (HeadEnd(all).value + 4) == |content|
  {
    var line, rest := StatusLineText(status), PrintFields(fields) + "\r\n" + content;
    var text := line + "\n" + rest;
    LineSplit(line, rest);
    var end := HeadEndsAtContent(text, line, fields, content);
    StaleBlankLine(stale, text);
  }

  /** A content of which more is there than its length says. */
  lemma LongerContent(fields: seq<Field>, rest: string, n: nat, untilClose: bool, outcome: Outcome)
    requires |rest| > n && n < ULONG_LIMIT && FindField(fields, "Content-Length") == Some(Print(n, 10))
    requires outcome in Allowed(ContentOf(fields, rest, n, Thrown, untilClose))
    ensures outcome.Delivered? ==> |outcome.content| > n
  {
    assert Print(n, 10) + "" == Print(n, 10);
    ReadBack(n, 10, 10, "");
    assert ContentOf(fields, rest, n, Thrown, untilClose) == Plainly(rest[..|rest| - n + n], rest[|rest| - n + n..]);
  }

  /** What must come of reading the second response behind what was left: never its content under its
      own head. */
  lemma StaleOutcome(stale: string, status: string, fields: seq<Field>, content: string, outcome: Outcome)
    requires stale != "" && HeadEnd(stale).None? && '\n' !in status && |content| < ULONG_LIMIT
    requires ParseFields(PrintFields(fields) + "\r\n" + content) == Parsed(fields, content, true)
    requires FindField(fields, "Content-Length") == Some(Print(|content|, 10))
    ensures var all := stale + (StatusLineText(status) + "\n" + (PrintFields(fields) + "\r\n" + content));
            (outcome in Allowed(ResponseOf(all)) && ParseStatusLine(LineOf(all)) == Some(("1.1", status))
             && HeaderOf(all).Parsed? && HeaderOf(all).fields == fields) ==> outcome != Delivered(content)
  {
    var rest := PrintFields(fields) + "\r\n" + content;
    var all := stale + (StatusLineText(status) + "\n" + rest);
    StaleHeadEnd(stale, status, fields, content);
    StaleDiffers(stale, status, rest, fields, content);
    ResponseCases(all);
    if outcome in Allowed(ResponseOf(all)) && ParseStatusLine(LineOf(all)) == Some(("1.1", status))
       && HeaderOf(all).Parsed? && HeaderOf(all).fields == fields {
      LongerContent(fields, HeaderOf(all).rest, |content|, UntilClose("1.1", fields), outcome);
    }
  }

  lemma ResponseParses(status: string, header: seq<Field>, content: string)
    requires forall f :: f in header ==> WellFormed(f)
    requires AddsLength(header, false)
    ensures var fields := ResponseFields(header, false, |content|);
            && ParseFields(PrintFields(fields) + "\r\n" + content) == Parsed(fields, content, true)
            && FindField(fields, "Content-Length") == Some(Print(|content|, 10))
  {
    PrintedLengthIsWellFormed(|content|);
    FieldsReadBack(ResponseFields(header, false, |content|), content);
    NoLengthField(header);
    FindFieldAppend(header, [("Content-Length", Print(|content|, 10))], "Content-Length");
  }

  /** A session that has reconnected reads the second response into the stream buffer of the first.
      It gets status, fields and content of the second if and only if the buffer was empty, which is
      if the first connection broke before it delivered anything. */
  method AfterReconnect(stale: string, status: string, content: string, header: seq<Field>,
                        fragments: seq<string>, maxSize: nat)
    returns (response: Response)
    requires HeadEnd(stale).None?
    requires '\n' !in status && (forall f :: f in header ==> WellFormed(f)) && |content| < ULONG_LIMIT
    requires FindField(header, "Content-Length").None?
    requires !exists f :: f in header && CaseInsensitiveEqual(f.0, "Transfer-Encoding")
                          && CaseInsensitiveEqual(f.1, "chunked")
    requires Concat(fragments) == PrintResponse(status, header, false, content)
    requires |stale + Concat(fragments)| < maxSize
    ensures var head := ResponseHead("1.1", status, header + [("Content-Length", Print(|content|, 10))]);
            response == Response(Delivered(content), head) <==> stale == ""
  {
    AddsLengthIff(header, false);
    if stale == "" {
      response := ServerToClient(status, content, header, fragments, maxSize);
    } else {
      var inbox := new Inbox(fragments, maxSize);
      inbox.streambuf := stale;
      ghost var all := stale + PrintResponse(status, header, false, content);
      assert inbox.All() == all;
      response := ClientRead(inbox);
      ResponseParses(status, header, content);
      StaleOutcome(stale, status, ResponseFields(header, false, |content|), content, response.outcome);
    }
  }
}
