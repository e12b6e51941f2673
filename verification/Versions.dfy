/** Responses of another version of HTTP: before 1.1 the content ends with the connection. */
module Versions {
  import opened Text
  import opened Http
  import opened Messages
  import opened MessageRoundTrips
  import opened Wire
  import opened Framing
  import opened Exchange
  import opened EndToEnd

  /** The order of strings is the lexicographic one: behind a common front the first string ends, or
      has the smaller character. */
  lemma {:induction false} LessIs(a: string, b: string)
    ensures Less(a, b)
            <==> exists k: nat :: k <= |a| && k < |b| && a[..k] == b[..k] && (k == |a| || a[k] < b[k])
  {
    if a != [] && b != [] && a[0] == b[0] {
      LessIs(a[1..], b[1..]);
      if Less(a[1..], b[1..]) {
        var k: nat :| k < |b[1..]| && k <= |a[1..]| && a[1..][..k] == b[1..][..k]
                      && (k == |a[1..]| || a[1..][k] < b[1..][k]);
        assert a[..k + 1] == [a[0]] + a[1..][..k] && b[..k + 1] == [b[0]] + b[1..][..k];
      }
      if k: nat :| k <= |a| && k < |b| && a[..k] == b[..k] && (k == |a| || a[k] < b[k]) {
        assert k > 0;
        assert a[1..][..k - 1] == a[..k][1..] && b[1..][..k - 1] == b[..k][1..];
      }
    } else if b != [] {
      assert a[..0] == b[..0];
      assert forall k: nat :: 0 < k <= |a| && k < |b| ==> a[..k][0] == a[0] && b[..k][0] == b[0];
    }
  }

  /** Which versions come before 1.1. */
  lemma OldVersions()
    ensures Less("1.0", "1.1") && Less("0.9", "1.1") && Less("1", "1.1") && Less("", "1.1")
    ensures !Less("1.1", "1.1") && !Less("1.2", "1.1") && !Less("2", "1.1")
  {
    LessIs("1.0", "1.1");
    LessIs("0.9", "1.1");
    LessIs("1", "1.1");
    LessIs("1.1", "1.1");
    LessIs("1.2", "1.1");
    LessIs("2", "1.1");
    assert "1.0"[..2] == "1.1"[..2];
    assert "0.9"[..0] == "1.1"[..0];
    assert "1"[..1] == "1.1"[..1];
  }

  /** A response with a status line of any version. */
  function PrintVersioned(version: string, status: string, fields: seq<Field>, content: string): (text: string) {
    "HTTP/" + version + " " + status + "\r" + "\n" + (PrintFields(fields) + "\r\n" + content)
  }

  lemma VersionedHead(version: string, status: string, fields: seq<Field>, content: string)
    requires ' ' !in version && '\n' !in version && '\n' !in status && forall f :: f in fields ==> WellFormed(f)
    ensures var text := PrintVersioned(version, status, fields, content);
            && ParseStatusLine(LineOf(text)) == Some((version, status))
            && HeaderOf(text) == Parsed(fields, content, true)
            && HeadEnd(text).Some? && |text| - (HeadEnd(text).value + 4) == |content|
  {
    var text, line := PrintVersioned(version, status, fields, content), "HTTP/" + version + " " + status + "\r";
    LineSplit(line, PrintFields(fields) + "\r\n" + content);
    StatusLineGives(version, status, "", '\r');
    FieldsReadBack(fields, content);
    var end := HeadEndsAtContent(text, line, fields, content);
  }

  /** The content that no field frames is all that comes before the end of the connection if the
      version comes before 1.1 or a field "Session: close" is there. Otherwise it is empty. */
  lemma VersionedResponse(version: string, status: string, fields: seq<Field>, content: string)
    requires ' ' !in version && '\n' !in version && '\n' !in status && forall f :: f in fields ==> WellFormed(f)
    requires FindField(fields, "Content-Length").None? && FindField(fields, "Transfer-Encoding") != Some("chunked")
    ensures ResponseOf(PrintVersioned(version, status, fields, content))
            == if Less(version, "1.1") || FindField(fields, "Session") == Some("close")
               then Plainly(content, "") else Plainly("", content)
  {
    var text := PrintVersioned(version, status, fields, content);
    VersionedHead(version, status, fields, content);
    ResponseOfHead(text);
    SameContent(HeaderOf(text).fields, HeaderOf(text).rest, |text| - (HeadEnd(text).value + 4), fields, content,
                |content|, Thrown, UntilClose(version, fields));
    NothingFrames(fields, content, Thrown, UntilClose(version, fields));
  }

  lemma OldLine(status: string)
    ensures "HTTP/" + "1.0" + " " + status + "\r" + "\n" == "HTTP/1.0 " + status + "\r\n"
  {
    assert "HTTP/" + "1.0" + " " == "HTTP/1.0 ";
  }

  lemma OldPrinted(status: string, fields: seq<Field>, content: string)
    ensures PrintVersioned("1.0", status, fields, content)
            == "HTTP/1.0 " + status + "\r\n" + (PrintFields(fields) + "\r\n" + content)
  {
    OldLine(status);
  }

  /** An HTTP/1.0 response without a length means all that follows its head. */
  lemma OldResponse(status: string, fields: seq<Field>, content: string)
    requires '\n' !in status && forall f :: f in fields ==> ':' !in f.0 && '\n' !in f.0 && '\n' !in f.1
    requires FindField(fields, "Content-Length").None? && FindField(fields, "Transfer-Encoding") != Some("chunked")
    ensures ResponseOf("HTTP/1.0 " + status + "\r\n" + (PrintFields(fields) + "\r\n" + content)) == Plainly(content, "")
  {
    OldVersions();
    VersionedResponse("1.0", status, fields, content);
    OldPrinted(status, fields, content);
  }

  /** The client delivers all of it, however the network cuts it, once the peer closes. */
  method OldServerToClient(status: string, content: string, fields: seq<Field>, fragments: seq<string>, maxSize: nat)
    returns (response: Response)
    requires '\n' !in status && forall f :: f in fields ==> ':' !in f.0 && '\n' !in f.0 && '\n' !in f.1
    requires FindField(fields, "Content-Length").None? && FindField(fields, "Transfer-Encoding") != Some("chunked")
    requires Concat(fragments) == "HTTP/1.0 " + status + "\r\n" + (PrintFields(fields) + "\r\n" + content)
    requires |Concat(fragments)| < maxSize
    ensures response == Response(Delivered(content), ResponseHead("1.0", status, fields))
  {
    ghost var text := Concat(fragments);
    OldResponse(status, fields, content);
    VersionedHead("1.0", status, fields, content);
    OldPrinted(status, fields, content);
    var inbox := new Inbox(fragments, maxSize);
    assert inbox.All() == text;
    response := ClientRead(inbox);
    MeetsExactly(ResponseOf(text), response.outcome);
  }
}
