/** HTTP/1.1 heads: lines, header fields, request lines and status lines, printed and parsed
    (sections 3.1.1, 3.1.2 and 3.2 of RFC 7230). */
module Http {
  import opened Text

  /** A field name and value. A multimap is the sequence in which it is filled or iterated. */
  type Field = (string, string)

  function Lower(c: char): (r: char) {
    if 'A' <= c <= 'Z' then (c as int + 32) as char else c
  }

  predicate CaseInsensitiveEqual(a: string, b: string) {
    |a| == |b| && forall k :: 0 <= k < |a| ==> Lower(a[k]) == Lower(b[k])
  }

  /** `find` in a case-insensitive multimap: the value of the first field of that name. */
  function FindField(fields: seq<Field>, name: string): (value: Option<string>)
    ensures value.Some? <==> exists f :: f in fields && CaseInsensitiveEqual(f.0, name)
  {
    if fields == [] then None
    else if CaseInsensitiveEqual(fields[0].0, name) then Some(fields[0].1)
    else FindField(fields[1..], name)
  }

  /** The field that is found is the first of that name. */
  lemma {:induction false} FoundIsFirst(fields: seq<Field>, name: string) returns (k: nat)
    ensures k <= |fields| && forall j :: 0 <= j < k ==> !CaseInsensitiveEqual(fields[j].0, name)
    ensures k == |fields| <==> FindField(fields, name).None?
    ensures k < |fields| ==>
      CaseInsensitiveEqual(fields[k].0, name) && FindField(fields, name) == Some(fields[k].1)
  {
    if fields == [] || CaseInsensitiveEqual(fields[0].0, name) {
      k := 0;
    } else {
      k := FoundIsFirst(fields[1..], name);
      assert forall j :: 0 < j <= k ==> j == |fields| || fields[j] == fields[1..][j - 1];
      k := k + 1;
    }
  }

  /** All fields of that name have the same value. */
  predicate Agree(fields: seq<Field>, name: string) {
    forall f, g :: f in fields && g in fields ==>
      CaseInsensitiveEqual(f.0, name) && CaseInsensitiveEqual(g.0, name) ==> f.1 == g.1
  }

  /** The order in which the multimap iterates matters only to a name with different values. */
  lemma AnyOrder(fields: seq<Field>, others: seq<Field>, name: string)
    requires multiset(fields) == multiset(others)
    requires Agree(fields, name)
    ensures FindField(fields, name) == FindField(others, name)
  {
    assert forall f :: f in fields <==> f in multiset(fields);
    assert forall f :: f in others <==> f in multiset(others);
    var k := FoundIsFirst(fields, name);
    var l := FoundIsFirst(others, name);
    assert k < |fields| ==> fields[k] in others;
    assert l < |others| ==> others[l] in fields;
  }

  /** `s.find(c) != npos` */
  predicate Has(s: string, c: char) {
    Find(s, c).Some?
  }

  /** The text up to the first newline, or all of it. */
  function LineOf(text: string): (line: string) {
    var end := Find(text, '\n');
    if end.None? then text else text[..end.value]
  }

  /** The text behind the first newline, if there is one. */
  function RestOf(text: string): (rest: string)
    ensures Has(text, '\n') ==> |rest| < |text|
  {
    var end := Find(text, '\n');
    if end.None? then [] else text[end.value + 1..]
  }

  lemma LineSplit(line: string, rest: string)
    requires '\n' !in line
    ensures LineOf(line + "\n" + rest) == line && RestOf(line + "\n" + rest) == rest
    ensures Has(line + "\n" + rest, '\n')
  {
    var text := line + "\n" + rest;
    assert text[|line|] == '\n';
    FindIs(text, '\n', 0, |line|);
    assert text[..|line|] == line && text[|line| + 1..] == rest;
  }

  lemma LineJoin(text: string)
    ensures forall k :: 0 <= k < |LineOf(text)| ==> LineOf(text)[k] != '\n'
    ensures Has(text, '\n') ==> text == LineOf(text) + "\n" + RestOf(text)
    ensures !Has(text, '\n') ==> text == LineOf(text)
  {
    if Has(text, '\n') {
      var end := Find(text, '\n').value;
      assert text == text[..end] + [text[end]] + text[end + 1..];
    }
  }

  /** `std::istream` as far as the parsers use it. Reaching the end of the text makes it bad. */
  class IStream {
    var rest: string
    var good: bool

    constructor (text: string)
      ensures rest == text && good
    {
      rest, good := text, true;
    }

    /** `getline`; on a stream that is not good it leaves the line as it was. */
    method GetLine(previous: string) returns (line: string)
      modifies this
      ensures old(good) ==> line == LineOf(old(rest)) && rest == RestOf(old(rest))
      ensures old(good) ==> (good <==> Has(old(rest), '\n'))
      ensures !old(good) ==> line == previous && rest == old(rest) && !good
    {
      if !good {
        return previous;
      }
      line := LineOf(rest);
      good := Has(rest, '\n');
      rest := RestOf(rest);
    }
  }

  /** The field of one line that holds a ':'. One blank behind the ':' and the last character of
      the line are dropped; nothing is left of a line that ends with the ':' or the blank. */
  function FieldOf(line: string): (fields: seq<Field>)
    requires Has(line, ':')
  {
    var paramEnd := Find(line, ':').value;
    var valueStart := if paramEnd + 1 < |line| && line[paramEnd + 1] == ' ' then paramEnd + 2 else paramEnd + 1;
    if valueStart < |line| then [(line[..paramEnd], Substr(line, valueStart, |line| - valueStart - 1))] else []
  }

  datatype Parsed = Parsed(fields: seq<Field>, rest: string, good: bool) | Forever

  /** The meaning of the header parser: a field for each line up to the first one without ':'. */
  function ParseFields(text: string): (r: Parsed)
    decreases |text|
  {
    var line := LineOf(text);
    if !Has(line, ':') then Parsed([], RestOf(text), Has(text, '\n'))
    else if !Has(text, '\n') then Forever
    else
      match ParseFields(RestOf(text))
      case Forever => Forever
      case Parsed(fields, rest, good) => Parsed(FieldOf(line) + fields, rest, good)
  }

  method ParseHeader(stream: IStream) returns (result: seq<Field>)
    requires stream.good ==> ParseFields(stream.rest) != Forever
    modifies stream
    ensures old(stream.good) ==> Parsed(result, stream.rest, stream.good) == ParseFields(old(stream.rest))
    ensures !old(stream.good) ==> result == [] && stream.rest == old(stream.rest) && !stream.good
  {
    result := [];
    if !stream.good {
      var line := stream.GetLine("");
      return;
    }
    ghost var text := stream.rest;
    ghost var total := ParseFields(text);
    var line := stream.GetLine("");
    while Has(line, ':')
      invariant line == LineOf(text) && stream.rest == RestOf(text) && stream.good == Has(text, '\n')
      invariant Pending(result, text, total)
      decreases |text|
    {
      PendingStep(result, text, total);
      result := Emplace(result, line);
      text := stream.rest;
      line := stream.GetLine(line);
    }
    PendingDone(result, text, total);
  }

  /** The body of the parser's loop. */
  method Emplace(before: seq<Field>, line: string) returns (result: seq<Field>)
    requires Has(line, ':')
    ensures result == before + FieldOf(line)
  {
    result := before;
    var paramEnd := Find(line, ':').value;
    var valueStart := paramEnd + 1;
    if valueStart < |line| {
      if line[valueStart] == ' ' {
        valueStart := valueStart + 1;
      }
      if valueStart < |line| {
        result := result + [(line[..paramEnd], Substr(line, valueStart, |line| - valueStart - 1))];
      }
    }
  }

  /** The fields found so far and those that the text still holds make up the whole result. */
  ghost predicate Pending(found: seq<Field>, text: string, total: Parsed) {
    var p := ParseFields(text);
    p.Parsed? && total == p.(fields := found + p.fields)
  }

  lemma PendingStep(found: seq<Field>, text: string, total: Parsed)
    requires Pending(found, text, total) && Has(LineOf(text), ':')
    ensures Has(text, '\n')
    ensures Pending(found + FieldOf(LineOf(text)), RestOf(text), total)
  {
    var field, later := FieldOf(LineOf(text)), ParseFields(RestOf(text)).fields;
    assert found + field + later == found + (field + later);
  }

  lemma PendingDone(found: seq<Field>, text: string, total: Parsed)
    requires Pending(found, text, total) && !Has(LineOf(text), ':')
    ensures total == Parsed(found, RestOf(text), Has(text, '\n'))
  {
    assert found + [] == found;
  }

  /** The state of the parser's loop, and one more `getline` on it. */
  datatype Loop = Loop(line: string, rest: string, good: bool)

  function NextLoop(s: Loop): (r: Loop) {
    if s.good then Loop(LineOf(s.rest), RestOf(s.rest), Has(s.rest, '\n')) else s
  }

  function LoopAfter(text: string, n: nat): (s: Loop) {
    if n == 0 then NextLoop(Loop("", text, true)) else NextLoop(LoopAfter(text, n - 1))
  }

  /** Once the text is used up the loop does not change any more. */
  lemma {:induction false} LoopStuck(text: string, n: nat)
    requires !Has(text, '\n')
    ensures LoopAfter(text, n) == Loop(text, "", false)
  {
    if n > 0 {
      LoopStuck(text, n - 1);
    }
  }

  lemma {:induction false} LoopShift(text: string, n: nat)
    requires Has(text, '\n')
    ensures LoopAfter(text, n + 1) == LoopAfter(RestOf(text), n)
  {
    if n > 0 {
      LoopShift(text, n - 1);
    } else {
      assert LoopAfter(text, 0) == Loop(LineOf(text), RestOf(text), true);
    }
  }

  lemma {:induction false} ForeverGuard(text: string, n: nat)
    requires ParseFields(text).Forever?
    ensures Has(LoopAfter(text, n).line, ':')
    decreases n
  {
    if !Has(text, '\n') {
      LoopStuck(text, n);
    } else if n > 0 {
      LoopShift(text, n - 1);
      ForeverGuard(RestOf(text), n - 1);
    }
  }

  lemma {:induction false} ParsedEnds(text: string) returns (n: nat)
    requires ParseFields(text).Parsed?
    ensures !Has(LoopAfter(text, n).line, ':')
    decreases |text|
  {
    if !Has(LineOf(text), ':') {
      n := 0;
    } else {
      n := ParsedEnds(RestOf(text));
      LoopShift(text, n);
      n := n + 1;
    }
  }

  /** The parser runs forever exactly when its guard holds after every number of rounds. */
  lemma ForeverMeansForever(text: string)
    ensures ParseFields(text).Forever? <==> forall n: nat :: Has(LoopAfter(text, n).line, ':')
  {
    if ParseFields(text).Forever? {
      forall n: nat ensures Has(LoopAfter(text, n).line, ':') { ForeverGuard(text, n); }
    } else {
      var n := ParsedEnds(text);
    }
  }

  /** A line without ':' starts at `i`; an empty last line behind a final newline counts. */
  predicate FieldlessAt(text: string, i: nat) {
    i <= |text| && (i == 0 || text[i - 1] == '\n') && !Has(LineOf(text[i..]), ':')
  }

  /** No line starts within the first one. */
  lemma WithinFirstLine(text: string, i: nat)
    requires Has(text, '\n') && 0 < i <= |LineOf(text)|
    ensures !FieldlessAt(text, i)
  {
    LineJoin(text);
    assert text[i - 1] == LineOf(text)[i - 1];
  }

  /** The lines of the rest are lines of the text. */
  lemma LineShift(text: string, i: nat)
    requires Has(text, '\n')
    ensures FieldlessAt(RestOf(text), i) <==> FieldlessAt(text, |LineOf(text)| + 1 + i)
  {
    var rest, j := RestOf(text), |LineOf(text)| + 1 + i;
    LineJoin(text);
    assert |text| == |LineOf(text)| + 1 + |rest|;
    if i <= |rest| {
      assert text[j..] == rest[i..];
      assert i == 0 ==> text[j - 1] == '\n';
      assert i > 0 ==> text[j - 1] == rest[i - 1];
    }
  }

  lemma FirstLine(text: string)
    ensures FieldlessAt(text, 0) <==> !Has(LineOf(text), ':')
  {
    assert text[0..] == text;
  }

  lemma {:induction false} FieldlessLine(text: string)
    requires ParseFields(text).Parsed?
    ensures exists i: nat :: FieldlessAt(text, i)
    decreases |text|
  {
    FirstLine(text);
    if Has(LineOf(text), ':') {
      FieldlessLine(RestOf(text));
      var k: nat :| FieldlessAt(RestOf(text), k);
      LineShift(text, k);
    }
  }

  lemma {:induction false} FieldlessLineEnds(text: string, i: nat)
    requires FieldlessAt(text, i)
    ensures ParseFields(text).Parsed?
    decreases |text|
  {
    FirstLine(text);
    if Has(LineOf(text), ':') {
      LineJoin(text);
      assert Has(text, '\n') by { assert text[i - 1] == '\n'; }
      if i <= |LineOf(text)| {
        WithinFirstLine(text, i);
      }
      var k: nat := i - |LineOf(text)| - 1;
      LineShift(text, k);
      FieldlessLineEnds(RestOf(text), k);
    }
  }

  /** The parser terminates exactly on the texts that have a line without ':'. */
  lemma TerminatesIff(text: string)
    ensures ParseFields(text).Parsed? <==> exists i: nat :: FieldlessAt(text, i)
  {
    if ParseFields(text).Parsed? {
      FieldlessLine(text);
    } else if exists i: nat :: FieldlessAt(text, i) {
      var i: nat :| FieldlessAt(text, i);
      FieldlessLineEnds(text, i);
    }
  }

  function PrintField(f: Field): (s: string) {
    f.0 + ": " + f.1 + "\r\n"
  }

  function PrintFields(fields: seq<Field>): (s: string) {
    if fields == [] then [] else PrintField(fields[0]) + PrintFields(fields[1..])
  }

  predicate WellFormed(f: Field) {
    ':' !in f.0 && '\n' !in f.0 && '\n' !in f.1
  }

  lemma FieldLineReadBack(f: Field, rest: string)
    requires WellFormed(f)
    ensures var line := f.0 + ": " + f.1 + "\r";
            && Has(PrintField(f) + rest, '\n')
            && LineOf(PrintField(f) + rest) == line && RestOf(PrintField(f) + rest) == rest
            && Has(line, ':') && FieldOf(line) == [f]
  {
    var line := f.0 + ": " + f.1 + "\r";
    assert PrintField(f) + rest == line + "\n" + rest;
    LineSplit(line, rest);
    assert line[|f.0|] == ':' && line[|f.0| + 1] == ' ';
    FindIs(line, ':', 0, |f.0|);
    assert line[..|f.0|] == f.0;
    assert Substr(line, |f.0| + 2, |f.1|) == f.1;
  }

  lemma FieldReadBack(f: Field, rest: string, fields: seq<Field>, content: string)
    requires WellFormed(f) && ParseFields(rest) == Parsed(fields, content, true)
    ensures ParseFields(PrintField(f) + rest) == Parsed([f] + fields, content, true)
  {
    FieldLineReadBack(f, rest);
  }

  lemma RegroupField(a: string, b: string, c: string, d: string)
    ensures (a + b) + c + d == a + (b + c + d)
  {
  }

  lemma {:induction false} FieldsReadBack(fields: seq<Field>, content: string)
    requires forall f :: f in fields ==> WellFormed(f)
    ensures ParseFields(PrintFields(fields) + "\r\n" + content) == Parsed(fields, content, true)
  {
    if fields == [] {
      assert PrintFields(fields) + "\r\n" + content == "\r" + "\n" + content;
      LineSplit("\r", content);
    } else {
      FieldsReadBack(fields[1..], content);
      RegroupField(PrintField(fields[0]), PrintFields(fields[1..]), "\r\n", content);
      FieldReadBack(fields[0], PrintFields(fields[1..]) + "\r\n" + content, fields[1..], content);
      assert fields == [fields[0]] + fields[1..];
    }
  }

  lemma {:induction false} ParsedFieldsAreWellFormed(text: string)
    requires ParseFields(text).Parsed?
    ensures forall f :: f in ParseFields(text).fields ==> WellFormed(f)
    decreases |text|
  {
    LineJoin(text);
    if Has(LineOf(text), ':') {
      ParsedFieldsAreWellFormed(RestOf(text));
    }
  }

  /** Printed header fields are read back, up to the content exactly, when and only when no name
      holds ':' or a newline and no value holds a newline. */
  lemma HeaderRoundTrip(fields: seq<Field>, content: string)
    ensures ParseFields(PrintFields(fields) + "\r\n" + content) == Parsed(fields, content, true)
            <==> forall f :: f in fields ==> ':' !in f.0 && '\n' !in f.0 && '\n' !in f.1
  {
    if forall f :: f in fields ==> WellFormed(f) {
      FieldsReadBack(fields, content);
    } else if ParseFields(PrintFields(fields) + "\r\n" + content).Parsed? {
      ParsedFieldsAreWellFormed(PrintFields(fields) + "\r\n" + content);
    }
  }

  lemma {:induction false} PrintFieldsIs(fields: seq<Field>, f: Field)
    ensures PrintFields([]) == ""
    ensures PrintFields(fields + [f]) == PrintFields(fields) + f.0 + ": " + f.1 + "\r\n"
  {
    if fields == [] {
      assert fields + [f] == [f] && [f][1..] == [];
    } else {
      assert (fields + [f])[1..] == fields[1..] + [f];
      PrintFieldsIs(fields[1..], f);
    }
  }

  // ---------------------------------------------------------------------------------------------
  // Header lines with and without a blank behind the ':'

  /** What a line gives: the name and the value, with one blank between ':' and the value or with none
      if the value does not start with one, and without the last character, whatever it is; and nothing
      without a value and that character. */
  lemma LineGives(name: string, value: string, last: char)
    requires ':' !in name
    ensures value != "" || last != ' ' ==>
      var line := name + ":" + value + [last];
      && Has(line, ':')
      && FieldOf(line) == [(name, if value != "" && value[0] == ' ' then value[1..] else value)]
    ensures Has(name + ":", ':') && FieldOf(name + ":") == []
    ensures Has(name + ": ", ':') && FieldOf(name + ": ") == []
  {
    var line := name + ":" + value + [last];
    assert line[|name|] == ':' && (name + ":")[|name|] == ':' && (name + ": ")[|name|] == ':';
    FindIs(line, ':', 0, |name|);
    FindIs(name + ":", ':', 0, |name|);
    FindIs(name + ": ", ':', 0, |name|);
    assert line[..|name|] == name;
    assert value != "" ==> line[|name| + 1] == value[0];
    assert value == "" ==> line[|name| + 1] == last;
    if value != "" && value[0] == ' ' {
      assert Substr(line, |name| + 2, |line| - |name| - 3) == value[1..];
    } else {
      assert Substr(line, |name| + 1, |line| - |name| - 2) == value;
    }
  }

  /** Fields printed with or without a blank behind the ':'. */
  function PrintMixed(fields: seq<Field>, blanks: seq<bool>): (s: string)
    requires |fields| == |blanks|
  {
    if fields == [] then ""
    else MixedLine(fields[0], blanks[0]) + "\n" + PrintMixed(fields[1..], blanks[1..])
  }

  /** What is read of them: a value that starts with a blank loses it if it was printed without one. */
  function ReadMixed(fields: seq<Field>, blanks: seq<bool>): (read: seq<Field>)
    requires |fields| == |blanks|
    ensures |read| == |fields|
    ensures forall i :: 0 <= i < |fields| ==>
      (read[i] == fields[i] <==> (blanks[i] || fields[i].1 == "" || fields[i].1[0] != ' '))
  {
    if fields == [] then [] else [MixedField(fields[0], blanks[0])] + ReadMixed(fields[1..], blanks[1..])
  }

  /** One field as it is printed, and as it is read. */
  function MixedLine(f: Field, blank: bool): (line: string) {
    f.0 + ":" + ((if blank then " " else "") + f.1) + "\r"
  }

  function MixedField(f: Field, blank: bool): (read: Field) {
    (f.0, if !blank && f.1 != "" && f.1[0] == ' ' then f.1[1..] else f.1)
  }

  lemma MixedLineGives(f: Field, blank: bool)
    requires WellFormed(f)
    ensures '\n' !in MixedLine(f, blank) && Has(MixedLine(f, blank), ':')
    ensures FieldOf(MixedLine(f, blank)) == [MixedField(f, blank)]
  {
    var printed := (if blank then " " else "") + f.1;
    assert blank ==> printed[1..] == f.1;
    assert !blank ==> printed == f.1;
    LineGives(f.0, printed, '\r');
  }

  lemma MixedLineParses(f: Field, blank: bool, rest: string, fields: seq<Field>, content: string)
    requires WellFormed(f) && ParseFields(rest) == Parsed(fields, content, true)
    ensures ParseFields(MixedLine(f, blank) + "\n" + rest) == Parsed([MixedField(f, blank)] + fields, content, true)
  {
    MixedLineGives(f, blank);
    LineSplit(MixedLine(f, blank), rest);
  }

  lemma {:induction false} MixedReadBack(fields: seq<Field>, blanks: seq<bool>, content: string)
    requires |fields| == |blanks| && forall f :: f in fields ==> WellFormed(f)
    ensures ParseFields(PrintMixed(fields, blanks) + "\r\n" + content)
            == Parsed(ReadMixed(fields, blanks), content, true)
  {
    if fields == [] {
      assert PrintMixed(fields, blanks) + "\r\n" + content == "\r" + "\n" + content;
      LineSplit("\r", content);
    } else {
      MixedReadBack(fields[1..], blanks[1..], content);
      RegroupField(MixedLine(fields[0], blanks[0]) + "\n", PrintMixed(fields[1..], blanks[1..]), "\r\n", content);
      MixedLineParses(fields[0], blanks[0], PrintMixed(fields[1..], blanks[1..]) + "\r\n" + content,
                      ReadMixed(fields[1..], blanks[1..]), content);
    }
  }

  /** They are read back exactly if the names hold no ':', nothing a newline, and no value that starts
      with a blank is printed without one. */
  lemma MixedRoundTrip(fields: seq<Field>, blanks: seq<bool>, content: string)
    requires |fields| == |blanks|
    ensures ParseFields(PrintMixed(fields, blanks) + "\r\n" + content) == Parsed(fields, content, true)
            <==> forall i :: 0 <= i < |fields| ==>
                   && ':' !in fields[i].0 && '\n' !in fields[i].0 && '\n' !in fields[i].1
                   && (blanks[i] || fields[i].1 == "" || fields[i].1[0] != ' ')
  {
    var p := ParseFields(PrintMixed(fields, blanks) + "\r\n" + content);
    if forall i :: 0 <= i < |fields| ==> WellFormed(fields[i]) {
      assert forall f :: f in fields ==> WellFormed(f);
      MixedReadBack(fields, blanks, content);
    } else if p.Parsed? {
      var i :| 0 <= i < |fields| && !WellFormed(fields[i]);
      assert fields[i] in fields;
      ParsedFieldsAreWellFormed(PrintMixed(fields, blanks) + "\r\n" + content);
    }
  }

  /** Two characters are the same up to case exactly if they are the same letter or the same. */
  lemma LowerIs(a: char, b: char)
    ensures Lower(a) == Lower(b)
            <==> || a == b
                 || ('A' <= a <= 'Z' && b as int == a as int + 32)
                 || ('A' <= b <= 'Z' && a as int == b as int + 32)
  {
  }
}
