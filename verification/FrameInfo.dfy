/** The stack-frame parser: `FrameInfo` reads the lines that `translateAddressesBuf` prints. */
module FrameInfo {
  import opened Text
  import opened Numerals

  datatype Frame = Frame(
    absFilePath: string, fileName: string, lineNumber: nat, functionName: string, address: string)

  /** What `%s:%u %s %lu` prints for a resolved address. */
  function PrintResolved(path: string, line: nat, name: string, addr: nat): (s: string) {
    path + ":" + Print(line, 10) + " " + name + " " + Print(addr, 10)
  }

  /** What `[0x%lx] ?? ??:0` prints for an address without a symbol. */
  function PrintUnresolved(addr: nat): (s: string) {
    "[0x" + Print(addr, 16) + "] ?? ??:0"
  }

  /** `pos + 1`, which wraps `npos` to 0. */
  function After(pos: Option<nat>): (r: nat) {
    if pos.Some? then pos.value + 1 else 0
  }

  /** The part of `s` from `start` up to `end`; an absent or smaller `end` makes the count
      wrap, so the part then reaches to the end of `s`. */
  function Between(s: string, start: nat, end: Option<nat>): (r: string)
    requires start <= |s|
  {
    Substr(s, start, if end.Some? then end.value - start else -1)
  }

  /** The text after the last '/', or everything. */
  function BaseName(path: string): (r: string)
    ensures '/' !in r
    ensures r == path || (|r| < |path| && path[|path| - |r| - 1] == '/' && r == path[|path| - |r|..])
  {
    path[After(RFind(path, '/'))..]
  }

  /** The four texts that the constructor cuts out of a line: the path, the line number, the
      function name and the address. */
  datatype Cuts = Cuts(path: string, line: string, name: string, address: string)

  function Cut(s: string): (r: Cuts) {
    var filePathEnd := Find(s, ':');
    var lineNumberEnd := Find(s, ' ');
    var nameEnd := RFind(s, ' ');
    Cuts(Between(s, 0, filePathEnd),
         Between(s, After(filePathEnd), lineNumberEnd),
         Between(s, After(lineNumberEnd), nameEnd),
         s[After(nameEnd)..])
  }

  /** The constructor; None when one of the two `stoul` calls throws. */
  function Parse(line: string): (r: Option<Frame>) {
    var cuts := Cut(line);
    var lineNumber := StoUL(cuts.line, 0);
    var addrInt := StoUL(cuts.address, 0);
    if lineNumber.None? || addrInt.None? then None
    else Some(Frame(cuts.path, BaseName(cuts.path), lineNumber.value, cuts.name,
                    Print(addrInt.value, 16)))
  }

  /** The frame a resolved address stands for. */
  function Meant(path: string, line: nat, name: string, addr: nat): (f: Frame) {
    Frame(path, BaseName(path), line, name, Print(addr, 16))
  }

  /** Printed decimals hold no separator of the frame line. */
  lemma PrintedIsPlain(n: nat, base: nat, k: nat)
    requires PrintBase(base) && k < |Print(n, base)|
    ensures Print(n, base)[k] !in {' ', ':', '/'}
  {
    assert Print(n, base)[k] in Print(n, base);
  }

  /** The last blank of a printed line is the one before the address. */
  lemma LastBlank(path: string, line: nat, name: string, addr: nat)
    ensures var s := PrintResolved(path, line, name, addr);
            var end := |path| + |Print(line, 10)| + |name| + 2;
            RFind(s, ' ') == Some(end) && s[end + 1..] == Print(addr, 10)
  {
    var s := PrintResolved(path, line, name, addr);
    var end := |path| + |Print(line, 10)| + |name| + 2;
    assert s[end] == ' ';
    forall k | end < k < |s| ensures s[k] != ' ' {
      PrintedIsPlain(addr, 10, k - end - 1);
    }
    RFindIs(s, ' ', end);
  }

  /** Where the separators of a printed line are when the path holds none. */
  lemma FirstSeparators(path: string, line: nat, name: string, addr: nat)
    requires ':' !in path && ' ' !in path
    ensures var s := PrintResolved(path, line, name, addr);
            && Find(s, ':') == Some(|path|)
            && Find(s, ' ') == Some(|path| + 1 + |Print(line, 10)|)
  {
    var s := PrintResolved(path, line, name, addr);
    var blank := |path| + 1 + |Print(line, 10)|;
    FindIs(s, ':', 0, |path|);
    forall k | 0 <= k < blank ensures s[k] != ' ' {
      if k > |path| { PrintedIsPlain(line, 10, k - |path| - 1); }
    }
    FindIs(s, ' ', 0, blank);
  }

  /** Where the three middle parts of a frame line lie. */
  lemma Parts(path: string, line: string, name: string, tail: string)
    ensures var s := path + ":" + line + " " + name + " " + tail;
            var i := |path| + 1 + |line|;
            s[0..|path|] == path && s[|path| + 1..i] == line && s[i + 1..i + 1 + |name|] == name
  {
    var rest := name + " " + tail;
    var s := path + ":" + line + " " + name + " " + tail;
    assert s == path + (":" + (line + (" " + rest)));
  }

  lemma CutsPlainPath(path: string, line: nat, name: string, addr: nat)
    requires ':' !in path && ' ' !in path
    ensures Cut(PrintResolved(path, line, name, addr))
            == Cuts(path, Print(line, 10), name, Print(addr, 10))
  {
    FirstSeparators(path, line, name, addr);
    LastBlank(path, line, name, addr);
    Parts(path, Print(line, 10), name, Print(addr, 10));
  }

  lemma ColonCutsPath(path: string, line: nat, name: string, addr: nat)
    requires ':' in path
    ensures Cut(PrintResolved(path, line, name, addr)).path != path
  {
    var s := PrintResolved(path, line, name, addr);
    var k :| 0 <= k < |path| && path[k] == ':';
    assert s[k] == ':';
    assert Find(s, ':').Some? && Find(s, ':').value < |path|;
  }

  lemma BlankCutsName(path: string, line: nat, name: string, addr: nat)
    requires ' ' in path
    ensures Cut(PrintResolved(path, line, name, addr)).name != name
  {
    var s := PrintResolved(path, line, name, addr);
    var k :| 0 <= k < |path| && path[k] == ' ';
    assert s[k] == ' ';
    LastBlank(path, line, name, addr);
    NameLength(s, Find(s, ' ').value, RFind(s, ' ').value);
  }

  lemma NameLength(s: string, first: nat, last: nat)
    requires Find(s, ' ') == Some(first) && RFind(s, ' ') == Some(last) && first < last
    ensures |Cut(s).name| == last - first - 1
  {
  }

  lemma CutsBrokenPath(path: string, line: nat, name: string, addr: nat)
    requires ':' in path || ' ' in path
    ensures var cuts := Cut(PrintResolved(path, line, name, addr));
            cuts.path != path || cuts.name != name
  {
    if ':' in path {
      ColonCutsPath(path, line, name, addr);
    } else {
      BlankCutsName(path, line, name, addr);
    }
  }

  lemma PlainPathReadBack(path: string, line: nat, name: string, addr: nat)
    requires line < 0x1_0000_0000 && addr < ULONG_LIMIT && ':' !in path && ' ' !in path
    ensures Parse(PrintResolved(path, line, name, addr)) == Some(Meant(path, line, name, addr))
  {
    CutsPlainPath(path, line, name, addr);
    assert Print(line, 10) + "" == Print(line, 10) && Print(addr, 10) + "" == Print(addr, 10);
    ReadBack(line, 10, 0, "");
    ReadBack(addr, 10, 0, "");
  }

  /** The frame of a resolved address survives printing and parsing exactly when its path holds
      neither ':' nor ' '; the function name may hold both. */
  lemma RoundTrip(path: string, line: nat, name: string, addr: nat)
    requires line < 0x1_0000_0000 && addr < ULONG_LIMIT
    ensures Parse(PrintResolved(path, line, name, addr)) == Some(Meant(path, line, name, addr))
            <==> ':' !in path && ' ' !in path
  {
    if ':' !in path && ' ' !in path {
      PlainPathReadBack(path, line, name, addr);
    } else {
      CutsBrokenPath(path, line, name, addr);
    }
  }

  /** No line printed for an address without a symbol can be parsed: the text taken for the
      address is "??:0", so the constructor throws. */
  lemma UnresolvedThrows(addr: nat)
    ensures Parse(PrintUnresolved(addr)).None?
  {
    UnresolvedAddress(addr);
    NoNumeral(Cut(PrintUnresolved(addr)).address);
  }

  lemma UnresolvedAddress(addr: nat)
    ensures Cut(PrintUnresolved(addr)).address == "??:0"
  {
    var s := PrintUnresolved(addr);
    var end := |s| - 5;
    assert s[end..] == " ??:0" && s[end + 1..] == "??:0";
    assert s[end] == s[end..][0];
    forall k | end < k < |s| ensures s[k] != ' ' {
      assert s[k] == s[end + 1..][k - end - 1];
    }
    RFindIs(s, ' ', end);
  }

  /** A text that starts with none of blank, sign and digit is no numeral. */
  lemma NoNumeral(s: string)
    requires s != [] && !IsSpace(s[0]) && s[0] != '+' && s[0] != '-' && DigitValue(s[0]) >= 16
    ensures StoUL(s, 0).None?
  {
    assert SkipSpaces(s) == s;
    assert DigitRun(s, 10) == 0;
  }

  /** Without a ':' the whole line is the path, and without a blank the whole line is the address. */
  lemma MissingSeparators(s: string)
    ensures ':' !in s ==> Cut(s).path == s
    ensures ' ' !in s ==> Cut(s).address == s
  {
  }
}
