/** Percent encoding and decoding (section 2.1 of RFC 3986, with '+' for a blank). */
module Percent {
  import opened Text
  import opened Numerals

  /** The characters that `encode` replaces by a percent triple. '%' itself is not among them. */
  predicate Reserved(c: char) {
    || c == '!' || c == '#' || c == '$' || '&' <= c <= ',' || '/' <= c <= ';'
    || c == '=' || c == '?' || c == '@' || c == '[' || c == ']'
  }

  function UpperHex(d: nat): (c: char)
    requires d < 16
    ensures DigitValue(c) == d && '0' <= c <= 'F'
  {
    if d < 10 then ('0' as int + d) as char else ('A' as int + (d - 10)) as char
  }

  function EncodeChar(c: char): (s: string) {
    if c == ' ' then "+"
    else if Reserved(c) then ['%', UpperHex(c as int / 16), UpperHex(c as int % 16)]
    else [c]
  }

  function Encode(v: string): (s: string) {
    if v == [] then [] else EncodeChar(v[0]) + Encode(v[1..])
  }

  /** `static_cast<char>(strtol(hex, nullptr, 16))`, also of two characters that are no
      hexadecimal digits. */
  function DecodedChar(hex: string): (c: char) {
    (StrToL(hex, 16) % 256) as char
  }

  function Decode(v: string): (s: string) {
    if v == [] then []
    else if v[0] == '%' && |v| > 2 then [DecodedChar(v[1..3])] + Decode(v[3..])
    else [if v[0] == '+' then ' ' else v[0]] + Decode(v[1..])
  }

  method EncodeLoop(value: string) returns (result: string)
    ensures result == Encode(value)
  {
    result := "";
    var i := 0;
    while i < |value|
      invariant 0 <= i <= |value|
      invariant result + Encode(value[i..]) == Encode(value)
    {
      var chr := value[i];
      ghost var done, tail := result, value[i..];
      if chr == ' ' {
        result := result + "+";
      } else if Reserved(chr) {
        result := result + ['%', UpperHex(chr as int / 16), UpperHex(chr as int % 16)];
      } else {
        result := result + [chr];
      }
      assert result == done + EncodeChar(tail[0]);
      Regroup(done, EncodeChar(tail[0]), Encode(tail[1..]));
      assert tail[1..] == value[i + 1..];
      i := i + 1;
    }
  }

  method DecodeLoop(value: string) returns (result: string)
    ensures result == Decode(value)
  {
    result := "";
    var i := 0;
    while i < |value|
      invariant 0 <= i <= |value|
      invariant result + Decode(value[i..]) == Decode(value)
    {
      var chr := value[i];
      ghost var done, tail := result, value[i..];
      if chr == '%' && i + 2 < |value| {
        var hex := value[i + 1..i + 3];
        result := result + [DecodedChar(hex)];
        assert tail[1..3] == hex && tail[3..] == value[i + 3..];
        Regroup(done, [DecodedChar(hex)], Decode(tail[3..]));
        i := i + 2;
      } else {
        if chr == '+' {
          result := result + [' '];
        } else {
          result := result + [chr];
        }
        assert tail[1..] == value[i + 1..];
        Regroup(done, [if chr == '+' then ' ' else chr], Decode(tail[1..]));
      }
      i := i + 1;
    }
  }

  /** Every '%' comes so late that too little is left behind it to be taken for a triple: it
      is the last character, or only one unreserved character follows. */
  predicate Clean(v: string) {
    v == [] ||
    ((v[0] == '%' ==> |v| == 1 || (|v| == 2 && !Reserved(v[1]))) && Clean(v[1..]))
  }

  lemma HexPairDigits(h: char, l: char)
    requires DigitValue(h) < 16 && DigitValue(l) < 16
    ensures Digits([h, l], 16) == ([h, l], 16)
    ensures Value([h, l], 16) == DigitValue(h) * 16 + DigitValue(l)
  {
    var s := [h, l];
    assert s[1..] == [l] && [l][1..] == [] && s[..2] == s && s[..1] == [h] && [h][..0] == [];
    assert DigitRun([l], 16) == 1;
    assert Value([h], 16) == DigitValue(h);
  }

  lemma HexPairDecodes(h: char, l: char)
    requires DigitValue(h) < 16 && DigitValue(l) < 16
    ensures DecodedChar([h, l]) == (DigitValue(h) * 16 + DigitValue(l)) as char
  {
    assert SkipSpaces([h, l]) == [h, l];
    HexPairDigits(h, l);
  }

  /** A printed triple decodes to its character. */
  lemma TripleDecodes(c: char)
    requires Reserved(c)
    ensures DecodedChar(EncodeChar(c)[1..]) == c
  {
    var h, l := UpperHex(c as int / 16), UpperHex(c as int % 16);
    assert EncodeChar(c)[1..] == [h, l];
    HexPairDecodes(h, l);
  }

  lemma OneDigit(c: char)
    ensures Value([c], 16) == DigitValue(c)
    ensures DigitRun([c], 16) == (if DigitValue(c) < 16 then 1 else 0)
  {
    assert [c][1..] == [] && [c][..0] == [];
    assert Value([], 16) == 0;
  }

  lemma TwoDigits(c: char, d: char)
    ensures DigitRun([c, d], 16) == if DigitValue(c) >= 16 then 0 else 1 + DigitRun([d], 16)
    ensures Value([c, d], 16) == DigitValue(c) * 16 + DigitValue(d)
  {
    assert [c, d][1..] == [d] && [c, d][..1] == [c];
    OneDigit(c);
  }

  /** The value of the digits at the front of a text. */
  function Front(s: string): (n: int) { Value(Digits(s, 16).0, Digits(s, 16).1) }

  lemma FrontOfOne(s: string)
    requires |s| <= 1
    ensures Front(s) < 16
  {
    assert s[..0] == [] && s[..|s|] == s && Value([], 16) == 0;
    if |s| == 1 {
      assert s == [s[0]];
      OneDigit(s[0]);
    }
  }

  lemma FrontOfTwo(c: char, d: char)
    ensures Front([c, d]) < 16
            || (Front([c, d]) == DigitValue(c) * 16 + DigitValue(d) && DigitValue(c) < 16 && DigitValue(d) < 16)
  {
    var s := [c, d];
    assert s[..0] == [] && s[..1] == [c] && s[..2] == s && Value([], 16) == 0;
    OneDigit(c);
    OneDigit(d);
    TwoDigits(c, d);
  }

  /** `strtol` in terms of the digits at the front of what is left of blanks and sign. */
  lemma StrToLIs(s: string)
    ensures var t := SkipSpaces(s);
            StrToL(s, 16) == if t != [] && t[0] == '-' then -Front(t[1..])
                             else if t != [] && t[0] == '+' then Front(t[1..])
                             else Front(t)
  {
  }

  /** Two characters of which the first is no decimal digit never decode to '%'. */
  lemma NeverPercent(c: char, d: char)
    requires !('0' <= c <= '9')
    ensures DecodedChar([c, d]) != '%'
  {
    var s := [c, d];
    var t := SkipSpaces(s);
    assert s[1..] == [d];
    StrToLIs(s);
    if IsSpace(c) {
      assert t == SkipSpaces([d]) && |t| <= 1;
      FrontOfOne(t);
      FrontOfOne(if t == [] then t else t[1..]);
    } else {
      assert t == s;
      FrontOfOne([d]);
      FrontOfTwo(c, d);
    }
    assert -16 < StrToL(s, 16) < 16 || 160 <= StrToL(s, 16) < 256;
    NotPercent(StrToL(s, 16));
  }

  lemma NotPercent(v: int)
    requires -16 < v < 16 || 160 <= v < 256
    ensures (v % 256) as char != '%'
  {
  }

  /** What a reserved character, a blank or any other character but '%' contributes. */
  lemma HeadDecodes(c: char, rest: string)
    requires c != '%'
    ensures Decode(EncodeChar(c) + rest) == [c] + Decode(rest)
  {
    var e := EncodeChar(c);
    var s := e + rest;
    if c != ' ' && Reserved(c) {
      TripleDecodes(c);
      assert s[1..3] == e[1..] && s[3..] == rest;
    } else {
      assert s[1..] == rest;
    }
  }

  lemma EncodeLength(v: string)
    ensures |Encode(v)| < 2 <==> v == [] || (|v| == 1 && !Reserved(v[0]))
    ensures v != [] ==> |Encode(v)| > 0 && !('0' <= Encode(v)[0] <= '9')
  {
    if |v| > 1 {
      EncodeLength(v[1..]);
    }
  }

  /** Decoding undoes encoding exactly for the clean texts: encoding leaves '%' alone, so one
      with two more characters behind it is read as a triple. */
  lemma {:induction false} DecodeUndoesEncode(v: string)
    ensures Decode(Encode(v)) == v <==> Clean(v)
  {
    if v != [] {
      var rest := v[1..];
      DecodeUndoesEncode(rest);
      EncodeLength(rest);
      if v[0] != '%' {
        HeadDecodes(v[0], Encode(rest));
      } else if |Encode(rest)| >= 2 {
        var s := Encode(v);
        assert s[1..3] == [Encode(rest)[0], Encode(rest)[1]];
        NeverPercent(Encode(rest)[0], Encode(rest)[1]);
        assert !Clean(v);
      } else {
        assert Encode(v)[1..] == Encode(rest);
      }
    }
  }

  /** How often '%' occurs. */
  function Percents(s: string): (n: nat) {
    if s == [] then 0 else (if s[0] == '%' then 1 else 0) + Percents(s[1..])
  }

  lemma {:induction false} PercentsOfSum(a: string, b: string)
    ensures Percents(a + b) == Percents(a) + Percents(b)
  {
    if a == [] {
      assert a + b == b;
    } else {
      assert (a + b)[0] == a[0] && (a + b)[1..] == a[1..] + b;
      PercentsOfSum(a[1..], b);
    }
  }

  /** Characters that are neither '%' nor '+' decode to themselves. */
  lemma {:induction false} PlainDecodes(tail: string, rest: string)
    requires '%' !in tail && '+' !in tail
    ensures Decode(tail + rest) == tail + Decode(rest) && Percents(tail) == 0
  {
    if tail == [] {
      assert tail + rest == rest;
    } else {
      assert (tail + rest)[0] == tail[0] && (tail + rest)[1..] == tail[1..] + rest;
      PlainDecodes(tail[1..], rest);
    }
  }

  lemma BehindOne(v: string) returns (tail: string, rest: string)
    requires v != []
    ensures '%' !in tail && '+' !in tail && Encode(v)[1..] == tail + Encode(rest)
    ensures |rest| < |v| && Percents(rest) <= Percents(v)
  {
    var e := EncodeChar(v[0]);
    tail, rest := e[1..], v[1..];
    assert Encode(v) == e + Encode(rest);
    assert (e + Encode(rest))[1..] == e[1..] + Encode(rest);
  }

  /** What is left of an encoded text when its first two characters are taken: some characters of a
      triple, and an encoded text again. */
  lemma BehindTwo(v: string) returns (tail: string, rest: string)
    requires |Encode(v)| >= 2
    ensures '%' !in tail && '+' !in tail && Encode(v)[2..] == tail + Encode(rest)
    ensures |rest| < |v| && Percents(rest) <= Percents(v)
  {
    var e := EncodeChar(v[0]);
    if |e| == 3 {
      tail, rest := e[2..], v[1..];
    } else {
      tail, rest := BehindOne(v[1..]);
      assert Encode(v)[2..] == Encode(v[1..])[1..];
    }
  }

  /** Encoding and decoding never adds a '%', and loses one unless the text is clean. */
  lemma {:induction false} LosesPercents(v: string)
    ensures Percents(Decode(Encode(v))) <= Percents(v)
    ensures !Clean(v) ==> Percents(Decode(Encode(v))) < Percents(v)
    decreases |v|
  {
    if v != [] {
      var rest := v[1..];
      EncodeLength(rest);
      if v[0] != '%' {
        HeadDecodes(v[0], Encode(rest));
        LosesPercents(rest);
      } else if |Encode(rest)| >= 2 {
        LosesTriple(rest);
        var tail, later := BehindTwo(rest);
        PlainDecodes(tail, Encode(later));
        PercentsOfSum(tail, Decode(Encode(later)));
        LosesPercents(later);
      } else {
        assert Encode(v)[1..] == Encode(rest);
        LosesPercents(rest);
      }
    }
  }

  lemma LosesTriple(rest: string)
    requires |Encode(rest)| >= 2
    ensures Percents(Decode("%" + Encode(rest))) == Percents(Decode(Encode(rest)[2..]))
  {
    var e := Encode(rest);
    var s := "%" + e;
    EncodeLength(rest);
    NeverPercent(e[0], e[1]);
    assert s[1..3] == [e[0], e[1]] && s[3..] == e[2..];
    assert Decode(s) == [DecodedChar([e[0], e[1]])] + Decode(e[2..]);
    PercentsOfSum([DecodedChar([e[0], e[1]])], Decode(e[2..]));
    assert [DecodedChar([e[0], e[1]])][1..] == [];
  }

  /** What each character is encoded as: a blank as '+', these punctuation characters and the decimal
      digits as triples, and every other character as itself. */
  lemma EncodedAs(c: char)
    ensures c == ' ' ==> EncodeChar(c) == "+"
    ensures c in "!#$&'()*+,/:;=?@[]0123456789" ==>
      EncodeChar(c) == ['%', "0123456789ABCDEF"[c as int / 16], "0123456789ABCDEF"[c as int % 16]]
    ensures c != ' ' && c !in "!#$&'()*+,/:;=?@[]0123456789" ==> EncodeChar(c) == [c]
  {
    var listed := "!#$&'()*+,/:;=?@[]0123456789";
    if Reserved(c) {
      var k := ListedAt(c);
      assert listed[k] == c;
    }
    if c in listed {
      UpperHexIs(c as int / 16);
      UpperHexIs(c as int % 16);
    }
  }

  lemma UpperHexIs(d: nat)
    requires d < 16
    ensures UpperHex(d) == "0123456789ABCDEF"[d]
  {
  }

  /** Where a reserved character is in the list. */
  lemma ListedAt(c: char) returns (k: nat)
    requires Reserved(c)
    ensures k < 28 && "!#$&'()*+,/:;=?@[]0123456789"[k] == c
  {
    k := if c == '!' then 0 else if c == '#' then 1 else if c == '$' then 2
    else if '&' <= c <= ',' then 3 + (c as int - '&' as int)
    else if c == '/' then 10 else if '0' <= c <= '9' then 18 + (c as int - '0' as int)
    else if c == ':' then 11 else if c == ';' then 12 else if c == '=' then 13 else if c == '?' then 14
    else if c == '@' then 15 else if c == '[' then 16 else 17;
  }

  /** Encoding goes character by character. */
  lemma {:induction false} EncodeAppend(v: string, c: char)
    ensures Encode("") == "" && Encode(v + [c]) == Encode(v) + EncodeChar(c)
  {
    if v == "" {
      assert v + [c] == [c] && [c][1..] == "";
    } else {
      assert (v + [c])[1..] == v[1..] + [c];
      EncodeAppend(v[1..], c);
    }
  }

  /** What is decoded: '+' to a blank, '%' and two digits of either case to the character of that
      number, a '%' with less than two characters behind it and every other character to itself. */
  lemma DecodedAs(c: char, rest: string)
    requires c != '%' || |rest| < 2
    ensures Decode("") == ""
    ensures Decode([c] + rest) == [if c == '+' then ' ' else c] + Decode(rest)
  {
    assert ([c] + rest)[1..] == rest;
  }

  lemma TripleDecodedAs(h: char, l: char, rest: string)
    requires DigitValue(h) < 16 && DigitValue(l) < 16
    ensures Decode(['%', h, l] + rest) == [(DigitValue(h) * 16 + DigitValue(l)) as char] + Decode(rest)
  {
    var s := ['%', h, l] + rest;
    assert s[1..3] == [h, l] && s[3..] == rest;
    HexPairDecodes(h, l);
  }
}
