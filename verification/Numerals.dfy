/** Numerals: what `std::to_string`, `printf` and `std::hex` print, and how `std::stoul` and
    `std::strtol` read it back. */
module Numerals {
  import opened Text

  const ULONG_LIMIT := 0x1_0000_0000_0000_0000

  function DigitChar(d: nat): (c: char)
    requires d < 16
    ensures DigitValue(c) == d && (c == '0' <==> d == 0)
  {
    if d < 10 then ('0' as int + d) as char else ('a' as int + (d - 10)) as char
  }

  /** The value of an alphanumeric digit of either case; 36 for every other character. */
  function DigitValue(c: char): (v: nat)
    ensures v <= 36
  {
    if '0' <= c <= '9' then c as int - '0' as int
    else if 'a' <= c <= 'z' then c as int - 'a' as int + 10
    else if 'A' <= c <= 'Z' then c as int - 'A' as int + 10
    else 36
  }

  /** The bases that numerals are printed in. */
  predicate PrintBase(base: nat) {
    base == 10 || base == 16
  }

  /** Everything but the last digit of `n`, and the last digit. */
  function SplitDigit(n: nat, base: nat): (r: (nat, nat))
    requires PrintBase(base)
    ensures r.0 * base + r.1 == n && r.1 < base
    ensures n >= base ==> r.0 < n
  {
    if base == 10 then (n / 10, n % 10) else (n / 16, n % 16)
  }

  /** The digits of `n`, most significant first, without leading zeros. */
  function Print(n: nat, base: nat): (s: string)
    requires PrintBase(base)
    decreases n
    ensures |s| > 0
    ensures forall c :: c in s ==> DigitValue(c) < base
  {
    if n < base then [DigitChar(n)]
    else var (high, low) := SplitDigit(n, base); Print(high, base) + [DigitChar(low)]
  }

  /** The length of the longest run of base digits that `s` starts with. */
  function DigitRun(s: string, base: nat): (n: nat)
    ensures n <= |s|
    ensures forall k :: 0 <= k < n ==> DigitValue(s[k]) < base
    ensures n < |s| ==> DigitValue(s[n]) >= base
  {
    if s == [] || DigitValue(s[0]) >= base then 0 else 1 + DigitRun(s[1..], base)
  }

  function Shift(high: nat, low: nat, base: nat): (v: nat)
    requires base in {8, 10, 16}
  {
    if base == 8 then high * 8 + low else if base == 10 then high * 10 + low else high * 16 + low
  }

  /** The number that a run of digits denotes. */
  function Value(s: string, base: nat): (v: nat)
    requires base in {8, 10, 16}
  {
    if s == [] then 0 else Shift(Value(s[..|s| - 1], base), DigitValue(s[|s| - 1]), base)
  }

  predicate IsSpace(c: char) {
    c == ' ' || '\t' <= c <= '\r'
  }

  function SkipSpaces(s: string): (r: string)
    ensures |r| <= |s|
  {
    if s != [] && IsSpace(s[0]) then SkipSpaces(s[1..]) else s
  }

  predicate HasHexPrefix(s: string) {
    |s| >= 3 && s[0] == '0' && (s[1] == 'x' || s[1] == 'X') && DigitValue(s[2]) < 16
  }

  /** The digits and the base that the `strtoul` family settles on once blanks and the sign
      are gone; base 0 selects hexadecimal, octal or decimal by prefix. */
  function Digits(s: string, base: nat): (r: (string, nat))
    requires base == 0 || base == 10 || base == 16
    ensures r.1 in {8, 10, 16}
  {
    var (body, b) :=
      if (base == 0 || base == 16) && HasHexPrefix(s) then (s[2..], 16)
      else if base == 0 then (s, if s != [] && s[0] == '0' then 8 else 10)
      else (s, base);
    (body[..DigitRun(body, b)], b)
  }

  /** `strtol`: blanks, a sign, the longest numeral; 0 when there is no digit. */
  function StrToL(s: string, base: nat): (v: int)
    requires base == 0 || base == 10 || base == 16
  {
    var t := SkipSpaces(s);
    var negative := t != [] && t[0] == '-';
    var (digits, b) := Digits(if t != [] && (t[0] == '-' || t[0] == '+') then t[1..] else t, base);
    var n: int := Value(digits, b);
    if negative then -n else n
  }

  /** `stoul`: None for the two exceptions, invalid_argument (no digit) and out_of_range. */
  function StoUL(s: string, base: nat): (v: Option<nat>)
    requires base == 0 || base == 10 || base == 16
    ensures v.Some? ==> v.value < ULONG_LIMIT
  {
    var t := SkipSpaces(s);
    var negative := t != [] && t[0] == '-';
    var (digits, b) := Digits(if t != [] && (t[0] == '-' || t[0] == '+') then t[1..] else t, base);
    var n := Value(digits, b);
    if digits == [] || n >= ULONG_LIMIT then None
    else Some(if negative && n != 0 then ULONG_LIMIT - n else n)
  }

  lemma {:induction false} ValueOfPrint(n: nat, base: nat)
    requires PrintBase(base)
    ensures Value(Print(n, base), base) == n
    decreases n
  {
    if n >= base {
      var (high, low) := SplitDigit(n, base);
      ValueOfPrint(high, base);
      var s := Print(high, base);
      assert (s + [DigitChar(low)])[..|s|] == s;
    } else {
      assert Value([], base) == 0;
      assert [DigitChar(n)][..0] == [];
    }
  }

  lemma {:induction false} DigitRunStops(s: string, rest: string, base: nat)
    requires forall c :: c in s ==> DigitValue(c) < base
    requires rest == [] || DigitValue(rest[0]) >= base
    ensures DigitRun(s + rest, base) == |s|
  {
    if s == [] {
      assert s + rest == rest;
    } else {
      assert (s + rest)[1..] == s[1..] + rest;
      DigitRunStops(s[1..], rest, base);
    }
  }

  /** A printed number has no leading zero unless it is 0 itself. */
  lemma {:induction false} NoLeadingZero(n: nat, base: nat)
    requires PrintBase(base)
    ensures Print(n, base)[0] == '0' ==> n == 0 && Print(n, base) == "0"
    decreases n
  {
    if n >= base {
      NoLeadingZero(SplitDigit(n, base).0, base);
    }
  }

  /** The digits chosen from a printed number are its own, whatever non-alphanumeric text
      follows; base 0 takes every printed decimal but "0" for a decimal. */
  lemma DigitsOfPrint(n: nat, base: nat, readBase: nat, rest: string)
    requires PrintBase(base) && (readBase == base || (readBase == 0 && base == 10))
    requires rest == [] || DigitValue(rest[0]) == 36
    ensures var (digits, b) := Digits(Print(n, base) + rest, readBase);
            digits == Print(n, base) && Value(digits, b) == n
  {
    var s := Print(n, base);
    var t := s + rest;
    NoLeadingZero(n, base);
    ValueOfPrint(n, base);
    assert !HasHexPrefix(t);
    var b := if readBase == 0 && s[0] == '0' then 8 else base;
    if b == 8 {
      assert n == 0 && s == "0";
      assert "0"[..0] == "" && Value("", 8) == 0;
    }
    DigitRunStops(s, rest, b);
    assert t[..|s|] == s;
  }

  /** Reading a printed number gives it back: base 10 and 16 read their own numerals, and
      base 0 recognises every printed decimal. */
  lemma ReadBack(n: nat, base: nat, readBase: nat, rest: string)
    requires n < ULONG_LIMIT
    requires PrintBase(base) && (readBase == base || (readBase == 0 && base == 10))
    requires rest == [] || DigitValue(rest[0]) == 36
    ensures StoUL(Print(n, base) + rest, readBase) == Some(n)
  {
    var s := Print(n, base);
    var t := s + rest;
    assert s[0] in s && t[0] == s[0];
    StoULIs(t, readBase);
    DigitsOfPrint(n, base, readBase, rest);
    Unsigneds(t, readBase, Digits(t, readBase).0, Digits(t, readBase).1);
  }

  /** The digits, as they are printed and as they are read. */
  lemma DigitsAre(d: nat, c: char)
    requires d < 16
    ensures DigitChar(d) == "0123456789abcdef"[d]
    ensures DigitValue(c) == d <==> c == "0123456789abcdef"[d] || c == "0123456789ABCDEF"[d]
  {
  }

  /** The number at the front of what is left of blanks and sign, with the exceptions. */
  function Unsigned(s: string, base: nat): (v: Option<nat>)
    requires base == 0 || base == 10 || base == 16
  {
    var (digits, b) := Digits(s, base);
    if digits == "" || Value(digits, b) >= 0x1_0000_0000_0000_0000 then None else Some(Value(digits, b))
  }

  lemma Unsigneds(s: string, base: nat, digits: string, b: nat)
    requires base == 0 || base == 10 || base == 16
    requires Digits(s, base) == (digits, b)
    ensures Unsigned(s, base)
            == if digits == "" || Value(digits, b) >= 0x1_0000_0000_0000_0000 then None else Some(Value(digits, b))
  {
  }

  /** `stoul` of a text without leading blanks. */
  lemma StoULIs(s: string, base: nat)
    requires base == 0 || base == 10 || base == 16
    requires s == "" || !IsSpace(s[0])
    ensures StoUL(s, base)
            == if s == "" || s[0] !in ['+', '-'] then Unsigned(s, base)
               else if s[0] == '+' then Unsigned(s[1..], base)
               else Negated(Unsigned(s[1..], base))
  {
  }

  function Negated(v: Option<nat>): (r: Option<nat>)
    requires v.Some? ==> v.value < 0x1_0000_0000_0000_0000
    ensures v.None? ==> r == None
    ensures v.Some? ==> r.Some? && (r.value + v.value) % 0x1_0000_0000_0000_0000 == 0
  {
    if v.None? || v.value == 0 then v else Some(0x1_0000_0000_0000_0000 - v.value)
  }

  /** What may stand in front of a number: a sign, of which a minus takes the number from 2^64; and
      "0x" before hexadecimal digits. */
  lemma PlusSign(s: string, base: nat)
    requires PrintBase(base) && s != "" && DigitValue(s[0]) < base
    ensures StoUL("+" + s, base) == StoUL(s, base)
  {
    StoULIs(s, base);
    StoULIs("+" + s, base);
    assert ("+" + s)[1..] == s;
  }

  lemma MinusSign(s: string, base: nat)
    requires PrintBase(base) && s != "" && DigitValue(s[0]) < base
    ensures StoUL("-" + s, base)
            == match StoUL(s, base)
               case None => None
               case Some(n) => Some(if n == 0 then 0 else 0x1_0000_0000_0000_0000 - n)
  {
    StoULIs(s, base);
    StoULIs("-" + s, base);
    assert ("-" + s)[1..] == s;
  }

  lemma HexPrefix(s: string)
    requires s != "" && DigitValue(s[0]) < 16 && !HasHexPrefix(s)
    ensures StoUL("0x" + s, 16) == StoUL(s, 16)
  {
    var hex := "0x" + s;
    assert hex[2..] == s;
    StoULIs(s, 16);
    StoULIs(hex, 16);
    var (digits, b) := Digits(s, 16);
    assert Digits(hex, 16) == (digits, b);
    Unsigneds(hex, 16, digits, b);
    Unsigneds(s, 16, digits, b);
  }

  lemma BlanksAreSkipped(c: char, s: string, base: nat)
    requires base == 0 || base == 10 || base == 16
    requires c == ' ' || c == '\t' || c == '\n' || c as int == 11 || c as int == 12 || c == '\r'
    ensures StoUL([c] + s, base) == StoUL(s, base) && StrToL([c] + s, base) == StrToL(s, base)
  {
    assert ([c] + s)[1..] == s;
  }

  /** A number that is too large, and a text without a digit, are refused. */
  lemma TooLarge(n: nat, base: nat)
    requires PrintBase(base) && n >= 0x1_0000_0000_0000_0000
    ensures StoUL(Print(n, base), base).None?
  {
    var t := Print(n, base);
    assert t[0] in t;
    assert t + "" == t;
    DigitsOfPrint(n, base, base, "");
    StoULIs(t, base);
    Unsigneds(t, base, Digits(t, base).0, Digits(t, base).1);
  }

  lemma NoDigit(s: string, base: nat)
    requires PrintBase(base)
    requires s == "" || (DigitValue(s[0]) >= base && !IsSpace(s[0]) && s[0] != '+' && s[0] != '-')
    ensures StoUL(s, base).None?
  {
    StoULIs(s, base);
    assert !HasHexPrefix(s) && DigitRun(s, base) == 0;
  }
}
