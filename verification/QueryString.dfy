/** Query strings: creation, the one-pass parser, and what the parser means. */
module QueryString {
  import opened Text
  import opened Percent
  import opened Http

  function CreateField(f: Field): (s: string) {
    f.0 + "=" + Encode(f.1)
  }

  function Create(fields: seq<Field>): (s: string) {
    if fields == [] then []
    else if |fields| == 1 then CreateField(fields[0])
    else CreateField(fields[0]) + "&" + Create(fields[1..])
  }

  /** The field of one '&'-free piece: the name is what precedes the last '=', the value what
      follows it; a piece without a name gives no field. */
  function PieceFields(piece: string): (fields: seq<Field>) {
    var eq := RFind(piece, '=');
    var name := if eq.None? then piece else piece[..eq.value];
    var value := if eq.None? then "" else piece[eq.value + 1..];
    if name == "" then [] else [(name, Decode(value))]
  }

  /** The meaning of a query string: cut it at every '&' and take the field of each piece. */
  function Fields(query: string): (fields: seq<Field>)
    decreases |query|
  {
    var end := Find(query, '&');
    if end.None? then PieceFields(query)
    else PieceFields(query[..end.value]) + Fields(query[end.value + 1..])
  }

  method CreateLoop(fields: seq<Field>) returns (result: string)
    ensures result == Create(fields)
  {
    result := "";
    var first := true;
    var i := 0;
    while i < |fields|
      invariant 0 <= i <= |fields| && (first <==> i == 0)
      invariant result == Create(fields[..i])
    {
      ghost var done := fields[..i];
      result := result + ((if !first then "&" else "") + (fields[i].0 + "=" + Encode(fields[i].1)));
      CreateAppend(done, fields[i]);
      assert fields[..i + 1] == done + [fields[i]];
      first := false;
      i := i + 1;
    }
    assert fields[..i] == fields;
  }

  lemma {:induction false} CreateAppend(fields: seq<Field>, f: Field)
    ensures Create(fields + [f])
            == Create(fields) + ((if fields == [] then "" else "&") + CreateField(f))
  {
    if fields == [] {
      assert fields + [f] == [f];
    } else {
      var head, tail := CreateField(fields[0]), fields[1..];
      CreateAppend(tail, f);
      assert (fields + [f])[0] == fields[0] && (fields + [f])[1..] == tail + [f];
    }
  }

  /** What the parser's positions say about the piece it has entered: where the last '=' of
      `query[start..c]` is. */
  ghost predicate Tracks(query: string, start: nat, c: nat, nameEnd: Option<nat>, value: Option<nat>) {
    && start <= c <= |query|
    && (forall k :: start <= k < c ==> query[k] != '&')
    && (nameEnd.None? ==> value.None? && forall k :: start <= k < c ==> query[k] != '=')
    && (nameEnd.Some? ==>
          && start <= nameEnd.value < c && query[nameEnd.value] == '='
          && (forall k :: nameEnd.value < k < c ==> query[k] != '=')
          && value == Some(nameEnd.value + 1))
  }

  /** One more character looked at. */
  lemma TracksNext(query: string, start: nat, c: nat, nameEnd: Option<nat>, value: Option<nat>)
    requires Tracks(query, start, c, nameEnd, value) && c < |query|
    ensures query[c] == '&' ==> Tracks(query, c + 1, c + 1, None, None)
    ensures query[c] == '=' ==> Tracks(query, start, c + 1, Some(c), Some(c + 1))
    ensures query[c] != '&' && query[c] != '=' ==> Tracks(query, start, c + 1, nameEnd, value)
  {
  }

  /** The parser's work at an '&': cut the name and the value out of the piece that ends at `c`. */
  method EndPiece(query: string, namePos: nat, c: nat, nameEndPos: Option<nat>, valuePos: Option<nat>)
    returns (emitted: seq<Field>)
    requires Tracks(query, namePos, c, nameEndPos, valuePos)
    ensures emitted == PieceFields(query[namePos..c])
  {
    LastEquals(query, namePos, c, nameEndPos);
    ghost var piece := query[namePos..c];
    var name := query[namePos..if nameEndPos.None? then c else nameEndPos.value];
    emitted := [];
    if name != "" {
      var value := if valuePos.None? then "" else query[valuePos.value..c];
      assert nameEndPos.Some? ==> piece[nameEndPos.value - namePos + 1..] == value;
      emitted := [(name, Decode(value))];
    }
    assert name == if nameEndPos.None? then piece else piece[..nameEndPos.value - namePos];
  }

  /** The parser's work behind the loop, where the last piece ends with the query. */
  method EndQuery(query: string, namePos: nat, nameEndPos: Option<nat>, valuePos: Option<nat>)
    returns (emitted: seq<Field>)
    requires Tracks(query, namePos, |query|, nameEndPos, valuePos)
    ensures emitted == PieceFields(query[namePos..])
  {
    LastEquals(query, namePos, |query|, nameEndPos);
    ghost var piece := query[namePos..];
    assert query[namePos..|query|] == piece;
    emitted := [];
    if namePos < |query| {
      var name := Substr(query, namePos, if nameEndPos.None? then -1 else nameEndPos.value - namePos);
      assert name == if nameEndPos.None? then piece else piece[..nameEndPos.value - namePos];
      if name != "" {
        var value := if valuePos.None? || valuePos.value >= |query| then "" else query[valuePos.value..];
        assert nameEndPos.Some? ==> piece[nameEndPos.value - namePos + 1..] == value;
        emitted := [(name, Decode(value))];
      }
    }
  }

  /** The one-pass parser means `Fields` on every input. */
  method ParseLoop(query: string) returns (result: seq<Field>)
    ensures result == Fields(query)
  {
    result := [];
    if query == "" {
      return;
    }
    var namePos: nat := 0;
    var nameEndPos: Option<nat> := None;
    var valuePos: Option<nat> := None;
    var c := 0;
    ghost var pending := Fields(query);
    assert query[0..] == query;
    while c < |query|
      invariant Tracks(query, namePos, c, nameEndPos, valuePos)
      invariant result + pending == Fields(query) && pending == Fields(query[namePos..])
    {
      TracksNext(query, namePos, c, nameEndPos, valuePos);
      if query[c] == '&' {
        var emitted := EndPiece(query, namePos, c, nameEndPos, valuePos);
        pending := PieceDone(result, query, namePos, c);
        result := result + emitted;
        namePos := c + 1;
        nameEndPos, valuePos := None, None;
      } else if query[c] == '=' {
        nameEndPos, valuePos := Some(c), Some(c + 1);
      }
      c := c + 1;
    }
    var emitted := EndQuery(query, namePos, nameEndPos, valuePos);
    FieldsLast(query[namePos..]);
    result := result + emitted;
  }

  /** The piece that ends at a position, and the rest behind it. */
  lemma FieldsFrom(query: string, start: nat, c: nat)
    requires start <= c < |query| && query[c] == '&'
    requires forall k :: start <= k < c ==> query[k] != '&'
    ensures Fields(query[start..]) == PieceFields(query[start..c]) + Fields(query[c + 1..])
  {
    assert query[start..] == query[start..c] + "&" + query[c + 1..];
    FieldsSplit(query[start..c], query[c + 1..]);
  }

  /** The fields found so far and those to come stay together when a piece moves over. */
  lemma PieceDone(found: seq<Field>, query: string, start: nat, c: nat) returns (rest: seq<Field>)
    requires start <= c < |query| && query[c] == '&'
    requires forall k :: start <= k < c ==> query[k] != '&'
    ensures rest == Fields(query[c + 1..])
    ensures found + PieceFields(query[start..c]) + rest == found + Fields(query[start..])
  {
    FieldsFrom(query, start, c);
    rest := Fields(query[c + 1..]);
    var emitted := PieceFields(query[start..c]);
    assert found + emitted + rest == found + (emitted + rest);
  }

  lemma FieldsLast(piece: string)
    requires '&' !in piece
    ensures Fields(piece) == PieceFields(piece)
  {
  }

  /** Cutting at the first '&'. */
  lemma FieldsSplit(piece: string, tail: string)
    requires '&' !in piece
    ensures Fields(piece + "&" + tail) == PieceFields(piece) + Fields(tail)
  {
    var query := piece + "&" + tail;
    FindIs(query, '&', 0, |piece|);
    assert query[..|piece|] == piece && query[|piece| + 1..] == tail;
  }

  /** A position counted from `start`. */
  ghost function Relative(pos: Option<nat>, start: nat): (r: Option<nat>)
    requires pos.Some? ==> start <= pos.value
  {
    if pos.None? then None else Some(pos.value - start)
  }

  lemma LastEquals(query: string, start: nat, end: nat, eq: Option<nat>)
    requires start <= end <= |query|
    requires eq.None? ==> forall k :: start <= k < end ==> query[k] != '='
    requires eq.Some? ==> start <= eq.value < end && query[eq.value] == '='
    requires eq.Some? ==> forall k :: eq.value < k < end ==> query[k] != '='
    ensures RFind(query[start..end], '=') == Relative(eq, start)
  {
    var piece := query[start..end];
    if eq.Some? {
      RFindIs(piece, '=', eq.value - start);
    }
  }

  /** The names that survive `Create` and `Fields`. */
  predicate Usable(f: Field) {
    f.0 != "" && '&' !in f.0
  }

  /** The fields that do. */
  predicate Good(f: Field) {
    Usable(f) && Clean(f.1)
  }

  lemma EncodeHasNoSeparator(v: string)
    ensures '&' !in Encode(v) && '=' !in Encode(v)
  {
    if v != [] {
      EncodeHasNoSeparator(v[1..]);
    }
  }

  /** A printed field with a usable name is read as that name and its value decoded again. */
  lemma FieldReadBack(f: Field)
    requires Usable(f)
    ensures '&' !in CreateField(f)
    ensures PieceFields(CreateField(f)) == [(f.0, Decode(Encode(f.1)))]
  {
    EncodeHasNoSeparator(f.1);
    var piece := CreateField(f);
    RFindIs(piece, '=', |f.0|);
    assert piece[..|f.0|] == f.0 && piece[|f.0| + 1..] == Encode(f.1);
  }

  lemma {:induction false} FieldsOfCreate(fields: seq<Field>)
    requires forall f :: f in fields ==> Usable(f)
    ensures |Fields(Create(fields))| == |fields|
    ensures forall i :: 0 <= i < |fields| ==>
      Fields(Create(fields))[i] == (fields[i].0, Decode(Encode(fields[i].1)))
  {
    if fields != [] {
      var head := CreateField(fields[0]);
      FieldReadBack(fields[0]);
      if |fields| > 1 {
        FieldsOfCreate(fields[1..]);
        FieldsSplit(head, Create(fields[1..]));
      }
    }
  }

  lemma {:induction false} ParsedNamesAreUsable(query: string)
    ensures forall f :: f in Fields(query) ==> Usable(f)
    decreases |query|
  {
    var end := Find(query, '&');
    if end.Some? {
      ParsedNamesAreUsable(query[end.value + 1..]);
    }
  }

  /** How often '%' occurs in the values. */
  function ValuePercents(fields: seq<Field>): (n: nat) {
    if fields == [] then 0 else Percents(fields[0].1) + ValuePercents(fields[1..])
  }

  lemma {:induction false} WithoutOne(fields: seq<Field>, k: nat)
    requires k < |fields|
    ensures ValuePercents(fields) == Percents(fields[k].1) + ValuePercents(fields[..k] + fields[k + 1..])
  {
    if k == 0 {
      assert fields[..0] + fields[1..] == fields[1..];
    } else {
      var rest := fields[..k] + fields[k + 1..];
      assert rest[1..] == fields[1..][..k - 1] + fields[1..][k..];
      WithoutOne(fields[1..], k - 1);
    }
  }

  lemma WithoutOneSame(a: seq<Field>, b: seq<Field>, k: nat)
    requires multiset(a) == multiset(b) && a != [] && k < |b| && b[k] == a[0]
    ensures multiset(a[1..]) == multiset(b[..k] + b[k + 1..])
  {
    assert a == [a[0]] + a[1..];
    assert multiset(a[1..]) == multiset(a) - multiset{a[0]};
    assert b == b[..k] + [b[k]] + b[k + 1..];
    assert multiset(b[..k] + b[k + 1..]) == multiset(b) - multiset{b[k]};
  }

  /** The order of the fields does not matter. */
  lemma {:induction false} SameValuePercents(a: seq<Field>, b: seq<Field>)
    requires multiset(a) == multiset(b)
    ensures ValuePercents(a) == ValuePercents(b)
  {
    if a == [] {
      assert |multiset(b)| == |b|;
    } else {
      assert a[0] in multiset(b);
      var k :| 0 <= k < |b| && b[k] == a[0];
      WithoutOneSame(a, b, k);
      SameValuePercents(a[1..], b[..k] + b[k + 1..]);
      WithoutOne(b, k);
    }
  }

  /** What is read back of values that are not all clean has fewer '%'. */
  lemma {:induction false} ReadBackPercents(fields: seq<Field>, read: seq<Field>)
    requires |read| == |fields|
    requires forall i :: 0 <= i < |fields| ==> read[i] == (fields[i].0, Decode(Encode(fields[i].1)))
    ensures ValuePercents(read) <= ValuePercents(fields)
    ensures (exists i :: 0 <= i < |fields| && !Clean(fields[i].1)) ==> ValuePercents(read) < ValuePercents(fields)
  {
    if fields != [] {
      LosesPercents(fields[0].1);
      ReadBackPercents(fields[1..], read[1..]);
      assert forall i :: 0 < i < |fields| ==> fields[i] == fields[1..][i - 1];
    }
  }

  lemma UsableRoundTrip(fields: seq<Field>, read: seq<Field>)
    requires |read| == |fields|
    requires forall i :: 0 <= i < |fields| ==> read[i] == (fields[i].0, Decode(Encode(fields[i].1)))
    ensures read == fields <==> forall i :: 0 <= i < |fields| ==> Clean(fields[i].1)
    ensures multiset(read) == multiset(fields) ==> read == fields
  {
    forall i | 0 <= i < |fields| ensures read[i] == fields[i] <==> Clean(fields[i].1) {
      DecodeUndoesEncode(fields[i].1);
    }
    ReadBackPercents(fields, read);
    if multiset(read) == multiset(fields) {
      SameValuePercents(read, fields);
    }
  }

  /** Parsing a created query string gives the fields back, in whatever order the multimaps iterate,
      exactly when every name is non-empty and free of '&' and every value is clean. A name may
      hold '='. */
  lemma RoundTrip(fields: seq<Field>)
    ensures multiset(Fields(Create(fields))) == multiset(fields) <==> forall f :: f in fields ==> Good(f)
    ensures Fields(Create(fields)) == fields <==> forall f :: f in fields ==> Good(f)
  {
    var read := Fields(Create(fields));
    ParsedNamesAreUsable(Create(fields));
    if forall f :: f in fields ==> Usable(f) {
      FieldsOfCreate(fields);
      UsableRoundTrip(fields, read);
      AllGoodIff(fields);
    } else {
      var f :| f in fields && !Usable(f);
      NotRead(fields, read, f);
      assert !Good(f);
    }
  }

  lemma AllGoodIff(fields: seq<Field>)
    requires forall f :: f in fields ==> Usable(f)
    ensures (forall i :: 0 <= i < |fields| ==> Clean(fields[i].1)) <==> forall f :: f in fields ==> Good(f)
  {
    if forall f :: f in fields ==> Good(f) {
      forall i | 0 <= i < |fields| ensures Clean(fields[i].1) {
        assert fields[i] in fields && Good(fields[i]);
      }
    }
  }

  lemma NotRead(fields: seq<Field>, read: seq<Field>, f: Field)
    requires f in fields && f !in read
    ensures multiset(read) != multiset(fields)
  {
    assert f in multiset(fields) && f !in multiset(read);
  }

  /** What a piece gives: its name and the decoded value behind the last '=', an empty value if there
      is no '=', and nothing if the name is empty. */
  lemma PieceGives(name: string, value: string)
    requires '=' !in value
    ensures PieceFields(name + "=" + value) == if name == "" then [] else [(name, Decode(value))]
    ensures PieceFields(value) == if value == "" then [] else [(value, "")]
  {
    var piece := name + "=" + value;
    RFindIs(piece, '=', |name|);
    assert piece[..|name|] == name && piece[|name| + 1..] == value;
  }

  /** What a created query string reads: a field is its name, '=' and its encoded value, with '&'
      between two fields. */
  lemma CreateReads(fields: seq<Field>, f: Field)
    ensures Create([]) == ""
    ensures Create(fields + [f]) == Create(fields) + (if fields == [] then "" else "&") + f.0 + "=" + Encode(f.1)
  {
    CreateAppend(fields, f);
  }
}
