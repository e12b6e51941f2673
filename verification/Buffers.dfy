/** Memory buffers, sequences of buffers, and the copy between two sequences. */
module Buffers {
  import opened Text

  /** `mutable_buffer` and `const_buffer`: a run of bytes in memory, not owned. The memory is an
      array, and an empty buffer may have none. */
  datatype Buffer = Buffer(data: array?<char>, start: nat, size: nat) {
    predicate Valid() {
      size == 0 || (data != null && start + size <= data.Length)
    }

    /** The bytes in view. */
    ghost function Bytes(): (r: seq<char>)
      requires Valid()
      reads data
      ensures |r| == size
    {
      if size == 0 then [] else data[start..start + size]
    }

    /** `b + n`: the buffer without its first n bytes, empty if there are fewer. */
    function Advance(n: nat): (b: Buffer)
      requires Valid()
      ensures b.Valid() && b.data == data && b.size == if n < size then size - n else 0
      ensures b.start + b.size == start + size
    {
      var offset := if n < size then n else size;
      Buffer(data, start + offset, size - offset)
    }

    /** `buffer(b, max)`: at most the first `max` bytes. */
    function Limit(max: nat): (b: Buffer)
      requires Valid()
      ensures b.Valid() && b.data == data && b.start == start && b.size == Min(size, max)
    {
      Buffer(data, start, if size < max then size else max)
    }

    /** The two buffers share no byte of memory. */
    predicate Apart(other: Buffer) {
      size == 0 || other.size == 0 || data != other.data ||
      start + size <= other.start || other.start + other.size <= start
    }
  }

  ghost function Memory(buffers: seq<Buffer>): (r: set<object>) {
    set b | b in buffers && b.data != null :: b.data
  }

  ghost predicate AllValid(buffers: seq<Buffer>) {
    forall k {:trigger buffers[k].Valid()} :: 0 <= k < |buffers| ==> buffers[k].Valid()
  }

  /** `buffer_size`: the total number of bytes. */
  function Total(buffers: seq<Buffer>): (r: nat) {
    if buffers == [] then 0 else buffers[0].size + Total(buffers[1..])
  }

  /** The bytes of each buffer. */
  ghost function Pieces(buffers: seq<Buffer>): (r: seq<seq<char>>)
    requires AllValid(buffers)
    reads Memory(buffers)
    ensures |r| == |buffers|
    ensures forall k :: 0 <= k < |r| ==> r[k] == buffers[k].Bytes()
  {
    if buffers == [] then []
    else
      assert AllValid(buffers[1..]);
      [buffers[0].Bytes()] + Pieces(buffers[1..])
  }

  /** The flat view of a sequence of buffers: all their bytes, end to end. */
  ghost function Flat(buffers: seq<Buffer>): (r: seq<char>)
    requires AllValid(buffers)
    reads Memory(buffers)
  {
    FlatFrom(buffers, 0)
  }

  ghost function FlatFrom(buffers: seq<Buffer>, k: nat): (r: seq<char>)
    requires AllValid(buffers) && k <= |buffers|
    reads Memory(buffers)
    decreases |buffers| - k
  {
    if k == |buffers| then []
    else
      assert buffers[k].Valid();
      buffers[k].Bytes() + FlatFrom(buffers, k + 1)
  }

  lemma {:induction false} FlatFromConcat(buffers: seq<Buffer>, k: nat)
    requires AllValid(buffers) && k <= |buffers|
    ensures FlatFrom(buffers, k) == Concat(Pieces(buffers)[k..])
    decreases |buffers| - k
  {
    if k < |buffers| {
      FlatFromConcat(buffers, k + 1);
      assert Pieces(buffers)[k..][1..] == Pieces(buffers)[k + 1..];
      assert Pieces(buffers)[k..][0] == buffers[k].Bytes() by { assert buffers[k].Valid(); }
    }
  }

  lemma FlatConcat(buffers: seq<Buffer>)
    requires AllValid(buffers)
    ensures Flat(buffers) == Concat(Pieces(buffers))
  {
    FlatFromConcat(buffers, 0);
    assert Pieces(buffers)[0..] == Pieces(buffers);
  }

  /** No byte of a target is also a byte of another target or of a source. */
  ghost predicate Separate(targets: seq<Buffer>, sources: seq<Buffer>) {
    && (forall i, j {:trigger targets[i].Apart(targets[j])} ::
          0 <= i < |targets| && 0 <= j < |targets| && i != j ==> targets[i].Apart(targets[j]))
    && (forall i, j {:trigger targets[i].Apart(sources[j])} ::
          0 <= i < |targets| && 0 <= j < |sources| ==> targets[i].Apart(sources[j]))
  }

  ghost predicate Covers(buffers: seq<Buffer>, a: object, k: int) {
    exists b :: b in buffers && b.data == a && b.start <= k < b.start + b.size
  }

  /** Memory outside the given buffers has kept its bytes. */
  twostate predicate OthersKept(buffers: seq<Buffer>)
    reads Memory(buffers)
  {
    forall a: array<char>, k: int {:trigger Covers(buffers, a, k)} ::
      a in Memory(buffers) && 0 <= k < a.Length && !Covers(buffers, a, k) ==> a[k] == old(a[k])
  }

  function Min(a: nat, b: nat): (r: nat) {
    if a < b then a else b
  }

  /** What the two views show. */
  lemma BytesOfViews(b: Buffer, n: nat)
    requires b.Valid()
    ensures b.Advance(n).Bytes() == b.Bytes()[Min(n, b.size)..]
    ensures b.Limit(n).Bytes() == b.Bytes()[..Min(n, b.size)]
  {
  }

  /** `buffer_copy_1`: one `memcpy` of as many bytes as fit. */
  method BufferCopy1(target: Buffer, source: Buffer) returns (n: nat)
    requires target.Valid() && source.Valid() && target.Apart(source)
    modifies target.data
    ensures n == Min(target.size, source.size)
    ensures target.Bytes() == old(source.Bytes())[..n] + old(target.Bytes())[n..]
    ensures target.data != null ==>
      forall k :: 0 <= k < target.data.Length && !(target.start <= k < target.start + n)
        ==> target.data[k] == old(target.data[k])
  {
    n := if target.size < source.size then target.size else source.size;
    if n > 0 {
      forall k | 0 <= k < n {
        target.data[target.start + k] := source.data[source.start + k];
      }
    }
  }

  lemma {:induction false} ConcatSplit<T>(pieces: seq<seq<T>>, k: nat)
    requires k < |pieces|
    ensures Concat(pieces) == Concat(pieces[..k]) + pieces[k] + Concat(pieces[k + 1..])
  {
    assert pieces == pieces[..k] + ([pieces[k]] + pieces[k + 1..]);
    ConcatAppend(pieces[..k], [pieces[k]] + pieces[k + 1..]);
    assert ([pieces[k]] + pieces[k + 1..])[1..] == pieces[k + 1..];
    assert Concat([pieces[k]] + pieces[k + 1..]) == pieces[k] + Concat(pieces[k + 1..]);
  }

  /** Overwriting a stretch of one piece overwrites the same stretch of the whole. */
  lemma Overwrite<T>(pieces: seq<seq<T>>, k: nat, offset: nat, chunk: seq<T>, after: seq<seq<T>>)
    requires k < |pieces| == |after| && offset + |chunk| <= |pieces[k]|
    requires forall j :: 0 <= j < |pieces| && j != k ==> after[j] == pieces[j]
    requires after[k] == pieces[k][..offset] + chunk + pieces[k][offset + |chunk|..]
    ensures var at := |Concat(pieces[..k])| + offset;
            var all := Concat(pieces);
            at + |chunk| <= |all| && Concat(after) == all[..at] + chunk + all[at + |chunk|..]
  {
    ConcatSplit(pieces, k);
    ConcatSplit(after, k);
    assert after[..k] == pieces[..k] && after[k + 1..] == pieces[k + 1..];
    WithinMiddle(Concat(pieces[..k]), pieces[k], Concat(pieces[k + 1..]), offset, chunk);
  }

  lemma WithinMiddle<T>(a: seq<T>, b: seq<T>, c: seq<T>, offset: nat, chunk: seq<T>)
    requires offset + |chunk| <= |b|
    ensures var all, at := a + b + c, |a| + offset;
            a + (b[..offset] + chunk + b[offset + |chunk|..]) + c == all[..at] + chunk + all[at + |chunk|..]
  {
    var all, at, n := a + b + c, |a| + offset, |chunk|;
    assert all[..at] == a + b[..offset];
    assert all[at + n..] == b[offset + n..] + c;
  }

  /** A stretch of one piece is a stretch of the whole. */
  lemma Inside<T>(pieces: seq<seq<T>>, k: nat, offset: nat, n: nat)
    requires k < |pieces| && offset + n <= |pieces[k]|
    ensures var at := |Concat(pieces[..k])| + offset;
            at + n <= |Concat(pieces)| && Concat(pieces)[at..at + n] == pieces[k][offset..offset + n]
  {
    ConcatSplit(pieces, k);
  }

  lemma {:induction false} TotalIsLength(buffers: seq<Buffer>, k: nat)
    requires AllValid(buffers) && k <= |buffers|
    ensures |Concat(Pieces(buffers)[..k])| == Total(buffers[..k])
  {
    if k > 0 {
      var pieces, rest := Pieces(buffers), buffers[1..];
      TotalIsLength(rest, k - 1);
      assert pieces[..k][1..] == Pieces(rest)[..k - 1];
      assert buffers[..k][1..] == rest[..k - 1];
    }
  }

  lemma FlatLength(buffers: seq<Buffer>)
    requires AllValid(buffers)
    ensures |Flat(buffers)| == Total(buffers)
  {
    TotalIsLength(buffers, |buffers|);
    FlatConcat(buffers);
    assert buffers[..|buffers|] == buffers && Pieces(buffers)[..|buffers|] == Pieces(buffers);
  }

  lemma {:induction false} TotalNext(buffers: seq<Buffer>, k: nat)
    requires k < |buffers|
    ensures Total(buffers[..k + 1]) == Total(buffers[..k]) + buffers[k].size
  {
    if k == 0 {
      assert buffers[..1] == [buffers[0]];
    } else {
      TotalNext(buffers[1..], k - 1);
      assert buffers[..k + 1][1..] == buffers[1..][..k] && buffers[..k][1..] == buffers[1..][..k - 1];
    }
  }

  lemma {:induction false} TotalPrefix(buffers: seq<Buffer>, k: nat)
    requires k <= |buffers|
    ensures Total(buffers[..k]) <= Total(buffers)
    decreases |buffers| - k
  {
    if k == |buffers| {
      assert buffers[..k] == buffers;
    } else {
      TotalNext(buffers, k);
      TotalPrefix(buffers, k + 1);
    }
  }

  /** A byte of a buffer in the flat view. */
  lemma FlatAt(buffers: seq<Buffer>, k: nat, i: nat)
    requires AllValid(buffers) && k < |buffers| && i < buffers[k].size
    ensures buffers[k].Valid() && Total(buffers[..k]) + i < |Flat(buffers)|
    ensures Flat(buffers)[Total(buffers[..k]) + i] == buffers[k].Bytes()[i]
  {
    assert buffers[k].Valid();
    FlatConcat(buffers);
    TotalIsLength(buffers, k);
    Inside(Pieces(buffers), k, i, 1);
    assert buffers[k].Bytes()[i] == buffers[k].Bytes()[i..i + 1][0];
  }

  /** `buffer_size` */
  method BufferSize(buffers: seq<Buffer>) returns (totalBufferSize: nat)
    requires AllValid(buffers)
    ensures totalBufferSize == |Flat(buffers)|
  {
    totalBufferSize := 0;
    var k := 0;
    while k < |buffers|
      invariant 0 <= k <= |buffers| && totalBufferSize == Total(buffers[..k])
    {
      TotalNext(buffers, k);
      totalBufferSize := totalBufferSize + buffers[k].size;
      k := k + 1;
    }
    assert buffers[..k] == buffers;
    FlatLength(buffers);
  }
}
