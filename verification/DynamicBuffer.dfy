/** The dynamic buffers over a string or a vector, and their equivalence with the stream buffer.
    The two adaptors have the same body; `storage` is the string or the vector. */
module DynamicBuffer {
  import opened Text
  import opened Buffers
  import opened StreamBuf

  class DynamicBuffer {
    var storage: seq<char>
    var size: nat
    const maxSize: nat

    ghost predicate Valid()
      reads this
    {
      size <= |storage|
    }

    ghost function Contents(): (q: seq<char>)
      requires Valid()
      reads this
    {
      storage[..size]
    }

    /** The prepared area behind the input sequence. */
    ghost function Area(): (a: seq<char>)
      requires Valid()
      reads this
    {
      storage[size..]
    }

    constructor (s: seq<char>, maximumSize: nat)
      ensures Valid() && Contents() == s && Area() == [] && maxSize == maximumSize
    {
      storage, size, maxSize := s, |s|, maximumSize;
    }

    method Prepare(n: nat) returns (thrown: bool)
      requires Valid()
      modifies this
      ensures Valid() && Contents() == old(Contents())
      ensures thrown <==> |Contents()| + n > maxSize
      ensures !thrown ==> |Area()| == n
      ensures !thrown ==>
        forall k :: 0 <= k < n ==> Area()[k] == if k < old(|Area()|) then old(Area())[k] else '\0'
      ensures thrown ==> Area() == old(Area())
    {
      if size > maxSize || maxSize - size < n {
        return true;
      }
      storage := if size + n <= |storage| then storage[..size + n]
                 else storage + seq(size + n - |storage|, _ => '\0');
      return false;
    }

    /** The caller writes into the area that `Prepare` returned. */
    method Fill(at: nat, text: seq<char>)
      requires Valid() && at + |text| <= |Area()|
      modifies this
      ensures Valid() && Contents() == old(Contents())
      ensures |Area()| == old(|Area()|)
      ensures forall k :: 0 <= k < |Area()| ==>
        Area()[k] == if at <= k < at + |text| then text[k - at] else old(Area())[k]
    {
      storage := storage[..size + at] + text + storage[size + at + |text|..];
    }

    method Commit(n: nat)
      requires Valid()
      modifies this
      ensures Valid() && Area() == []
      ensures Contents() == old(Contents()) + old(Area())[..Min(n, old(|Area()|))]
    {
      size := size + Min(n, |storage| - size);
      storage := storage[..size];
    }

    method Consume(n: nat)
      requires Valid()
      modifies this
      ensures Valid() && Area() == old(Area())
      ensures Contents() == old(Contents())[Min(n, old(|Contents()|))..]
    {
      var consumeLength := Min(n, size);
      storage := storage[consumeLength..];
      size := size - consumeLength;
    }
  }

  /** What a client does with a buffer: prepare room; write some of it; commit a part; consume; and,
      on the stream buffer only, write or read a character. */
  datatype Op =
    | Prepare(n: nat)
    | Fill(at: nat, text: seq<char>)
    | Commit(n: nat)
    | Consume(k: nat)
    | Write(c: char)
    | Read

  /** What the client sees after an operation: the input sequence, the character read, or the
      length error that ends the run. */
  datatype Seen = Data(q: seq<char>) | Got(c: Option<char>, q: seq<char>) | LengthError

  /** A plain queue of bytes, and the room prepared behind it and not committed yet: the bytes that
      the client has written there. */
  datatype Queue = Queue(bytes: seq<char>, room: seq<Option<char>>)

  function Written(room: seq<Option<char>>, at: nat, text: seq<char>): (r: seq<Option<char>>)
    ensures |r| == |room|
    ensures forall k :: 0 <= k < |room| ==> r[k] == if at <= k < at + |text| then Some(text[k - at]) else room[k]
  {
    seq(|room|, k requires 0 <= k < |room| => if at <= k < at + |text| then Some(text[k - at]) else room[k])
  }

  /** The bytes of room that has been written. */
  function Values(room: seq<Option<char>>): (r: seq<char>)
    ensures |r| == |room| && forall k :: 0 <= k < |room| && room[k].Some? ==> r[k] == room[k].value
  {
    seq(|room|, k requires 0 <= k < |room| => if room[k].Some? then room[k].value else '\0')
  }

  /** The same operation on a queue. */
  function Step(q: Queue, max: nat, op: Op): (next: Queue) {
    match op
    case Prepare(n) => if |q.bytes| + n > max then q else q.(room := seq(n, _ => None))
    case Fill(at, text) => q.(room := Written(q.room, at, text))
    case Commit(n) => Queue(q.bytes + Values(q.room[..Min(n, |q.room|)]), [])
    case Consume(k) => q.(bytes := q.bytes[Min(k, |q.bytes|)..])
    case Write(c) => if |q.bytes| >= max then q else Queue(q.bytes + [c], [])
    case Read => if q.bytes == [] then q else q.(bytes := q.bytes[1..])
  }

  function Shown(q: Queue, max: nat, op: Op): (s: Seen) {
    match op
    case Prepare(n) => if |q.bytes| + n > max then LengthError else Data(q.bytes)
    case Write(_) => if |q.bytes| >= max then LengthError else Data(Step(q, max, op).bytes)
    case Read => Got(if q.bytes == [] then None else Some(q.bytes[0]), Step(q, max, op).bytes)
    case _ => Data(Step(q, max, op).bytes)
  }

  /** All that is seen in a run, up to the first length error. */
  function Run(q: Queue, max: nat, ops: seq<Op>): (seen: seq<Seen>)
    decreases |ops|
  {
    if ops == [] then []
    else
      var s := Shown(q, max, ops[0]);
      [s] + if s.LengthError? then [] else Run(Step(q, max, ops[0]), max, ops[1..])
  }

  /** A client writes only into the room that was prepared, and commits only what it has written
      there since. It may prepare again instead, never commit, or consume in between. */
  predicate IsProper(q: Queue, op: Op) {
    match op
    case Fill(at, text) => at + |text| <= |q.room|
    case Commit(n) => n <= |q.room| && forall k :: 0 <= k < n ==> q.room[k].Some?
    case _ => true
  }

  /** The counts that the stream buffer narrows fit an `int`. */
  predicate FitsInt(q: Queue, op: Op) {
    match op
    case Commit(n) => n < INT_LIMIT
    case Consume(k) => Min(k, |q.bytes|) < INT_LIMIT
    case _ => true
  }

  /** All operations of a run, up to the first length error, are of that kind. */
  predicate Proper(q: Queue, max: nat, ops: seq<Op>)
    decreases |ops|
  {
    ops == [] || (IsProper(q, ops[0])
                  && (Shown(q, max, ops[0]).LengthError? || Proper(Step(q, max, ops[0]), max, ops[1..])))
  }

  predicate AllFitInt(q: Queue, max: nat, ops: seq<Op>)
    decreases |ops|
  {
    ops == [] || (FitsInt(q, ops[0])
                  && (Shown(q, max, ops[0]).LengthError? || AllFitInt(Step(q, max, ops[0]), max, ops[1..])))
  }

  /** They do, in runs of any length, if the maximum size does. */
  lemma {:induction false} SmallBufferFits(q: Queue, max: nat, ops: seq<Op>)
    requires max < INT_LIMIT && |q.bytes| + |q.room| <= max && Proper(q, max, ops)
    ensures AllFitInt(q, max, ops)
    decreases |ops|
  {
    if ops != [] && !Shown(q, max, ops[0]).LengthError? {
      SmallBufferFits(Step(q, max, ops[0]), max, ops[1..]);
    }
  }

  // ---------------------------------------------------------------------------------------------
  // The stream buffer

  /** The stream buffer holds the queue, and behind it what was written of the room. */
  ghost predicate Holds(b: StreamBuf, q: Queue)
    reads b, b.buffer
  {
    && b.Valid() && b.Contents() == q.bytes
    && b.pptr + |q.room| <= b.epptr
    && forall k :: 0 <= k < |q.room| && q.room[k].Some? ==> b.buffer[b.pptr + k] == q.room[k].value
  }

  method PrepareOnStreamBuf(b: StreamBuf, n: nat, ghost q: Queue) returns (thrown: bool)
    requires Holds(b, q)
    modifies b, b.buffer
    ensures b.Valid() && (b.buffer == old(b.buffer) || fresh(b.buffer))
    ensures thrown <==> Shown(q, b.maxSize, Op.Prepare(n)).LengthError?
    ensures !thrown ==> Holds(b, Step(q, b.maxSize, Op.Prepare(n)))
  {
    var area := b.Prepare(n);
    thrown := area.None?;
  }

  /** The caller writes into the area that `prepare` returned. */
  method FillStreamBuf(b: StreamBuf, at: nat, text: seq<char>, ghost q: Queue)
    requires Holds(b, q) && IsProper(q, Op.Fill(at, text))
    modifies b.buffer
    ensures Holds(b, Step(q, b.maxSize, Op.Fill(at, text)))
  {
    forall k | 0 <= k < |text| {
      b.buffer[b.pptr + at + k] := text[k];
    }
    forall k | 0 <= k < |q.room| && Written(q.room, at, text)[k].Some?
      ensures b.buffer[b.pptr + k] == Written(q.room, at, text)[k].value
    {
      if at <= k < at + |text| {
        assert b.buffer[b.pptr + at + (k - at)] == text[k - at];
      }
    }
  }

  method CommitOnStreamBuf(b: StreamBuf, n: nat, ghost q: Queue)
    requires Holds(b, q) && IsProper(q, Op.Commit(n)) && n < INT_LIMIT
    modifies b
    ensures b.buffer == old(b.buffer) && Holds(b, Step(q, b.maxSize, Op.Commit(n)))
  {
    assert b.buffer[b.pptr..b.pptr + n] == Values(q.room[..n]);
    var kept := b.Commit(n);
  }

  method ConsumeOnStreamBuf(b: StreamBuf, n: nat, ghost q: Queue)
    requires Holds(b, q) && FitsInt(q, Op.Consume(n))
    modifies b
    ensures b.buffer == old(b.buffer) && Holds(b, Step(q, b.maxSize, Op.Consume(n)))
  {
    var kept := b.Consume(n);
  }

  method WriteOnStreamBuf(b: StreamBuf, c: char, ghost q: Queue) returns (thrown: bool)
    requires Holds(b, q)
    modifies b, b.buffer
    ensures b.Valid() && (b.buffer == old(b.buffer) || fresh(b.buffer))
    ensures thrown <==> Shown(q, b.maxSize, Op.Write(c)).LengthError?
    ensures !thrown ==> Holds(b, Step(q, b.maxSize, Op.Write(c)))
  {
    thrown := b.Put(c);
  }

  method ReadOnStreamBuf(b: StreamBuf, ghost q: Queue) returns (c: Option<char>)
    requires Holds(b, q)
    modifies b
    ensures b.buffer == old(b.buffer) && Holds(b, Step(q, b.maxSize, Op.Read))
    ensures c == if q.bytes == [] then None else Some(q.bytes[0])
  {
    c := b.Bump();
  }

  method StepStreamBuf(b: StreamBuf, op: Op, ghost q: Queue) returns (s: Seen)
    requires Holds(b, q) && IsProper(q, op) && FitsInt(q, op)
    modifies b, b.buffer
    ensures b.Valid() && (b.buffer == old(b.buffer) || fresh(b.buffer))
    ensures s == Shown(q, b.maxSize, op)
    ensures !s.LengthError? ==> Holds(b, Step(q, b.maxSize, op))
  {
    var thrown, c := false, None;
    match op {
      case Prepare(n) => thrown := PrepareOnStreamBuf(b, n, q);
      case Fill(at, text) => FillStreamBuf(b, at, text, q);
      case Commit(n) => CommitOnStreamBuf(b, n, q);
      case Consume(k) => ConsumeOnStreamBuf(b, k, q);
      case Write(c) => thrown := WriteOnStreamBuf(b, c, q);
      case Read => c := ReadOnStreamBuf(b, q);
    }
    if thrown {
      return LengthError;
    }
    var data := b.buffer[b.gptr..b.pptr];
    s := if op.Read? then Got(c, data) else Data(data);
  }

  // ---------------------------------------------------------------------------------------------
  // The dynamic buffer

  ghost predicate HoldsToo(b: DynamicBuffer, q: Queue)
    reads b
  {
    && b.Valid() && b.Contents() == q.bytes && |b.Area()| == |q.room|
    && forall k :: 0 <= k < |q.room| && q.room[k].Some? ==> b.Area()[k] == q.room[k].value
  }

  method StepDynamicBuffer(b: DynamicBuffer, op: Op, ghost q: Queue) returns (s: Seen)
    requires HoldsToo(b, q) && IsProper(q, op) && !op.Write? && !op.Read?
    modifies b
    ensures b.Valid()
    ensures s == Shown(q, b.maxSize, op)
    ensures !s.LengthError? ==> HoldsToo(b, Step(q, b.maxSize, op))
  {
    match op {
      case Prepare(n) =>
        var thrown := b.Prepare(n);
        if thrown {
          return LengthError;
        }
      case Fill(at, text) => b.Fill(at, text);
      case Commit(n) =>
        assert b.Area()[..n] == Values(q.room[..n]);
        b.Commit(n);
      case Consume(k) => b.Consume(k);
    }
    s := Data(b.storage[..b.size]);
  }

  // ---------------------------------------------------------------------------------------------
  // Whole runs

  /** Where a run stands: what has been seen, the queue, and the operations to come. */
  datatype Course = Course(seen: seq<Seen>, q: Queue, ops: seq<Op>)

  /** The places at which proper runs may stand that show `total` in all; those on the stream buffer
      with counts that fit an `int`. */
  ghost function Courses(max: nat, total: seq<Seen>, onStream: bool): (courses: iset<Course>) {
    iset c: Course |
      && Proper(c.q, max, c.ops) && (onStream ==> AllFitInt(c.q, max, c.ops))
      && c.seen + Run(c.q, max, c.ops) == total
      && (c.seen != [] ==> !c.seen[|c.seen| - 1].LengthError? && c.q.bytes == c.seen[|c.seen| - 1].q)
  }

  lemma CourseStarts(q: Queue, max: nat, ops: seq<Op>, onStream: bool)
    requires Proper(q, max, ops) && (onStream ==> AllFitInt(q, max, ops))
    ensures Course([], q, ops) in Courses(max, Run(q, max, ops), onStream)
  {
    assert [] + Run(q, max, ops) == Run(q, max, ops);
  }

  lemma CourseNext(c: Course, max: nat, total: seq<Seen>, onStream: bool)
    requires c in Courses(max, total, onStream) && c.ops != []
    ensures IsProper(c.q, c.ops[0]) && (onStream ==> FitsInt(c.q, c.ops[0]))
    ensures var s := Shown(c.q, max, c.ops[0]);
            if s.LengthError? then c.seen + [s] == total
            else Course(c.seen + [s], Step(c.q, max, c.ops[0]), c.ops[1..]) in Courses(max, total, onStream)
  {
    var s := Shown(c.q, max, c.ops[0]);
    RunUnfolds(c.q, max, c.ops);
    Regroup(c.seen, s, if s.LengthError? then [] else Run(Step(c.q, max, c.ops[0]), max, c.ops[1..]));
    assert (c.seen + [s])[|c.seen + [s]| - 1] == s;
    ShownIsNext(c.q, max, c.ops[0]);
  }

  lemma CourseEnds(c: Course, max: nat, total: seq<Seen>, onStream: bool)
    requires c in Courses(max, total, onStream) && c.ops == []
    ensures c.seen == total && (total != [] ==> c.q.bytes == total[|total| - 1].q)
  {
    assert c.seen + [] == c.seen;
  }

  lemma Regroup(seen: seq<Seen>, s: Seen, rest: seq<Seen>)
    ensures seen + ([s] + rest) == seen + [s] + rest
    ensures seen + ([s] + []) == seen + [s]
  {
  }

  lemma ShownIsNext(q: Queue, max: nat, op: Op)
    ensures var s := Shown(q, max, op); !s.LengthError? ==> s.q == Step(q, max, op).bytes
  {
  }

  lemma RunUnfolds(q: Queue, max: nat, ops: seq<Op>)
    requires ops != []
    ensures var s := Shown(q, max, ops[0]);
            Run(q, max, ops) == [s] + if s.LengthError? then [] else Run(Step(q, max, ops[0]), max, ops[1..])
  {
  }

  /** Any run on the stream buffer shows what the queue shows, through compaction and growth. */
  method RunStreamBuf(b: StreamBuf, ops: seq<Op>, ghost start: Queue) returns (seen: seq<Seen>)
    requires Holds(b, start) && Proper(start, b.maxSize, ops) && AllFitInt(start, b.maxSize, ops)
    modifies b, b.buffer
    ensures b.Valid()
    ensures seen == Run(start, b.maxSize, ops)
    ensures seen != [] && !seen[|seen| - 1].LengthError? ==> b.Contents() == seen[|seen| - 1].q
  {
    CourseStarts(start, b.maxSize, ops, true);
    seen := [];
    var i := 0;
    ghost var c, total := Course([], start, ops), Run(start, b.maxSize, ops);
    while i < |ops|
      invariant 0 <= i <= |ops| && c.ops == ops[i..] && c.seen == seen
      invariant c in Courses(b.maxSize, total, true)
      invariant Holds(b, c.q) && (b.buffer == old(b.buffer) || fresh(b.buffer))
    {
      CourseNext(c, b.maxSize, total, true);
      var s := StepStreamBuf(b, ops[i], c.q);
      seen := seen + [s];
      if s.LengthError? {
        return;
      }
      c := Course(c.seen + [s], Step(c.q, b.maxSize, c.ops[0]), c.ops[1..]);
      i := i + 1;
    }
    CourseEnds(c, b.maxSize, total, true);
  }

  method RunDynamicBuffer(b: DynamicBuffer, ops: seq<Op>, ghost start: Queue) returns (seen: seq<Seen>)
    requires HoldsToo(b, start) && Proper(start, b.maxSize, ops)
    requires forall op :: op in ops ==> !op.Write? && !op.Read?
    modifies b
    ensures b.Valid()
    ensures seen == Run(start, b.maxSize, ops)
  {
    CourseStarts(start, b.maxSize, ops, false);
    seen := [];
    var i := 0;
    ghost var c, total := Course([], start, ops), Run(start, b.maxSize, ops);
    while i < |ops|
      invariant 0 <= i <= |ops| && c.ops == ops[i..] && c.seen == seen
      invariant c in Courses(b.maxSize, total, false) && HoldsToo(b, c.q)
    {
      CourseNext(c, b.maxSize, total, false);
      var s := StepDynamicBuffer(b, ops[i], c.q);
      seen := seen + [s];
      if s.LengthError? {
        return;
      }
      c := Course(c.seen + [s], Step(c.q, b.maxSize, c.ops[0]), c.ops[1..]);
      i := i + 1;
    }
    CourseEnds(c, b.maxSize, total, false);
  }

  /** No client that commits only what it has written can tell the two kinds of buffer apart,
      however it interleaves `prepare`, writing, `commit` and `consume`: both show the same data
      after every step and throw at the same step. */
  method Indistinguishable(max: nat, ops: seq<Op>)
    returns (onStream: seq<Seen>, onDynamic: seq<Seen>)
    requires Proper(Queue([], []), max, ops) && AllFitInt(Queue([], []), max, ops)
    requires forall op :: op in ops ==> !op.Write? && !op.Read?
    ensures onStream == onDynamic == Run(Queue([], []), max, ops)
  {
    var streamBuf := new StreamBuf(max);
    onStream := RunStreamBuf(streamBuf, ops, Queue([], []));
    var dynamicBuffer := new DynamicBuffer([], max);
    onDynamic := RunDynamicBuffer(dynamicBuffer, ops, Queue([], []));
  }

  // ---------------------------------------------------------------------------------------------
  // Where they differ

  /** A commit of more than was prepared leaves them with different sizes exactly if the stream
      buffer has more room than that behind its contents once they are prepared. */
  method CommitBeyondPrepared(streamBuf: StreamBuf, dynamicBuffer: DynamicBuffer, x: nat, n: nat)
    requires streamBuf.Valid() && dynamicBuffer.Valid() && n < INT_LIMIT
    requires |streamBuf.Contents()| == |dynamicBuffer.Contents()|
    requires |streamBuf.Contents()| + x <= streamBuf.maxSize && |dynamicBuffer.Contents()| + x <= dynamicBuffer.maxSize
    modifies streamBuf, streamBuf.buffer, dynamicBuffer
    ensures streamBuf.Valid() && dynamicBuffer.Valid()
    ensures |streamBuf.Contents()| == old(|streamBuf.Contents()|) + Min(n, old(streamBuf.RoomAfter(x)))
    ensures |dynamicBuffer.Contents()| == old(|dynamicBuffer.Contents()|) + Min(n, x)
    ensures |streamBuf.Contents()| == |dynamicBuffer.Contents()| <==> n <= x || old(streamBuf.RoomAfter(x)) == x
  {
    CommitAfterPrepare(streamBuf, x, n);
    var thrown := dynamicBuffer.Prepare(x);
    dynamicBuffer.Commit(n);
  }

  method CommitAfterPrepare(streamBuf: StreamBuf, x: nat, n: nat)
    requires streamBuf.Valid() && n < INT_LIMIT && |streamBuf.Contents()| + x <= streamBuf.maxSize
    modifies streamBuf, streamBuf.buffer
    ensures streamBuf.Valid() && (streamBuf.buffer == old(streamBuf.buffer) || fresh(streamBuf.buffer))
    ensures |streamBuf.Contents()| == old(|streamBuf.Contents()|) + Min(n, old(streamBuf.RoomAfter(x)))
    ensures old(streamBuf.RoomAfter(x)) >= x
  {
    var area := streamBuf.Prepare(x);
    var kept := streamBuf.Commit(n);
  }

  /** A commit of room that was not written shows what the memory held. */
  method OneByte(b: StreamBuf) returns (d: DynamicBuffer)
    requires b.Valid() && b.Contents() == [] && b.maxSize == b.epptr == 128 && b.gptr == 0
    modifies b, b.buffer
    ensures b.Valid() && b.buffer == old(b.buffer) && b.Contents() == [] && b.gptr == b.pptr == 1 && b.epptr == 128
    ensures b.buffer[0] == 'a'
    ensures fresh(d) && d.Valid() && d.Contents() == [] && d.Area() == [] && d.maxSize == 128
  {
    var area := b.Prepare(1);
    b.buffer[b.pptr] := 'a';
    var kept := b.Commit(1);
    kept := b.Consume(1);
    d := new DynamicBuffer([], 128);
    var thrown := d.Prepare(1);
    d.Fill(0, ['a']);
    d.Commit(1);
    d.Consume(1);
  }

  method UnwrittenDiffers() returns (onStream: seq<char>, onDynamic: seq<char>)
    ensures onStream == "a" && onDynamic == "\0"
  {
    var b := new StreamBuf(128);
    var d := OneByte(b);
    var area := b.Prepare(128);
    var kept := b.Commit(1);
    onStream := b.buffer[b.gptr..b.pptr];
    var thrown := d.Prepare(128);
    d.Commit(1);
    onDynamic := d.storage[..d.size];
  }

  /** New buffers differ in the size if two bytes are committed of one prepared. */
  method CommitsDiffer() returns (onStream: nat, onDynamic: nat)
    ensures onStream == 2 && onDynamic == 1
  {
    var streamBuf := new StreamBuf(128);
    onStream, onDynamic := CommitTwo(streamBuf);
  }

  method CommitTwo(streamBuf: StreamBuf) returns (onStream: nat, onDynamic: nat)
    requires streamBuf.Valid() && |streamBuf.Contents()| == 0 && streamBuf.RoomAfter(1) == streamBuf.maxSize == 128
    modifies streamBuf, streamBuf.buffer
    ensures onStream == 2 && onDynamic == 1
  {
    var dynamicBuffer := new DynamicBuffer([], 128);
    CommitBeyondPrepared(streamBuf, dynamicBuffer, 1, 2);
    onStream, onDynamic := streamBuf.Size(), dynamicBuffer.size;
  }
}
