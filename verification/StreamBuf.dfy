/** The growable stream buffer: one array that holds the input sequence and the space prepared
    behind it. */
module StreamBuf {
  import opened Text
  import opened Buffers

  const BUFFER_DELTA := 128
  /** `commit` and `consume` narrow their counts to `int`. */
  const INT_LIMIT := 0x8000_0000

  function Max(a: nat, b: nat): (r: nat) {
    if a < b then b else a
  }

  /** `static_cast<int>` of a size. */
  function Narrowed(n: nat): (i: int)
    ensures i <= n && (i == n <==> n < INT_LIMIT)
    ensures -0x8000_0000 <= i < 0x8000_0000 && (n - i) % 0x1_0000_0000 == 0
  {
    var low := n % (2 * INT_LIMIT);
    if low < INT_LIMIT then low else low - 2 * INT_LIMIT
  }

  /** What a reader of `[gap, gap + |contents|)` sees after the contents have been moved down to
      the start of the array but the pointers have not followed. */
  function Smeared(contents: seq<char>, gap: nat): (r: seq<char>)
    ensures |r| == |contents|
  {
    if gap >= |contents| then contents else contents[gap..] + contents[|contents| - gap..]
  }

  class StreamBuf {
    const maxSize: nat
    var buffer: array<char>
    var eback: nat
    var gptr: nat
    var egptr: nat
    var pptr: nat
    var epptr: nat

    ghost predicate Valid()
      reads this
    {
      && 0 == eback <= gptr <= egptr <= pptr <= epptr <= maxSize
      && buffer.Length == Max(epptr, 1)
    }

    /** The input sequence, oldest byte first. */
    ghost function Contents(): (q: seq<char>)
      requires Valid()
      reads this, buffer
    {
      buffer[gptr..pptr]
    }

    constructor (maximumSize: nat)
      ensures Valid() && fresh(buffer) && maxSize == maximumSize && Contents() == []
      ensures pptr == 0 && epptr == Min(maximumSize, BUFFER_DELTA)
    {
      var pend := Min(maximumSize, BUFFER_DELTA);
      maxSize := maximumSize;
      buffer := new char[Max(pend, 1)];
      eback, gptr, egptr := 0, 0, 0;
      pptr, epptr := 0, pend;
    }

    function Size(): (n: nat)
      requires Valid()
      reads this, buffer
      ensures n == |Contents()| && n <= maxSize
    {
      pptr - gptr
    }

    /** `data()`: a view of the input sequence; reading or writing it out consumes nothing. */
    function Data(): (b: Buffer)
      requires Valid()
      reads this, buffer
      ensures b.Valid() && b.Bytes() == Contents()
    {
      Buffer(buffer, gptr, pptr - gptr)
    }

    /** `vector::resize` */
    method Resize(n: nat)
      requires n > 0
      modifies this`buffer
      ensures fresh(buffer) && buffer.Length == n
      ensures forall k :: 0 <= k < Min(n, old(buffer.Length)) ==> buffer[k] == old(buffer[k])
    {
      var resized := new char[n];
      forall k | 0 <= k < n {
        resized[k] := if k < buffer.Length then buffer[k] else '\0';
      }
      buffer := resized;
    }

    /** The room behind the input sequence once n bytes of it have been prepared. */
    ghost function RoomAfter(n: nat): (room: nat)
      requires Valid()
      reads this, buffer
    {
      if pptr + n <= epptr then epptr - pptr else Max(n, epptr - |Contents()|)
    }

    /** Make room for n more bytes behind the input sequence. It throws exactly when they would
        exceed the maximum size. Then the pointers stay, but the bytes may have moved under them.
        Otherwise the memory behind the input sequence is as it was. */
    method Reserve(n: nat) returns (thrown: bool)
      requires Valid()
      modifies this, buffer
      ensures Valid() && (buffer == old(buffer) || fresh(buffer))
      ensures thrown <==> old(|Contents()|) + n > maxSize
      ensures !thrown ==> Contents() == old(Contents()) && pptr + n <= epptr
      ensures !thrown ==> epptr - pptr == old(RoomAfter(n))
      ensures !thrown ==> forall k :: pptr <= k < old(epptr) ==> k < epptr && buffer[k] == old(buffer[k])
      ensures thrown ==> buffer == old(buffer) && Contents() == Smeared(old(Contents()), old(gptr))
      ensures thrown || old(pptr + n <= epptr) ==>
        buffer == old(buffer) && gptr == old(gptr) && pptr == old(pptr) && epptr == old(epptr)
    {
      if n <= epptr - pptr {
        return false;
      }
      thrown := MakeRoom(n);
    }

    /** The same where there is not room enough behind the put pointer. */
    method MakeRoom(n: nat) returns (thrown: bool)
      requires Valid() && pptr + n > epptr
      modifies this, buffer
      ensures Valid() && (buffer == old(buffer) || fresh(buffer))
      ensures thrown <==> old(|Contents()|) + n > maxSize
      ensures !thrown ==> Contents() == old(Contents()) && epptr - pptr == old(RoomAfter(n))
      ensures !thrown ==> forall k :: pptr <= k < old(epptr) ==> k < epptr && buffer[k] == old(buffer[k])
      ensures thrown ==> buffer == old(buffer) && Contents() == Smeared(old(Contents()), old(gptr))
      ensures thrown ==> gptr == old(gptr) && pptr == old(pptr) && epptr == old(epptr)
    {
      ghost var contents, gap := Contents(), gptr;
      var pnext := MoveDown();
      if n <= epptr - pnext {
        SetPointers(pnext, epptr);
        return false;
      }
      if n <= maxSize && pnext <= maxSize - n {
        Extend(pnext, n);
        return false;
      }
      SmearedIs(contents, buffer[..], gap);
      return true;
    }

    /** The array is made longer behind the moved input sequence. */
    method Extend(pnext: nat, n: nat)
      requires Valid() && pnext <= epptr && epptr <= pnext + n <= maxSize
      modifies this
      ensures Valid() && fresh(buffer) && gptr == 0 && pptr == pnext && epptr == pnext + n
      ensures Contents() == old(buffer[..pnext])
      ensures forall k :: pptr <= k < old(epptr) ==> buffer[k] == old(buffer[k])
    {
      ghost var moved := buffer[..pnext];
      Resize(Max(pnext + n, 1));
      assert buffer[..pnext] == moved;
      SetPointers(pnext, pnext + n);
    }

    /** The `memmove` of the input sequence to the start of the array, where it is not there. */
    method MoveDown() returns (pnext: nat)
      requires Valid()
      modifies buffer
      ensures pnext == pptr - gptr && buffer[..pnext] == old(Contents())
      ensures forall k :: pnext <= k < buffer.Length ==> buffer[k] == old(buffer[k])
    {
      pnext := pptr - gptr;
      if gptr > 0 {
        forall k | 0 <= k < pnext {
          buffer[k] := buffer[gptr + k];
        }
      }
    }

    /** `setg` and `setp` on the moved input sequence. */
    method SetPointers(pnext: nat, pend: nat)
      requires pnext <= pend <= maxSize && buffer.Length == Max(pend, 1)
      modifies this`eback, this`gptr, this`egptr, this`pptr, this`epptr
      ensures Valid() && gptr == 0 && pptr == pnext && epptr == pend && Contents() == buffer[..pnext]
    {
      eback, gptr, egptr := 0, 0, pnext;
      pptr, epptr := pnext, pend;
    }

    method Prepare(n: nat) returns (area: Option<Buffer>)
      requires Valid()
      modifies this, buffer
      ensures Valid() && (buffer == old(buffer) || fresh(buffer))
      ensures area.None? <==> old(|Contents()|) + n > maxSize
      ensures area.Some? ==> Contents() == old(Contents())
      ensures area.Some? ==> area.value == Buffer(buffer, pptr, n) && pptr + n <= epptr
      ensures area.Some? ==> epptr - pptr == old(RoomAfter(n))
      ensures area.Some? ==> forall k :: pptr <= k < old(epptr) ==> k < epptr && buffer[k] == old(buffer[k])
      ensures area.None? ==> Contents() == Smeared(old(Contents()), old(gptr))
      ensures area.None? || old(pptr + n <= epptr) ==>
        buffer == old(buffer) && gptr == old(gptr) && pptr == old(pptr) && epptr == old(epptr)
    {
      var thrown := Reserve(n);
      area := if thrown then None else Some(Buffer(buffer, pptr, n));
    }

    /** The count is narrowed to an `int`. The bytes are appended if it fits; if it does not, the
        put pointer goes elsewhere, and is not `kept` behind the get pointer if that is in front. */
    method Commit(n: nat) returns (kept: bool)
      requires Valid()
      modifies this
      ensures buffer == old(buffer) && epptr == old(epptr)
      ensures kept <==> old(gptr) <= old(pptr) + Narrowed(old(Min(n, epptr - pptr)))
      ensures kept ==> Valid() && gptr == old(gptr) && pptr == old(pptr) + Narrowed(old(Min(n, epptr - pptr)))
      ensures old(Min(n, epptr - pptr)) < INT_LIMIT ==>
        kept && Contents() == old(Contents()) + old(buffer[pptr..pptr + Min(n, epptr - pptr)])
    {
      var moved := Min(n, epptr - pptr);
      var target := pptr + Narrowed(moved);
      kept := gptr <= target;
      if kept {
        pptr := target;
        egptr := pptr;
      }
    }

    /** Likewise: the bytes are removed if the count fits an `int`; if it does not, the get pointer
        goes elsewhere, and is not `kept` in the array if that is in front of it. */
    method Consume(n: nat) returns (kept: bool)
      requires Valid()
      modifies this
      ensures buffer == old(buffer) && pptr == old(pptr) && epptr == old(epptr)
      ensures kept <==> 0 <= old(gptr) + Narrowed(old(Min(n, |Contents()|)))
      ensures kept ==> Valid() && gptr == old(gptr) + Narrowed(old(Min(n, |Contents()|)))
      ensures old(Min(n, |Contents()|)) < INT_LIMIT ==>
        kept && Contents() == old(Contents())[Min(n, old(|Contents()|))..]
    {
      if egptr < pptr {
        eback, egptr := 0, pptr;
      }
      var moved := n;
      if gptr + moved > pptr {
        moved := pptr - gptr;
      }
      var target := gptr + Narrowed(moved);
      kept := 0 <= target;
      if kept {
        gptr := target;
      }
    }

    method Underflow() returns (c: Option<char>)
      requires Valid()
      modifies this
      ensures Valid() && buffer == old(buffer) && Contents() == old(Contents())
      ensures gptr == old(gptr) && pptr == old(pptr) && epptr == old(epptr)
      ensures c == if Contents() == [] then None else Some(Contents()[0])
      ensures c.Some? ==> gptr < egptr
    {
      if gptr < pptr {
        eback, egptr := 0, pptr;
        c := Some(buffer[gptr]);
      } else {
        c := None;
      }
    }

    /** `sbumpc`, the character read of `std::streambuf` */
    method Bump() returns (c: Option<char>)
      requires Valid()
      modifies this
      ensures Valid() && buffer == old(buffer) && pptr == old(pptr) && epptr == old(epptr)
      ensures gptr == old(gptr) + (if c.Some? then 1 else 0)
      ensures old(Contents()) == [] ==> c == None && Contents() == []
      ensures old(Contents()) != [] ==>
        c == Some(old(Contents())[0]) && Contents() == old(Contents())[1..]
    {
      if gptr < egptr {
        c := Some(buffer[gptr]);
        gptr := gptr + 1;
      } else {
        c := Underflow();
        if c.Some? {
          gptr := gptr + 1;
        }
      }
    }

    /** A character is appended exactly when the size is below the maximum; a failure leaves the
        input sequence alone, because a full buffer has no gap in front of it. */
    method Overflow(c: Option<char>) returns (thrown: bool)
      requires Valid()
      modifies this, buffer
      ensures Valid() && (buffer == old(buffer) || fresh(buffer))
      ensures c.None? ==> !thrown && Contents() == old(Contents())
      ensures c.Some? ==> (thrown <==> old(|Contents()|) == maxSize)
      ensures c.Some? && !thrown ==> Contents() == old(Contents()) + [c.value]
      ensures thrown ==> Contents() == old(Contents())
    {
      thrown := false;
      if c.Some? {
        if pptr == epptr {
          thrown := ReserveDelta();
          if thrown {
            return;
          }
        }
        buffer[pptr] := c.value;
        pptr := pptr + 1;
      }
    }

    /** Room for more characters, as far as the maximum size allows. */
    method ReserveDelta() returns (thrown: bool)
      requires Valid() && pptr == epptr
      modifies this, buffer
      ensures Valid() && (buffer == old(buffer) || fresh(buffer))
      ensures thrown <==> old(|Contents()|) == maxSize
      ensures Contents() == old(Contents()) && (!thrown ==> pptr < epptr)
    {
      var bufferSize := pptr - gptr;
      if bufferSize < maxSize && maxSize - bufferSize < BUFFER_DELTA {
        thrown := Reserve(maxSize - bufferSize);
      } else {
        thrown := Reserve(BUFFER_DELTA);
      }
    }

    /** `sputc`, the character write of `std::streambuf` */
    method Put(c: char) returns (thrown: bool)
      requires Valid()
      modifies this, buffer
      ensures Valid() && (buffer == old(buffer) || fresh(buffer))
      ensures thrown <==> old(|Contents()|) == maxSize
      ensures Contents() == if thrown then old(Contents()) else old(Contents()) + [c]
      ensures old(pptr < epptr) ==>
        buffer == old(buffer) && gptr == old(gptr) && pptr == old(pptr) + 1 && epptr == old(epptr)
    {
      if pptr < epptr {
        buffer[pptr] := c;
        pptr := pptr + 1;
        thrown := false;
      } else {
        thrown := Overflow(Some(c));
      }
    }

    /** `read_size_helper`, for a vector of any capacity: a read of that size can be prepared. */
    function ReadSizeHelper(capacity: nat, max: nat): (n: nat)
      requires Valid() && capacity >= buffer.Length
      reads this, buffer
      ensures |Contents()| + n <= maxSize && n <= max
      ensures n == Min(max, maxSize - |Contents()|) || (n >= 512 && |Contents()| + n >= capacity)
      ensures n > 512 ==> |Contents()| + n <= capacity
    {
      Min(Max(512, capacity - Size()), Min(max, maxSize - Size()))
    }

    method PrepareRead(capacity: nat, max: nat) returns (area: Option<Buffer>)
      requires Valid() && capacity >= buffer.Length
      modifies this, buffer
      ensures Valid() && area.Some? && Contents() == old(Contents())
      ensures area.value.size == old(ReadSizeHelper(capacity, max))
    {
      area := Prepare(ReadSizeHelper(capacity, max));
    }
  }

  /** Moving the contents down in place leaves exactly the smeared view behind. */
  lemma SmearedIs(contents: seq<char>, memory: seq<char>, gap: nat)
    requires gap + |contents| <= |memory|
    requires memory[..|contents|] == contents
    requires forall k :: |contents| <= k < gap + |contents| && gap <= k ==> memory[k] == contents[k - gap]
    ensures memory[gap..gap + |contents|] == Smeared(contents, gap)
  {
    var seen, smeared := memory[gap..gap + |contents|], Smeared(contents, gap);
    forall k | 0 <= k < |contents| ensures seen[k] == smeared[k] {
      if gap + k < |contents| {
        assert seen[k] == memory[..|contents|][gap + k];
      }
    }
  }

  /** A failed `prepare` keeps the input sequence exactly when it repeats itself with the period
      of the gap in front of it; in particular when there is no gap, or one as long as itself. */
  lemma FailureKeeps(contents: seq<char>, gap: nat)
    ensures Smeared(contents, gap) == contents
            <==> forall k :: 0 <= k && gap + k < |contents| ==> contents[gap + k] == contents[k]
    ensures gap == 0 || gap >= |contents| ==> Smeared(contents, gap) == contents
  {
    var smeared := Smeared(contents, gap);
    if gap < |contents| {
      assert forall k :: 0 <= k < |contents| - gap ==> smeared[k] == contents[gap + k];
      assert forall k :: |contents| - gap <= k < |contents| ==> smeared[k] == contents[k];
      if smeared == contents {
        forall k | 0 <= k && gap + k < |contents| ensures contents[gap + k] == contents[k] {
          assert smeared[k] == contents[k];
        }
      }
    }
  }

  lemma SmearedExample()
    ensures Smeared("ab", 1) == "bb"
  {
  }

  /** Otherwise it is lost: with one byte read off "aab", a `prepare` that fails leaves "bb". */
  method FailureCanLose() returns (b: StreamBuf)
    ensures fresh(b) && b.Valid() && b.Contents() == "bb"
  {
    b := new StreamBuf(3);
    FillUp(b);
    var c := b.Bump();
    assert "aab"[1..] == "ab";
    SmearedExample();
    var area := b.Prepare(2);
  }

  method FillUp(b: StreamBuf)
    requires b.Valid() && b.Contents() == "" && b.maxSize == 3 && b.gptr == b.pptr == 0 && b.epptr == 3
    modifies b, b.buffer
    ensures b.Valid() && b.buffer == old(b.buffer) && b.gptr == 0 && b.Contents() == "aab"
  {
    var thrown := b.Put('a');
    thrown := b.Put('a');
    assert b.Contents() == "" + ['a'] + ['a'] == "aa";
    thrown := b.Put('b');
    assert "aa" + ['b'] == "aab";
  }
}
