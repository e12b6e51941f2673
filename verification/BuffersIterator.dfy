/** The random-access iterator over the bytes of a buffer sequence. */
module BuffersIterators {
  import opened Buffers

  /** A place for an iterator to rest: on a byte of a buffer, or behind all buffers. */
  predicate Rests(buffers: seq<Buffer>, k: nat, offset: nat) {
    k <= |buffers| && if k < |buffers| then offset < buffers[k].size else offset == 0
  }

  /** Every position of the flat view has a resting place, in a non-empty buffer or at the end. */
  function Locate(buffers: seq<Buffer>, position: nat): (r: (nat, nat))
    requires position <= Total(buffers)
    ensures Rests(buffers, r.0, r.1)
  {
    if buffers == [] then (0, 0)
    else if position < buffers[0].size then (0, position)
    else var (k, offset) := Locate(buffers[1..], position - buffers[0].size); (k + 1, offset)
  }

  /** It has only one, so the position determines the rest of an iterator's state. */
  lemma {:induction false} OnlyPlace(buffers: seq<Buffer>, k: nat, offset: nat)
    requires Rests(buffers, k, offset)
    ensures Total(buffers[..k]) + offset <= Total(buffers)
    ensures Locate(buffers, Total(buffers[..k]) + offset) == (k, offset)
    ensures k < |buffers| <==> Total(buffers[..k]) + offset < Total(buffers)
  {
    if k > 0 {
      OnlyPlace(buffers[1..], k - 1, offset);
      assert buffers[..k][0] == buffers[0] && buffers[..k][1..] == buffers[1..][..k - 1];
    } else {
      assert buffers[..k] == [];
    }
  }

  class BuffersIterator {
    const buffers: seq<Buffer>
    var currentBuffer: Buffer
    var currentBufferPosition: nat
    var current: nat
    var position: nat

    /** The iterator denotes `position` in the flat view: its buffer and offset are the one
        resting place of that position. */
    ghost predicate Valid()
      reads this
    {
      && AllValid(buffers)
      && Rests(buffers, current, currentBufferPosition)
      && (current < |buffers| ==> currentBuffer == buffers[current])
      && position == Total(buffers[..current]) + currentBufferPosition
    }

    constructor Begin(buffers: seq<Buffer>)
      requires AllValid(buffers)
      ensures Valid() && this.buffers == buffers && position == 0
    {
      this.buffers := buffers;
      currentBuffer, currentBufferPosition := Buffer(null, 0, 0), 0;
      current, position := 0, 0;
      new;
      while current != |buffers|
        invariant 0 <= current <= |buffers| && Total(buffers[..current]) == 0
        invariant this.buffers == buffers && position == 0 && currentBufferPosition == 0
      {
        TotalNext(buffers, current);
        currentBuffer := buffers[current];
        if currentBuffer.size > 0 {
          break;
        }
        current := current + 1;
      }
    }

    constructor End(buffers: seq<Buffer>)
      requires AllValid(buffers)
      ensures Valid() && this.buffers == buffers && position == Total(buffers)
    {
      this.buffers := buffers;
      currentBuffer, currentBufferPosition := Buffer(null, 0, 0), 0;
      current, position := 0, 0;
      new;
      while current != |buffers|
        invariant 0 <= current <= |buffers| && position == Total(buffers[..current])
        invariant this.buffers == buffers && currentBufferPosition == 0
      {
        TotalNext(buffers, current);
        position := position + buffers[current].size;
        current := current + 1;
      }
      assert buffers[..current] == buffers;
    }

    constructor Copy(other: BuffersIterator)
      requires other.Valid()
      ensures Valid() && buffers == other.buffers && position == other.position
    {
      buffers := other.buffers;
      currentBuffer, currentBufferPosition := other.currentBuffer, other.currentBufferPosition;
      current, position := other.current, other.position;
    }

    method Dereference() returns (c: char)
      requires Valid() && position < Total(buffers)
      ensures position < |Flat(buffers)| && c == Flat(buffers)[position]
    {
      OnlyPlace(buffers, current, currentBufferPosition);
      FlatAt(buffers, current, currentBufferPosition);
      c := currentBuffer.data[currentBuffer.start + currentBufferPosition];
    }

    method Increment()
      requires Valid() && position < Total(buffers)
      modifies this
      ensures Valid() && position == old(position) + 1
    {
      OnlyPlace(buffers, current, currentBufferPosition);
      position := position + 1;
      currentBufferPosition := currentBufferPosition + 1;
      if currentBufferPosition != currentBuffer.size {
        return;
      }
      TotalNext(buffers, current);
      current := current + 1;
      currentBufferPosition := 0;
      while current != |buffers|
        invariant current <= |buffers| && currentBufferPosition == 0
        invariant position == old(position) + 1 == Total(buffers[..current])
        decreases |buffers| - current
      {
        currentBuffer := buffers[current];
        if currentBuffer.size > 0 {
          return;
        }
        TotalNext(buffers, current);
        current := current + 1;
      }
    }

    /** The nearest non-empty buffer before `current`, for a position that has bytes before it. */
    method Previous() returns (iter: nat)
      requires current <= |buffers| && Total(buffers[..current]) > 0
      ensures iter < current && buffers[iter].size > 0
      ensures Total(buffers[..iter]) + buffers[iter].size == Total(buffers[..current])
    {
      iter := current;
      while iter != 0
        invariant iter <= current && Total(buffers[..iter]) == Total(buffers[..current])
      {
        iter := iter - 1;
        TotalNext(buffers, iter);
        if buffers[iter].size > 0 {
          return;
        }
      }
      assert false;
    }

    method Decrement()
      requires Valid() && position > 0
      modifies this
      ensures Valid() && position == old(position) - 1
    {
      position := position - 1;
      if currentBufferPosition != 0 {
        currentBufferPosition := currentBufferPosition - 1;
        return;
      }
      var iter := Previous();
      current := iter;
      currentBuffer := buffers[iter];
      currentBufferPosition := currentBuffer.size - 1;
    }

    method Advance(difference: int)
      requires Valid() && 0 <= position + difference <= Total(buffers)
      modifies this
      ensures Valid() && position == old(position) + difference
    {
      if difference > 0 {
        Forward(difference);
      } else if difference < 0 {
        Backward(-difference);
      }
    }

    method Forward(difference: nat)
      requires Valid() && difference > 0 && position + difference <= Total(buffers)
      modifies this
      ensures Valid() && position == old(position) + difference
    {
      OnlyPlace(buffers, current, currentBufferPosition);
      var n := difference;
      while true
        invariant current < |buffers| && currentBuffer == buffers[current]
        invariant currentBufferPosition <= currentBuffer.size
        invariant position == Total(buffers[..current]) + currentBufferPosition
        invariant 0 <= n && position + n == old(position) + difference
        decreases |buffers| - current
      {
        var currentBufferBalance := currentBuffer.size - currentBufferPosition;
        if currentBufferBalance > n {
          position := position + n;
          currentBufferPosition := currentBufferPosition + n;
          return;
        }
        n := n - currentBufferBalance;
        position := position + currentBufferBalance;
        TotalNext(buffers, current);
        current := current + 1;
        if current == |buffers| {
          assert buffers[..current] == buffers;
          assert n == 0;
          currentBuffer := Buffer(null, 0, 0);
          currentBufferPosition := 0;
          return;
        }
        currentBuffer := buffers[current];
        currentBufferPosition := 0;
      }
    }

    method Backward(difference: nat)
      requires Valid() && 0 < difference <= position
      modifies this
      ensures Valid() && position == old(position) - difference
    {
      var absN := difference;
      while true
        invariant current <= |buffers| && absN > 0
        invariant current < |buffers| ==> currentBuffer == buffers[current]
        invariant if current < |buffers| then currentBufferPosition <= currentBuffer.size
                  else currentBufferPosition == 0
        invariant position == Total(buffers[..current]) + currentBufferPosition
        invariant absN <= position && position - absN == old(position) - difference
        decreases current
      {
        if currentBufferPosition >= absN {
          position := position - absN;
          currentBufferPosition := currentBufferPosition - absN;
          return;
        }
        absN := absN - currentBufferPosition;
        position := position - currentBufferPosition;
        assert current != 0 by { assert buffers[..0] == []; }
        var iter := Previous();
        current := iter;
        currentBuffer := buffers[iter];
        currentBufferPosition := currentBuffer.size;
      }
    }

    /** `operator[]` */
    method Index(difference: int) returns (c: char)
      requires Valid() && 0 <= position + difference < Total(buffers)
      ensures position + difference < |Flat(buffers)| && c == Flat(buffers)[position + difference]
    {
      var tmp := new BuffersIterator.Copy(this);
      tmp.Advance(difference);
      c := tmp.Dereference();
    }

    /** Equality looks at the positions only; that is enough. */
    method Equal(other: BuffersIterator) returns (same: bool)
      requires Valid() && other.Valid() && buffers == other.buffers
      ensures same <==> current == other.current && currentBufferPosition == other.currentBufferPosition
    {
      OnlyPlace(buffers, current, currentBufferPosition);
      OnlyPlace(buffers, other.current, other.currentBufferPosition);
      same := position == other.position;
    }

    method DistanceTo(other: BuffersIterator) returns (n: int)
      requires Valid() && other.Valid() && buffers == other.buffers
      ensures 0 <= position + n <= Total(buffers)
      ensures position + n == other.position
    {
      OnlyPlace(buffers, other.current, other.currentBufferPosition);
      n := other.position - position;
    }
  }

  /** |difference| single steps. */
  method Steps(it: BuffersIterator, difference: int)
    requires it.Valid() && 0 <= it.position + difference <= Total(it.buffers)
    modifies it
    ensures it.Valid() && it.position == old(it.position) + difference
  {
    var n := 0;
    while n != difference
      invariant 0 <= n <= difference || difference <= n <= 0
      invariant it.Valid() && it.position == old(it.position) + n
      decreases if n < difference then difference - n else n - difference
    {
      if difference > 0 {
        it.Increment();
        n := n + 1;
      } else {
        it.Decrement();
        n := n - 1;
      }
    }
  }

  /** Advancing by n and taking |n| single steps end in the same state, whatever empty buffers
      lie between. */
  method AdvanceIsSteps(it: BuffersIterator, difference: int)
    returns (advanced: BuffersIterator, stepped: BuffersIterator)
    requires it.Valid() && 0 <= it.position + difference <= Total(it.buffers)
    ensures advanced.buffers == stepped.buffers == it.buffers
    ensures advanced.position == stepped.position == it.position + difference
    ensures (advanced.current, advanced.currentBufferPosition)
            == (stepped.current, stepped.currentBufferPosition)
            == Locate(it.buffers, it.position + difference)
  {
    stepped := new BuffersIterator.Copy(it);
    Steps(stepped, difference);
    advanced := new BuffersIterator.Copy(it);
    advanced.Advance(difference);
    OnlyPlace(it.buffers, advanced.current, advanced.currentBufferPosition);
    OnlyPlace(it.buffers, stepped.current, stepped.currentBufferPosition);
  }
}
