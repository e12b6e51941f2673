/** The receiving end of a connection: a stream buffer that is filled from a socket, which hands
    over the bytes in fragments of its own choosing. */
module Wire {
  import opened Text

  predicate MatchesAt(s: string, delim: string, k: nat) {
    k + |delim| <= |s| && forall i :: 0 <= i < |delim| ==> s[k + i] == delim[i]
  }

  /** The first place of a delimiter at or after `from`. */
  function FindText(s: string, delim: string, from: nat := 0): (r: Option<nat>)
    ensures r.Some? ==> from <= r.value && MatchesAt(s, delim, r.value)
    ensures r.Some? ==> forall k :: from <= k < r.value ==> !MatchesAt(s, delim, k)
    ensures r.None? ==> forall k :: from <= k ==> !MatchesAt(s, delim, k)
    decreases |s| - from
  {
    if from + |delim| > |s| then None
    else if MatchesAt(s, delim, from) then Some(from)
    else FindText(s, delim, from + 1)
  }

  /** A delimiter found in a prefix is the first of the whole. */
  lemma FoundInPrefix(s: string, more: string, delim: string)
    requires FindText(s, delim).Some?
    ensures FindText(s + more, delim) == FindText(s, delim)
  {
    assert forall k: nat :: k + |delim| <= |s| ==> (MatchesAt(s + more, delim, k) <==> MatchesAt(s, delim, k));
    assert MatchesAt(s + more, delim, FindText(s, delim).value);
    assert FindText(s + more, delim).Some?;
  }

  /** How a read ends. */
  datatype ReadEnd = Done | Full | EndOfFile

  class Inbox {
    /** The bytes that are still to arrive, cut as the network will deliver them; then the peer
        closes the connection. */
    var fragments: seq<string>
    /** The input sequence of the stream buffer. */
    var streambuf: string
    const maxSize: nat

    ghost predicate Valid()
      reads this
    {
      |streambuf| <= maxSize
    }

    constructor (fragments: seq<string>, maxSize: nat)
      ensures this.fragments == fragments && streambuf == "" && this.maxSize == maxSize && Valid()
    {
      this.fragments, streambuf, this.maxSize := fragments, "", maxSize;
    }

    ghost function Coming(): (bytes: string)
      reads this
    {
      Concat(fragments)
    }

    /** Everything that has not been consumed: buffered or still to arrive. */
    ghost function All(): (bytes: string)
      reads this
    {
      streambuf + Coming()
    }

    /** `read_some`: at most `limit` bytes of the next fragment; none at the end of the file. */
    method ReadSome(limit: nat) returns (n: nat)
      requires limit > 0
      modifies this
      ensures All() == old(All()) && n <= limit
      ensures |streambuf| == old(|streambuf|) + n && old(streambuf) <= streambuf
      ensures n == 0 ==> Coming() == "" && streambuf == old(streambuf)
      ensures |Coming()| + n == old(|Coming()|)
    {
      while fragments != [] && fragments[0] == ""
        invariant streambuf == old(streambuf) && Coming() == old(Coming())
        decreases |fragments|
      {
        fragments := fragments[1..];
      }
      if fragments == [] {
        return 0;
      }
      var first := fragments[0];
      n := if |first| < limit then |first| else limit;
      ghost var later := Concat(fragments[1..]);
      fragments := [first[n..]] + fragments[1..];
      streambuf := streambuf + first[..n];
      assert Coming() == first[n..] + later;
      assert first == first[..n] + first[n..];
    }

    /** `async_read_until`: fill the buffer until it holds the delimiter. */
    method ReadUntil(delim: string) returns (end: ReadEnd, bytesTransferred: nat)
      requires delim != ""
      requires Valid()
      modifies this
      ensures Valid()
      ensures All() == old(All()) && old(streambuf) <= streambuf
      ensures end.Done? ==>
        FindText(streambuf, delim).Some? && bytesTransferred == FindText(streambuf, delim).value + |delim|
      ensures FindText(old(streambuf), delim).Some? ==> end.Done? && streambuf == old(streambuf)
      ensures end.Full? ==> |streambuf| == maxSize
      ensures end.EndOfFile? ==> Coming() == "" && FindText(streambuf, delim).None?
    {
      bytesTransferred := 0;
      while FindText(streambuf, delim).None?
        invariant Valid() && All() == old(All()) && old(streambuf) <= streambuf
        invariant FindText(old(streambuf), delim).Some? ==> streambuf == old(streambuf)
        decreases |Coming()|
      {
        if |streambuf| >= maxSize {
          return Full, 0;
        }
        var n := ReadSome(if maxSize - |streambuf| < 65536 then maxSize - |streambuf| else 65536);
        if n == 0 {
          return EndOfFile, 0;
        }
      }
      return Done, FindText(streambuf, delim).value + |delim|;
    }

    /** `async_read` with `transfer_exactly(count)`: it asks for the missing bytes only, and stops
        early when the buffer is full. */
    method ReadExactly(count: nat) returns (end: ReadEnd)
      requires Valid()
      modifies this
      ensures Valid()
      ensures All() == old(All()) && old(streambuf) <= streambuf
      ensures |streambuf| <= old(|streambuf|) + count
      ensures end.Done? ==> |streambuf| == old(|streambuf|) + count
      ensures end.Full? ==> |streambuf| == maxSize
      ensures end.EndOfFile? ==> Coming() == "" && |streambuf| < old(|streambuf|) + count
    {
      var transferred := 0;
      while transferred < count
        invariant transferred <= count && |streambuf| == old(|streambuf|) + transferred
        invariant Valid() && All() == old(All()) && old(streambuf) <= streambuf
      {
        if |streambuf| >= maxSize {
          return Full;
        }
        var missing := count - transferred;
        var n := ReadSome(if maxSize - |streambuf| < missing then maxSize - |streambuf| else missing);
        if n == 0 {
          return EndOfFile;
        }
        transferred := transferred + n;
      }
      return Done;
    }

    /** `async_read` without a condition: until the buffer is full or the file ends. */
    method ReadAll() returns (end: ReadEnd)
      requires Valid()
      modifies this
      ensures Valid()
      ensures All() == old(All()) && old(streambuf) <= streambuf
      ensures end.Full? ==> |streambuf| == maxSize
      ensures end.EndOfFile? ==> Coming() == ""
      ensures !end.Done?
    {
      while |streambuf| < maxSize
        invariant Valid() && All() == old(All()) && old(streambuf) <= streambuf
        decreases |Coming()|
      {
        var n := ReadSome(maxSize - |streambuf|);
        if n == 0 {
          return EndOfFile;
        }
      }
      return Full;
    }
  }
}
