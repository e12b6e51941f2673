/** Searching and slicing of strings, with the conventions of `std::string`. */
module Text {
  datatype Option<+T> = None | Some(value: T)

  /** The first position of `c` in `s` at or after `from`, as `std::string::find` reports it. */
  function Find(s: string, c: char, from: nat := 0): (r: Option<nat>)
    ensures r.Some? ==> from <= r.value < |s| && s[r.value] == c
    ensures r.Some? ==> forall k :: from <= k < r.value ==> s[k] != c
    ensures r.None? ==> forall k :: from <= k < |s| ==> s[k] != c
    decreases |s| - from
  {
    if from >= |s| then None
    else if s[from] == c then Some(from)
    else Find(s, c, from + 1)
  }

  /** The last position of `c` in `s`, as `std::string::rfind` reports it. */
  function RFind(s: string, c: char): (r: Option<nat>)
    ensures r.Some? ==> r.value < |s| && s[r.value] == c
    ensures r.Some? ==> forall k :: r.value < k < |s| ==> s[k] != c
    ensures r.None? ==> c !in s
  {
    if s == [] then None
    else if s[|s| - 1] == c then Some(|s| - 1)
    else RFind(s[..|s| - 1], c)
  }

  /** `std::string::substr(pos, count)`. The count is clamped to the end of the string; a
      negative count stands for the wrapped `size_t` (or `npos`), which reaches past every end. */
  function Substr(s: string, pos: nat, count: int): (r: string)
    requires pos <= |s|
    ensures |r| <= |s| - pos && r <= s[pos..]
  {
    if count < 0 || pos + count > |s| then s[pos..] else s[pos..pos + count]
  }

  lemma FindIs(s: string, c: char, from: nat, at: nat)
    requires from <= at < |s| && s[at] == c
    requires forall k :: from <= k < at ==> s[k] != c
    ensures Find(s, c, from) == Some(at)
  {
    assert Find(s, c, from).Some?;
  }

  lemma RFindIs(s: string, c: char, at: nat)
    requires at < |s| && s[at] == c
    requires forall k :: at < k < |s| ==> s[k] != c
    ensures RFind(s, c) == Some(at)
  {
    assert RFind(s, c).Some?;
  }

  /** All pieces joined end to end. */
  function Concat<T>(pieces: seq<seq<T>>): (r: seq<T>) {
    if pieces == [] then [] else pieces[0] + Concat(pieces[1..])
  }

  lemma {:induction false} ConcatAppend<T>(a: seq<seq<T>>, b: seq<seq<T>>)
    ensures Concat(a + b) == Concat(a) + Concat(b)
  {
    if a == [] {
      assert a + b == b;
    } else {
      assert (a + b)[1..] == a[1..] + b;
      ConcatAppend(a[1..], b);
    }
  }

  /** Concatenation is associative. */
  lemma Regroup(a: string, b: string, c: string)
    ensures a + b + c == a + (b + c)
  {
  }
}
