/** The overloads of `buffer_copy`: one buffer or many on either side, with and without a limit. */
module BufferCopy {
  import opened Text
  import opened Buffers

  /** What every overload does: as many bytes are copied as the targets hold, the sources offer
      and the limit allows; the flat view of the targets starts with these bytes and keeps its
      own from there on; the sources and all other memory keep theirs. */
  twostate predicate Copied(targets: seq<Buffer>, sources: seq<Buffer>, max: nat, n: nat)
    requires AllValid(targets) && AllValid(sources)
    reads Memory(targets), Memory(sources)
  {
    && n == Min(Min(Total(targets), Total(sources)), max)
    && n <= |old(Flat(sources))| && n <= |old(Flat(targets))|
    && Flat(targets) == old(Flat(sources))[..n] + old(Flat(targets))[n..]
    && Flat(sources) == old(Flat(sources))
    && OthersKept(targets)
  }

  /** A buffer that lies `offset` bytes into the k-th of a sequence. */
  ghost predicate Lies(b: Buffer, buffers: seq<Buffer>, k: nat, offset: nat) {
    && k < |buffers| && offset + b.size <= buffers[k].size
    && b.data == buffers[k].data && b.start == buffers[k].start + offset
  }

  /** The place of that buffer's first byte in the flat view. */
  ghost function Place(buffers: seq<Buffer>, k: nat, offset: nat): (r: nat)
    requires k <= |buffers|
  {
    Total(buffers[..k]) + offset
  }

  lemma SourceApart(target: Buffer, source: Buffer, sources: seq<Buffer>, si: nat, soff: nat)
    requires Lies(source, sources, si, soff) && sources[si].Valid() && sources[si].Apart(target)
    ensures source.Valid() && target.Apart(source)
  {
  }

  /** The text with `chunk` in place of as many bytes at `at`. */
  ghost function Spliced(whole: seq<char>, at: nat, chunk: seq<char>): (r: seq<char>)
    requires at + |chunk| <= |whole|
    ensures |r| == |whole|
  {
    whole[..at] + chunk + whole[at + |chunk|..]
  }

  lemma Written(before: seq<char>, after: seq<char>, at: nat, chunk: seq<char>)
    requires at + |chunk| <= |before| == |after|
    requires forall i :: 0 <= i < |chunk| ==> after[at + i] == chunk[i]
    requires forall i :: 0 <= i < |after| && !(at <= i < at + |chunk|) ==> after[i] == before[i]
    ensures after == Spliced(before, at, chunk)
  {
    forall i | 0 <= i < |after| ensures after[i] == Spliced(before, at, chunk)[i] {
      if at <= i < at + |chunk| {
        assert after[at + (i - at)] == chunk[i - at];
      }
    }
  }

  /** What one `buffer_copy_1` into a part of a buffer does to that buffer. */
  method CopyPart(target: Buffer, source: Buffer, ghost whole: Buffer, ghost toff: nat, ghost chunk: seq<char>)
    returns (n: nat)
    requires whole.Valid() && source.Valid() && target.Apart(source)
    requires Lies(target, [whole], 0, toff)
    requires chunk == source.Bytes()[..Min(target.size, source.size)]
    modifies target.data
    ensures n == Min(target.size, source.size)
    ensures whole.Bytes() == Spliced(old(whole.Bytes()), toff, chunk)
    ensures target.data != null ==>
      forall k :: 0 <= k < target.data.Length && !(target.start <= k < target.start + n)
        ==> target.data[k] == old(target.data[k])
  {
    ghost var before, bytes := whole.Bytes(), source.Bytes();
    n := BufferCopy1(target, source);
    ghost var after := whole.Bytes();
    forall i | 0 <= i < n ensures after[toff + i] == chunk[i] {
      assert after[toff + i] == target.Bytes()[i] == bytes[i];
    }
    forall i | 0 <= i < |after| && !(toff <= i < toff + n) ensures after[i] == before[i] {
      assert after[i] == whole.data[whole.start + i];
    }
    Written(before, after, toff, chunk);
  }

  /** It does nothing to buffers apart from the target. */
  method CopyPartBeside(target: Buffer, source: Buffer, ghost whole: Buffer, ghost toff: nat,
                        ghost chunk: seq<char>, ghost others: set<Buffer>) returns (n: nat)
    requires whole.Valid() && source.Valid() && target.Apart(source)
    requires Lies(target, [whole], 0, toff)
    requires chunk == source.Bytes()[..Min(target.size, source.size)]
    requires forall b <- others :: b.Valid() && b.Apart(target)
    modifies target.data
    ensures n == Min(target.size, source.size)
    ensures whole.Bytes() == Spliced(old(whole.Bytes()), toff, chunk)
    ensures forall b <- others :: b.Bytes() == old(b.Bytes())
    ensures target.data != null ==>
      forall k :: 0 <= k < target.data.Length && !(target.start <= k < target.start + n)
        ==> target.data[k] == old(target.data[k])
  {
    n := CopyPart(target, source, whole, toff, chunk);
    forall b | b in others ensures b.Bytes() == old(b.Bytes()) {
      assert b.Valid() && b.Apart(target);
      if b.size > 0 {
        assert forall j :: b.start <= j < b.start + b.size ==> b.data[j] == old(b.data[j]);
        assert b.data[b.start..b.start + b.size] == old(b.data[b.start..b.start + b.size]);
      }
    }
  }

  /** What it does to all buffers. */
  method CopyPartOf(target: Buffer, source: Buffer, ghost targets: seq<Buffer>, ghost ti: nat, ghost toff: nat,
                    ghost sources: seq<Buffer>, ghost chunk: seq<char>) returns (n: nat)
    requires AllValid(targets) && AllValid(sources) && source.Valid() && target.Apart(source)
    requires Lies(target, targets, ti, toff)
    requires chunk == source.Bytes()[..Min(target.size, source.size)]
    requires forall k {:trigger targets[k].Apart(target)} ::
      0 <= k < |targets| && k != ti ==> targets[k].Apart(target)
    requires forall k {:trigger sources[k].Apart(target)} ::
      0 <= k < |sources| ==> sources[k].Apart(target)
    modifies target.data
    ensures n == Min(target.size, source.size)
    ensures targets[ti].Bytes() == Spliced(old(targets[ti].Bytes()), toff, chunk)
    ensures forall k :: 0 <= k < |targets| && k != ti ==> targets[k].Bytes() == old(targets[k].Bytes())
    ensures forall k :: 0 <= k < |sources| ==> sources[k].Bytes() == old(sources[k].Bytes())
    ensures target.data != null ==>
      forall k :: 0 <= k < target.data.Length && !(target.start <= k < target.start + n)
        ==> target.data[k] == old(target.data[k])
  {
    ghost var others := set b | b in targets + sources && b.Valid() && b.Apart(target);
    forall k | 0 <= k < |targets| && k != ti ensures targets[k] in others {
      assert targets[k].Apart(target) && targets[k].Valid();
    }
    forall k | 0 <= k < |sources| ensures sources[k] in others {
      assert sources[k].Apart(target) && sources[k].Valid();
    }
    n := CopyPartBeside(target, source, targets[ti], toff, chunk, others);
  }

  lemma PartBytes(part: Buffer, whole: Buffer, offset: nat, n: nat)
    requires whole.Valid() && Lies(part, [whole], 0, offset) && n <= part.size
    ensures part.Valid() && part.Bytes()[..n] == whole.Bytes()[offset..offset + n]
  {
  }

  /** The same for a part of a source. */
  method CopyWithin(target: Buffer, source: Buffer,
                    ghost targets: seq<Buffer>, ghost ti: nat, ghost toff: nat,
                    ghost sources: seq<Buffer>, ghost si: nat, ghost soff: nat) returns (n: nat)
    requires AllValid(targets) && AllValid(sources) && Separate(targets, sources)
    requires Lies(target, targets, ti, toff) && Lies(source, sources, si, soff)
    modifies target.data
    ensures n == Min(target.size, source.size)
    ensures targets[ti].Valid() && sources[si].Valid()
    ensures targets[ti].Bytes() == Spliced(old(targets[ti].Bytes()), toff, old(sources[si].Bytes())[soff..soff + n])
    ensures forall k :: 0 <= k < |targets| && k != ti ==> targets[k].Bytes() == old(targets[k].Bytes())
    ensures forall k :: 0 <= k < |sources| ==> sources[k].Bytes() == old(sources[k].Bytes())
    ensures target.data != null ==>
      forall k :: 0 <= k < target.data.Length && !(target.start <= k < target.start + n)
        ==> target.data[k] == old(target.data[k])
  {
    PartApart(targets, ti, target, toff, sources);
    SourceApart(target, source, sources, si, soff);
    PartBytes(source, sources[si], soff, Min(target.size, source.size));
    ghost var chunk := sources[si].Bytes()[soff..soff + Min(target.size, source.size)];
    n := CopyPartOf(target, source, targets, ti, toff, sources, chunk);
  }

  /** The same, in terms of the bytes of all buffers. */
  method CopyPieces(target: Buffer, source: Buffer,
                    ghost targets: seq<Buffer>, ghost ti: nat, ghost toff: nat,
                    ghost sources: seq<Buffer>, ghost si: nat, ghost soff: nat) returns (n: nat)
    requires AllValid(targets) && AllValid(sources) && Separate(targets, sources)
    requires Lies(target, targets, ti, toff) && Lies(source, sources, si, soff)
    modifies target.data
    ensures n == Min(target.size, source.size)
    ensures Pieces(targets)[ti] == Spliced(old(Pieces(targets))[ti], toff, old(Pieces(sources))[si][soff..soff + n])
    ensures forall k :: 0 <= k < |targets| && k != ti ==> Pieces(targets)[k] == old(Pieces(targets))[k]
    ensures Pieces(sources) == old(Pieces(sources))
    ensures target.data != null ==>
      forall k :: 0 <= k < target.data.Length && !(target.start <= k < target.start + n)
        ==> target.data[k] == old(target.data[k])
  {
    ghost var rest := Pieces(sources);
    n := CopyWithin(target, source, targets, ti, toff, sources, si, soff);
    assert Pieces(sources) == rest;
  }

  /** The same, in terms of all pieces end to end. */
  method CopyConcat(target: Buffer, source: Buffer,
                    ghost targets: seq<Buffer>, ghost ti: nat, ghost toff: nat, ghost at: nat,
                    ghost sources: seq<Buffer>, ghost si: nat, ghost soff: nat, ghost from: nat) returns (n: nat)
    requires AllValid(targets) && AllValid(sources) && Separate(targets, sources)
    requires Lies(target, targets, ti, toff) && Lies(source, sources, si, soff)
    requires at == |Concat(Pieces(targets)[..ti])| + toff && from == |Concat(Pieces(sources)[..si])| + soff
    modifies target.data
    ensures n == Min(target.size, source.size)
    ensures at + n <= |old(Concat(Pieces(targets)))| && from + n <= |old(Concat(Pieces(sources)))|
    ensures Concat(Pieces(targets))
            == Spliced(old(Concat(Pieces(targets))), at, old(Concat(Pieces(sources)))[from..from + n])
    ensures Concat(Pieces(sources)) == old(Concat(Pieces(sources)))
    ensures target.data != null ==>
      forall k :: 0 <= k < target.data.Length && !(target.start <= k < target.start + n)
        ==> target.data[k] == old(target.data[k])
  {
    ghost var oldTargets, oldSources := Pieces(targets), Pieces(sources);
    n := CopyPieces(target, source, targets, ti, toff, sources, si, soff);
    Transfer(oldTargets, Pieces(targets), ti, toff, at, oldSources, si, soff, from,
             oldSources[si][soff..soff + n], n);
  }

  /** The same, in terms of the flat views. */
  method CopyFlat(target: Buffer, source: Buffer,
                  ghost targets: seq<Buffer>, ghost ti: nat, ghost toff: nat, ghost at: nat,
                  ghost sources: seq<Buffer>, ghost si: nat, ghost soff: nat, ghost from: nat) returns (n: nat)
    requires AllValid(targets) && AllValid(sources) && Separate(targets, sources)
    requires Lies(target, targets, ti, toff) && Lies(source, sources, si, soff)
    requires at == |Concat(Pieces(targets)[..ti])| + toff && from == |Concat(Pieces(sources)[..si])| + soff
    modifies target.data
    ensures n == Min(target.size, source.size)
    ensures at + n <= |old(Flat(targets))| && from + n <= |old(Flat(sources))|
    ensures Flat(targets) == Spliced(old(Flat(targets)), at, old(Flat(sources))[from..from + n])
    ensures Flat(sources) == old(Flat(sources))
    ensures target.data != null ==>
      forall k :: 0 <= k < target.data.Length && !(target.start <= k < target.start + n)
        ==> target.data[k] == old(target.data[k])
  {
    FlatConcat(targets);
    FlatConcat(sources);
    n := CopyConcat(target, source, targets, ti, toff, at, sources, si, soff, from);
    FlatConcat(targets);
    FlatConcat(sources);
  }

  lemma PlaceIs(buffers: seq<Buffer>, k: nat, offset: nat)
    requires AllValid(buffers) && k <= |buffers|
    ensures Place(buffers, k, offset) == |Concat(Pieces(buffers)[..k])| + offset
  {
    TotalIsLength(buffers, k);
  }

  /** It does nothing to memory outside the targets. */
  method CopyBetween(target: Buffer, source: Buffer,
                     ghost targets: seq<Buffer>, ghost ti: nat, ghost toff: nat, ghost at: nat,
                     ghost sources: seq<Buffer>, ghost si: nat, ghost soff: nat, ghost from: nat) returns (n: nat)
    requires AllValid(targets) && AllValid(sources) && Separate(targets, sources)
    requires Lies(target, targets, ti, toff) && Lies(source, sources, si, soff)
    requires at == |Concat(Pieces(targets)[..ti])| + toff && from == |Concat(Pieces(sources)[..si])| + soff
    modifies Memory(targets)
    ensures n == Min(target.size, source.size)
    ensures at + n <= |old(Flat(targets))| && from + n <= |old(Flat(sources))|
    ensures Flat(targets) == Spliced(old(Flat(targets)), at, old(Flat(sources))[from..from + n])
    ensures Flat(sources) == old(Flat(sources))
    ensures OthersKept(targets)
  {
    n := CopyFlat(target, source, targets, ti, toff, at, sources, si, soff, from);
  }

  /** One `buffer_copy_1` between stretches of a target and a source moves the stretch between
      the flat views, and does nothing to memory outside the targets. */
  method CopyChunk(target: Buffer, source: Buffer,
                     ghost targets: seq<Buffer>, ghost ti: nat, ghost toff: nat, ghost at: nat,
                     ghost sources: seq<Buffer>, ghost si: nat, ghost soff: nat, ghost from: nat) returns (n: nat)
    requires AllValid(targets) && AllValid(sources) && Separate(targets, sources)
    requires Lies(target, targets, ti, toff) && Lies(source, sources, si, soff)
    requires at == Place(targets, ti, toff) && from == Place(sources, si, soff)
    modifies Memory(targets)
    ensures n == Min(target.size, source.size)
    ensures at + n <= |old(Flat(targets))| && from + n <= |old(Flat(sources))|
    ensures Flat(targets) == Spliced(old(Flat(targets)), at, old(Flat(sources))[from..from + n])
    ensures Flat(sources) == old(Flat(sources))
    ensures OthersKept(targets)
  {
    PlaceIs(targets, ti, toff);
    PlaceIs(sources, si, soff);
    n := CopyBetween(target, source, targets, ti, toff, at, sources, si, soff, from);
  }

  /** Moving a stretch between two pieces moves it between the wholes. */
  lemma Transfer(targets: seq<seq<char>>, after: seq<seq<char>>, ti: nat, toff: nat, at: nat,
                 sources: seq<seq<char>>, si: nat, soff: nat, from: nat, chunk: seq<char>, n: nat)
    requires |chunk| == n
    requires ti < |targets| == |after| && toff + n <= |targets[ti]|
    requires si < |sources| && soff + n <= |sources[si]|
    requires at == |Concat(targets[..ti])| + toff && from == |Concat(sources[..si])| + soff
    requires chunk == sources[si][soff..soff + n]
    requires forall j :: 0 <= j < |targets| && j != ti ==> after[j] == targets[j]
    requires after[ti] == Spliced(targets[ti], toff, chunk)
    ensures at + n <= |Concat(targets)| && from + n <= |Concat(sources)|
    ensures Concat(after) == Spliced(Concat(targets), at, Concat(sources)[from..from + n])
  {
    Inside(sources, si, soff, n);
    assert Concat(sources)[from..from + n] == chunk;
    Overwrite(targets, ti, toff, chunk, after);
  }

  lemma PartApart(targets: seq<Buffer>, ti: nat, target: Buffer, toff: nat, sources: seq<Buffer>)
    requires Separate(targets, sources) && Lies(target, targets, ti, toff)
    ensures forall k {:trigger targets[k].Apart(target)} ::
      0 <= k < |targets| && k != ti ==> targets[k].Apart(target)
    ensures forall k {:trigger sources[k].Apart(target)} ::
      0 <= k < |sources| ==> sources[k].Apart(target)
  {
    forall k | 0 <= k < |targets| && k != ti ensures targets[k].Apart(target) {
      assert targets[k].Apart(targets[ti]);
    }
    forall k | 0 <= k < |sources| ensures sources[k].Apart(target) {
      assert targets[ti].Apart(sources[k]);
    }
  }

  /** A view whose first `done` bytes have been copied gains the next n. */
  lemma Grow(source: seq<char>, target: seq<char>, done: nat, n: nat, view: seq<char>, next: seq<char>)
    requires done + n <= |source| && done + n <= |target|
    requires view == source[..done] + target[done..]
    requires next == Spliced(view, done, source[done..done + n])
    ensures next == source[..done + n] + target[done + n..]
  {
  }

  /** Where a walk over the buffers stands: `offset` bytes into the k-th, `done` bytes in all. */
  ghost predicate Stands(buffers: seq<Buffer>, k: nat, offset: nat, done: nat) {
    && k <= |buffers|
    && (if k < |buffers| then offset <= buffers[k].size else offset == 0)
    && done == Place(buffers, k, offset)
  }

  /** The end of a buffer is the start of the next. */
  lemma Moves(buffers: seq<Buffer>, k: nat, offset: nat, done: nat, n: nat)
    requires Stands(buffers, k, offset, done) && k < |buffers| && offset + n <= buffers[k].size
    ensures Stands(buffers, k, offset + n, done + n)
    ensures offset + n == buffers[k].size ==> Stands(buffers, k + 1, 0, done + n)
    ensures done + n <= Total(buffers)
  {
    TotalNext(buffers, k);
    TotalPrefix(buffers, k + 1);
  }

  lemma Stood(buffers: seq<Buffer>, k: nat, offset: nat, done: nat)
    requires Stands(buffers, k, offset, done)
    ensures done <= Total(buffers)
    ensures k == |buffers| ==> done == Total(buffers)
  {
    if k < |buffers| {
      TotalNext(buffers, k);
      TotalPrefix(buffers, k + 1);
    } else {
      assert buffers[..k] == buffers;
    }
  }

  /** The targets have received the first `done` bytes of the sources. */
  ghost predicate Received(targets: seq<Buffer>, sources: seq<Buffer>,
                           target: seq<char>, source: seq<char>, done: nat)
    requires AllValid(targets) && AllValid(sources)
    reads Memory(targets), Memory(sources)
  {
    && done <= |source| && done <= |target|
    && Flat(targets) == source[..done] + target[done..]
    && Flat(sources) == source
  }

  /** One step of every copying loop. */
  method CopyNext(targetBuffer: Buffer, sourceBuffer: Buffer,
                  ghost targets: seq<Buffer>, ghost ti: nat, ghost toff: nat,
                  ghost sources: seq<Buffer>, ghost si: nat, ghost soff: nat,
                  ghost target: seq<char>, ghost source: seq<char>, ghost done: nat) returns (n: nat)
    requires AllValid(targets) && AllValid(sources) && Separate(targets, sources)
    requires Lies(targetBuffer, targets, ti, toff) && Lies(sourceBuffer, sources, si, soff)
    requires Stands(targets, ti, toff, done) && Stands(sources, si, soff, done)
    requires Received(targets, sources, target, source, done)
    modifies Memory(targets)
    ensures n == Min(targetBuffer.size, sourceBuffer.size)
    ensures Received(targets, sources, target, source, done + n)
    ensures OthersKept(targets)
  {
    ghost var view := Flat(targets);
    n := CopyChunk(targetBuffer, sourceBuffer, targets, ti, toff, done, sources, si, soff, done);
    ghost var next := Flat(targets);
    assert next == Spliced(view, done, source[done..done + n]);
    Grow(source, target, done, n, view, next);
  }

  /** Where a many-to-many loop stands: the two iterators, the two offsets, and the count. */
  datatype Walk = Walk(ti: nat, toff: nat, si: nat, soff: nat, done: nat)

  ghost predicate Walked(targets: seq<Buffer>, sources: seq<Buffer>, w: Walk) {
    Stands(targets, w.ti, w.toff, w.done) && Stands(sources, w.si, w.soff, w.done)
  }

  /** How the iterators and offsets move once n bytes are copied. */
  function Next(targets: seq<Buffer>, sources: seq<Buffer>, w: Walk, n: nat): (r: Walk)
    requires w.ti < |targets| && w.si < |sources|
  {
    var (ti, toff) := if w.toff + n == targets[w.ti].size then (w.ti + 1, 0) else (w.ti, w.toff + n);
    var (si, soff) := if w.soff + n == sources[w.si].size then (w.si + 1, 0) else (w.si, w.soff + n);
    Walk(ti, toff, si, soff, w.done + n)
  }

  lemma NextWalked(targets: seq<Buffer>, sources: seq<Buffer>, w: Walk, n: nat)
    requires Walked(targets, sources, w) && w.ti < |targets| && w.si < |sources|
    requires w.toff + n <= targets[w.ti].size && w.soff + n <= sources[w.si].size
    ensures Walked(targets, sources, Next(targets, sources, w, n))
  {
    Moves(targets, w.ti, w.toff, w.done, n);
    Moves(sources, w.si, w.soff, w.done, n);
  }

  /** One round of a many-to-many loop with at most `limit` bytes. */
  method CopyRound(targets: seq<Buffer>, sources: seq<Buffer>, w: Walk, limit: nat,
                   ghost target: seq<char>, ghost source: seq<char>) returns (next: Walk)
    requires AllValid(targets) && AllValid(sources) && Separate(targets, sources)
    requires Walked(targets, sources, w) && w.ti < |targets| && w.si < |sources|
    requires Received(targets, sources, target, source, w.done)
    modifies Memory(targets)
    ensures var n := Min(targets[w.ti].size - w.toff, Min(sources[w.si].size - w.soff, limit));
            next == Next(targets, sources, w, n)
    ensures Walked(targets, sources, next)
    ensures Received(targets, sources, target, source, next.done)
    ensures OthersKept(targets)
  {
    assert targets[w.ti].Valid() && sources[w.si].Valid();
    var targetBuffer := targets[w.ti].Advance(w.toff);
    var sourceBuffer := sources[w.si].Advance(w.soff);
    var n := CopyHere(targetBuffer, sourceBuffer, targets, sources, w, limit, target, source);
    next := w.(done := w.done + n);
    if n == targetBuffer.size {
      next := next.(ti := w.ti + 1, toff := 0);
    } else {
      next := next.(toff := w.toff + n);
    }
    if n == sourceBuffer.size {
      next := next.(si := w.si + 1, soff := 0);
    } else {
      next := next.(soff := w.soff + n);
    }
    NextWalked(targets, sources, w, n);
  }

  /** The copy of that round. */
  method CopyHere(targetBuffer: Buffer, sourceBuffer: Buffer, ghost targets: seq<Buffer>, ghost sources: seq<Buffer>,
                  ghost w: Walk, limit: nat, ghost target: seq<char>, ghost source: seq<char>) returns (n: nat)
    requires AllValid(targets) && AllValid(sources) && Separate(targets, sources)
    requires Walked(targets, sources, w) && w.ti < |targets| && w.si < |sources|
    requires targets[w.ti].Valid() && targetBuffer == targets[w.ti].Advance(w.toff)
    requires sources[w.si].Valid() && sourceBuffer == sources[w.si].Advance(w.soff)
    requires Received(targets, sources, target, source, w.done)
    modifies Memory(targets)
    ensures n == Min(targets[w.ti].size - w.toff, Min(sources[w.si].size - w.soff, limit))
    ensures Received(targets, sources, target, source, w.done + n)
    ensures OthersKept(targets)
  {
    RestLies(targets, w.ti, w.toff);
    RestLies(sources, w.si, w.soff);
    n := CopyNext(targetBuffer, sourceBuffer.Limit(limit), targets, w.ti, w.toff,
                  sources, w.si, w.soff, target, source, w.done);
  }

  lemma RestLies(buffers: seq<Buffer>, k: nat, offset: nat)
    requires AllValid(buffers) && k < |buffers| && offset <= buffers[k].size
    ensures buffers[k].Valid() && Lies(buffers[k].Advance(offset), buffers, k, offset)
    ensures buffers[k].Advance(offset).size == buffers[k].size - offset
  {
    assert buffers[k].Valid();
  }

  lemma Finished(targets: seq<Buffer>, sources: seq<Buffer>, w: Walk)
    requires Walked(targets, sources, w)
    ensures w.done <= Min(Total(targets), Total(sources))
    ensures w.ti == |targets| || w.si == |sources| ==> w.done == Min(Total(targets), Total(sources))
  {
    Stood(targets, w.ti, w.toff, w.done);
    Stood(sources, w.si, w.soff, w.done);
  }

  /** Many buffers to many, without a limit. */
  method ManyToMany(targets: seq<Buffer>, sources: seq<Buffer>) returns (totalBytesCopied: nat)
    requires AllValid(targets) && AllValid(sources) && Separate(targets, sources)
    modifies Memory(targets)
    ensures Copied(targets, sources, Total(targets), totalBytesCopied)
  {
    ghost var source, target := Flat(sources), Flat(targets);
    var w := Walk(0, 0, 0, 0, 0);
    while w.ti != |targets| && w.si != |sources|
      invariant Walked(targets, sources, w)
      invariant Received(targets, sources, target, source, w.done)
      invariant OthersKept(targets)
      decreases |targets| - w.ti + |sources| - w.si
    {
      w := CopyRound(targets, sources, w, targets[w.ti].size, target, source);
    }
    Finished(targets, sources, w);
    totalBytesCopied := w.done;
  }

  /** Many buffers to many, at most `maxBytesToCopy` bytes. */
  method ManyToManyLimited(targets: seq<Buffer>, sources: seq<Buffer>, maxBytesToCopy: nat)
    returns (totalBytesCopied: nat)
    requires AllValid(targets) && AllValid(sources) && Separate(targets, sources)
    modifies Memory(targets)
    ensures Copied(targets, sources, maxBytesToCopy, totalBytesCopied)
  {
    ghost var source, target := Flat(sources), Flat(targets);
    var w := Walk(0, 0, 0, 0, 0);
    while w.done != maxBytesToCopy && w.ti != |targets| && w.si != |sources|
      invariant w.done <= maxBytesToCopy && Walked(targets, sources, w)
      invariant Received(targets, sources, target, source, w.done)
      invariant OthersKept(targets)
      decreases |targets| - w.ti + |sources| - w.si, maxBytesToCopy - w.done
    {
      w := CopyRound(targets, sources, w, maxBytesToCopy - w.done, target, source);
    }
    Finished(targets, sources, w);
    totalBytesCopied := w.done;
  }

  lemma First(buffers: seq<Buffer>, n: nat)
    requires |buffers| > 0 && AllValid(buffers)
    ensures buffers[0].Valid()
    ensures n <= buffers[0].size ==> Stands(buffers, 0, n, n)
  {
    assert buffers[0].Valid();
  }

  lemma Single(buffers: seq<Buffer>)
    requires |buffers| == 1
    ensures Total(buffers) == buffers[0].size
  {
    TotalNext(buffers, 0);
    assert buffers[..1] == buffers;
  }

  /** One buffer to one. */
  method OneToOne(targets: seq<Buffer>, sources: seq<Buffer>, maxBytesToCopy: nat) returns (totalBytesCopied: nat)
    requires |targets| == 1 && |sources| == 1
    requires AllValid(targets) && AllValid(sources) && Separate(targets, sources)
    modifies Memory(targets)
    ensures Copied(targets, sources, maxBytesToCopy, totalBytesCopied)
  {
    ghost var source, target := Flat(sources), Flat(targets);
    totalBytesCopied := CopyFirst(targets, sources, maxBytesToCopy, target, source);
    Single(targets);
    Single(sources);
  }

  /** The copy between the first buffers. */
  method CopyFirst(targets: seq<Buffer>, sources: seq<Buffer>, maxBytesToCopy: nat,
                   ghost target: seq<char>, ghost source: seq<char>) returns (n: nat)
    requires |targets| > 0 && |sources| > 0
    requires AllValid(targets) && AllValid(sources) && Separate(targets, sources)
    requires Received(targets, sources, target, source, 0)
    modifies Memory(targets)
    ensures n == Min(targets[0].size, Min(sources[0].size, maxBytesToCopy))
    ensures Received(targets, sources, target, source, n)
    ensures OthersKept(targets)
  {
    First(targets, 0);
    First(sources, 0);
    n := CopyNext(targets[0], sources[0].Limit(maxBytesToCopy), targets, 0, 0, sources, 0, 0, target, source, 0);
  }

  /** What is left of a buffer, of which `limit` bytes may be used, when `done` bytes have been. */
  function Remaining(one: seq<Buffer>, done: nat, limit: nat): (rest: Buffer)
    requires |one| > 0
  {
    Buffer(one[0].data, one[0].start + done, if done < limit then limit - done else 0)
  }

  /** Where a loop between one buffer and many may stand: the k-th of the many is next, and `done`
      bytes have been copied. */
  ghost function Halfway(one: seq<Buffer>, many: seq<Buffer>, limit: nat): (r: iset<(nat, nat)>)
    requires |one| > 0
  {
    iset k: nat, done: nat |
      k <= |many| && done <= limit <= one[0].size && (done == limit || Stands(many, k, 0, done)) :: (k, done)
  }

  lemma HalfwayStart(one: seq<Buffer>, many: seq<Buffer>, max: nat)
    requires |one| > 0 && AllValid(one)
    ensures one[0].Valid() && one[0].Limit(max) == Remaining(one, 0, Min(one[0].size, max))
    ensures (0, 0) in Halfway(one, many, Min(one[0].size, max))
  {
    assert one[0].Valid();
  }

  lemma HalfwayNext(one: seq<Buffer>, many: seq<Buffer>, k: nat, done: nat, limit: nat, n: nat)
    requires |one| > 0 && AllValid(one) && k < |many|
    requires (k, done) in Halfway(one, many, limit) && done < limit
    requires n == Min(limit - done, many[k].size)
    ensures Remaining(one, done, limit).Valid()
    ensures (k + 1, done + n) in Halfway(one, many, limit)
    ensures Remaining(one, done, limit).Advance(n) == Remaining(one, done + n, limit)
  {
    assert one[0].Valid();
    Moves(many, k, 0, done, n);
  }

  lemma HalfwayEnd(one: seq<Buffer>, many: seq<Buffer>, k: nat, done: nat, max: nat)
    requires |one| == 1 && done <= Total(many)
    requires (k, done) in Halfway(one, many, Min(one[0].size, max))
    requires done == Min(one[0].size, max) || k == |many|
    ensures done == Min(Min(Total(one), Total(many)), max)
  {
    Single(one);
    if done != Min(one[0].size, max) {
      Stood(many, k, 0, done);
    }
  }

  /** One round of gathering: as much of the si-th source as the rest of the target takes. */
  method GatherRound(rest: Buffer, targets: seq<Buffer>, sources: seq<Buffer>, si: nat, ghost done: nat,
                     ghost limit: nat, ghost target: seq<char>, ghost source: seq<char>)
    returns (n: nat, next: Buffer)
    requires |targets| > 0 && si < |sources| && rest.size != 0
    requires AllValid(targets) && AllValid(sources) && Separate(targets, sources)
    requires (si, done) in Halfway(targets, sources, limit) && rest == Remaining(targets, done, limit)
    requires Received(targets, sources, target, source, done)
    modifies Memory(targets)
    ensures (si + 1, done + n) in Halfway(targets, sources, limit) && next == Remaining(targets, done + n, limit)
    ensures Received(targets, sources, target, source, done + n)
    ensures OthersKept(targets)
  {
    First(targets, done);
    assert sources[si].Valid();
    n := CopyNext(rest, sources[si], targets, 0, done, sources, si, 0, target, source, done);
    next := rest.Advance(n);
    HalfwayNext(targets, sources, si, done, limit, n);
  }

  /** The loop that gathers many buffers into the first `limit` bytes of one. */
  method Gather(targets: seq<Buffer>, sources: seq<Buffer>, limited: Buffer, ghost limit: nat,
                ghost target: seq<char>, ghost source: seq<char>) returns (totalBytesCopied: nat, si: nat)
    requires |targets| > 0
    requires AllValid(targets) && AllValid(sources) && Separate(targets, sources)
    requires (0, 0) in Halfway(targets, sources, limit) && limited == Remaining(targets, 0, limit)
    requires Received(targets, sources, target, source, 0)
    modifies Memory(targets)
    ensures (si, totalBytesCopied) in Halfway(targets, sources, limit)
    ensures totalBytesCopied == limit || si == |sources|
    ensures Received(targets, sources, target, source, totalBytesCopied)
    ensures OthersKept(targets)
  {
    totalBytesCopied, si := 0, 0;
    var targetBuffer := limited;
    while targetBuffer.size != 0 && si != |sources|
      invariant si <= |sources| && (si, totalBytesCopied) in Halfway(targets, sources, limit)
      invariant targetBuffer == Remaining(targets, totalBytesCopied, limit)
      invariant Received(targets, sources, target, source, totalBytesCopied)
      invariant OthersKept(targets)
      decreases |sources| - si
    {
      var bytesCopied;
      bytesCopied, targetBuffer :=
        GatherRound(targetBuffer, targets, sources, si, totalBytesCopied, limit, target, source);
      totalBytesCopied := totalBytesCopied + bytesCopied;
      si := si + 1;
    }
  }

  /** Many buffers to one. */
  method OneToMany(targets: seq<Buffer>, sources: seq<Buffer>, maxBytesToCopy: nat) returns (totalBytesCopied: nat)
    requires |targets| == 1
    requires AllValid(targets) && AllValid(sources) && Separate(targets, sources)
    modifies Memory(targets)
    ensures Copied(targets, sources, maxBytesToCopy, totalBytesCopied)
  {
    ghost var source, target := Flat(sources), Flat(targets);
    HalfwayStart(targets, sources, maxBytesToCopy);
    var si;
    totalBytesCopied, si := Gather(targets, sources, targets[0].Limit(maxBytesToCopy),
                                   Min(targets[0].size, maxBytesToCopy), target, source);
    FlatLength(sources);
    HalfwayEnd(targets, sources, si, totalBytesCopied, maxBytesToCopy);
  }

  /** One round of scattering: as much of the rest of the source as the ti-th target takes. */
  method ScatterRound(rest: Buffer, targets: seq<Buffer>, ti: nat, sources: seq<Buffer>, ghost done: nat,
                      ghost limit: nat, ghost target: seq<char>, ghost source: seq<char>)
    returns (n: nat, next: Buffer)
    requires |sources| > 0 && ti < |targets| && rest.size != 0
    requires AllValid(targets) && AllValid(sources) && Separate(targets, sources)
    requires (ti, done) in Halfway(sources, targets, limit) && rest == Remaining(sources, done, limit)
    requires Received(targets, sources, target, source, done)
    modifies Memory(targets)
    ensures (ti + 1, done + n) in Halfway(sources, targets, limit) && next == Remaining(sources, done + n, limit)
    ensures Received(targets, sources, target, source, done + n)
    ensures OthersKept(targets)
  {
    First(sources, done);
    assert targets[ti].Valid();
    n := CopyNext(targets[ti], rest, targets, ti, 0, sources, 0, done, target, source, done);
    next := rest.Advance(n);
    HalfwayNext(sources, targets, ti, done, limit, n);
  }

  /** The loop that scatters the first `limit` bytes of one buffer over many. */
  method Scatter(targets: seq<Buffer>, sources: seq<Buffer>, limited: Buffer, ghost limit: nat,
                 ghost target: seq<char>, ghost source: seq<char>) returns (totalBytesCopied: nat, ti: nat)
    requires |sources| > 0
    requires AllValid(targets) && AllValid(sources) && Separate(targets, sources)
    requires (0, 0) in Halfway(sources, targets, limit) && limited == Remaining(sources, 0, limit)
    requires Received(targets, sources, target, source, 0)
    modifies Memory(targets)
    ensures (ti, totalBytesCopied) in Halfway(sources, targets, limit)
    ensures totalBytesCopied == limit || ti == |targets|
    ensures Received(targets, sources, target, source, totalBytesCopied)
    ensures OthersKept(targets)
  {
    totalBytesCopied, ti := 0, 0;
    var sourceBuffer := limited;
    while sourceBuffer.size != 0 && ti != |targets|
      invariant ti <= |targets| && (ti, totalBytesCopied) in Halfway(sources, targets, limit)
      invariant sourceBuffer == Remaining(sources, totalBytesCopied, limit)
      invariant Received(targets, sources, target, source, totalBytesCopied)
      invariant OthersKept(targets)
      decreases |targets| - ti
    {
      var bytesCopied;
      bytesCopied, sourceBuffer :=
        ScatterRound(sourceBuffer, targets, ti, sources, totalBytesCopied, limit, target, source);
      totalBytesCopied := totalBytesCopied + bytesCopied;
      ti := ti + 1;
    }
  }

  /** One buffer to many. */
  method ManyToOne(targets: seq<Buffer>, sources: seq<Buffer>, maxBytesToCopy: nat) returns (totalBytesCopied: nat)
    requires |sources| == 1
    requires AllValid(targets) && AllValid(sources) && Separate(targets, sources)
    modifies Memory(targets)
    ensures Copied(targets, sources, maxBytesToCopy, totalBytesCopied)
  {
    ghost var source, target := Flat(sources), Flat(targets);
    HalfwayStart(sources, targets, maxBytesToCopy);
    var ti;
    totalBytesCopied, ti := Scatter(targets, sources, sources[0].Limit(maxBytesToCopy),
                                    Min(sources[0].size, maxBytesToCopy), target, source);
    FlatLength(targets);
    HalfwayEnd(sources, targets, ti, totalBytesCopied, maxBytesToCopy);
  }
}
