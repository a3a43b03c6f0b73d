/**
 * The chunk buffer: samples in, fixed-size chunks out. `Chunks` and `Residue` say what it
 * computes; `ChunkBuffer` models the slice arithmetic and the storage it works on.
 */
module Chunking {
  import opened Sequences

  // ----- What it computes -----

  /** The complete chunks at the front of the samples. */
  function Chunks(size: nat, samples: seq<real>): seq<seq<real>>
    requires size > 0
    decreases |samples|
  {
    if |samples| < size then [] else [samples[..size]] + Chunks(size, samples[size..])
  }

  /** What is left after the complete chunks. */
  function Residue(size: nat, samples: seq<real>): seq<real>
    requires size > 0
    decreases |samples|
  {
    if |samples| < size then samples else Residue(size, samples[size..])
  }

  /** Nothing is lost, added or reordered. */
  lemma {:induction false} ChunksConserve(size: nat, samples: seq<real>)
    requires size > 0
    ensures Flatten(Chunks(size, samples)) + Residue(size, samples) == samples
    decreases |samples|
  {
    if |samples| < size {
    } else {
      var head, rest := samples[..size], samples[size..];
      var later := Chunks(size, rest);
      assert head + Flatten(later) + Residue(size, rest) == samples by {
        ChunksConserve(size, rest);
        Associative(head, Flatten(later), Residue(size, rest));
        assert head + rest == samples;
      }
      FlattenCons(head, later);
    }
  }

  /** Every chunk is full and the residue is shorter than a chunk. */
  lemma {:induction false} ChunksFull(size: nat, samples: seq<real>)
    requires size > 0
    ensures forall i :: 0 <= i < |Chunks(size, samples)| ==> |Chunks(size, samples)[i]| == size
    ensures |Residue(size, samples)| < size
    decreases |samples|
  {
    if |samples| < size {
    } else {
      ChunksFull(size, samples[size..]);
    }
  }

  lemma OneMoreWindow(count: nat, size: nat)
    ensures (count + 1) * size == count * size + size
  {
  }

  /** The closed form: chunk i is the i-th window of `size` samples, and there are as many as fit. */
  lemma {:induction false} ChunkAt(size: nat, samples: seq<real>, i: nat)
    requires size > 0
    ensures |Chunks(size, samples)| * size <= |samples| < |Chunks(size, samples)| * size + size
    ensures i < |Chunks(size, samples)| ==>
              && 0 <= i * size <= i * size + size <= |samples|
              && Chunks(size, samples)[i] == samples[i * size..i * size + size]
    decreases |samples|
  {
    if |samples| < size {
    } else {
      var rest := samples[size..];
      var j := if i > 0 then i - 1 else 0;
      ChunkAt(size, rest, j);
      assert Chunks(size, samples) == [samples[..size]] + Chunks(size, rest);
      OneMoreWindow(|Chunks(size, rest)|, size);
      if 0 < i < |Chunks(size, samples)| {
        OneMoreWindow(j, size);
        assert samples[i * size..i * size + size] == rest[j * size..j * size + size];
      }
    }
  }

  /** Adding a then b is the same as adding both at once. */
  lemma {:induction false} AddTwice(size: nat, a: seq<real>, b: seq<real>)
    requires size > 0
    ensures Chunks(size, a + b) == Chunks(size, a) + Chunks(size, Residue(size, a) + b)
    ensures Residue(size, a + b) == Residue(size, Residue(size, a) + b)
    decreases |a|
  {
    if |a| < size {
    } else {
      var rest := a[size..];
      AddTwice(size, rest, b);
      assert (a + b)[size..] == rest + b && (a + b)[..size] == a[..size];
      Associative([a[..size]], Chunks(size, rest), Chunks(size, Residue(size, rest) + b));
    }
  }

  /** A run of `Add` calls: all chunks handed out, and the samples still buffered. */
  datatype Buffered = Buffered(emitted: seq<seq<real>>, buffer: seq<real>)

  function AddAll(size: nat, start: seq<real>, frames: seq<seq<real>>): Buffered
    requires size > 0
  {
    if frames == [] then Buffered([], start)
    else
      var before := AddAll(size, start, frames[..|frames| - 1]);
      var held := before.buffer + frames[|frames| - 1];
      Buffered(before.emitted + Chunks(size, held), Residue(size, held))
  }

  /** Framing does not matter: any run of adds gives what one add of all the samples gives. */
  lemma {:induction false} FramingIndependent(size: nat, start: seq<real>, frames: seq<seq<real>>)
    requires size > 0 && |start| < size
    ensures AddAll(size, start, frames)
         == Buffered(Chunks(size, start + Flatten(frames)), Residue(size, start + Flatten(frames)))
  {
    if frames == [] {
      assert start + Flatten(frames) == start;
    } else {
      var front, last := frames[..|frames| - 1], frames[|frames| - 1];
      FramingIndependent(size, start, front);
      assert frames == front + [last];
      FlattenConcat(front, [last]);
      FlattenSingleton(last);
      Associative(start, Flatten(front), last);
      AddTwice(size, start + Flatten(front), last);
    }
  }

  // ----- Termination -----

  /** What the loop of `Add` holds after `turns` turns. */
  function AfterTurns(size: nat, held: seq<real>, turns: nat): seq<real> {
    if turns == 0 || |held| < size then held else AfterTurns(size, held[size..], turns - 1)
  }

  lemma {:induction false} EnoughTurns(size: nat, held: seq<real>)
    requires size > 0
    ensures |AfterTurns(size, held, |held|)| < size
    decreases |held|
  {
    if |held| < size {
    } else {
      EnoughTurns(size, held[size..]);
      MoreTurns(size, held[size..], |held| - size, size - 1);
    }
  }

  lemma {:induction false} MoreTurns(size: nat, held: seq<real>, turns: nat, extra: nat)
    requires |AfterTurns(size, held, turns)| < size
    ensures AfterTurns(size, held, turns + extra) == AfterTurns(size, held, turns)
  {
    if turns == 0 || |held| < size {
    } else {
      MoreTurns(size, held[size..], turns - 1, extra);
    }
  }

  lemma {:induction false} ZeroSizeStuck(held: seq<real>, turns: nat)
    ensures AfterTurns(0, held, turns) == held
  {
    if turns == 0 {
    } else {
      assert held[0..] == held;
      ZeroSizeStuck(held, turns - 1);
    }
  }

  /** The loop of `Add` ends iff a chunk holds at least one sample, i.e. iff rate times duration reaches 1000. */
  lemma AddTerminatesExactly(sampleRate: nat, chunkDurationMs: nat, held: seq<real>)
    ensures (exists turns: nat :: |AfterTurns(sampleRate * chunkDurationMs / 1000, held, turns)|
                                  < sampleRate * chunkDurationMs / 1000)
            <==> sampleRate * chunkDurationMs >= 1000
  {
    var size := sampleRate * chunkDurationMs / 1000;
    if size > 0 {
      EnoughTurns(size, held);
    }
  }

  // ----- How it is stored -----

  /** Go's copy of `count` samples between two arrays. */
  method CopyRange(source: array<real>, from: nat, count: nat, target: array<real>, at: nat)
    requires source != target && from + count <= source.Length && at + count <= target.Length
    modifies target
    ensures target[..at] == old(target[..at])
    ensures target[at..at + count] == source[from..from + count]
    ensures target[at + count..] == old(target[at + count..])
  {
    for i := 0 to count
      invariant target[..at] == old(target[..at])
      invariant target[at..at + i] == source[from..from + i]
      invariant target[at + count..] == old(target[at + count..])
    {
      target[at + i] := source[from + i];
    }
  }

  class ChunkBuffer {
    const chunkSize: nat
    /** The slice: `len` samples of `base` from `offset` on; its capacity ends with `base`. */
    var base: array<real>
    var offset: nat
    var len: nat
    /** Every chunk returned so far. */
    ghost var handedOut: set<array<real>>

    ghost predicate Valid()
      reads this
    {
      && chunkSize > 0
      && offset + len <= base.Length
      && base !in handedOut
    }

    ghost function Contents(): seq<real>
      reads this, base
      requires Valid()
    {
      base[offset..offset + len]
    }

    constructor (sampleRate: nat, chunkDurationMs: nat)
      requires sampleRate * chunkDurationMs >= 1000
      ensures Valid() && fresh(base) && Contents() == [] && handedOut == {}
      ensures chunkSize == sampleRate * chunkDurationMs / 1000
    {
      var size := sampleRate * chunkDurationMs / 1000;
      chunkSize := size;
      base := new real[size](_ => 0.0);
      offset, len := 0, 0;
      handedOut := {};
    }

    /** Moves the slice to a new array with room for at least `need` samples; Go leaves the exact size open. */
    method Grow(need: nat)
      requires Valid() && need >= len
      modifies this
      ensures Valid() && handedOut == old(handedOut) && len == old(len)
      ensures fresh(base) && offset + need <= base.Length
      ensures Contents() == old(Contents())
    {
      var capacity: nat := *;
      if capacity < need {
        capacity := need;
      }
      var grown := new real[capacity](_ => 0.0);
      CopyRange(base, offset, len, grown, 0);
      assert grown[0..0 + len] == Contents();
      base, offset := grown, 0;
    }

    /** Go's append: in place when the capacity allows, else after moving to a larger array. */
    method Append(samples: array<real>)
      requires Valid() && samples != base
      modifies this, base
      ensures Valid() && handedOut == old(handedOut)
      ensures base == old(base) || fresh(base)
      ensures Contents() == old(Contents()) + samples[..]
    {
      var need := len + samples.Length;
      if offset + need > base.Length {
        Grow(need);
      }
      ghost var held := Contents();
      CopyRange(samples, 0, samples.Length, base, offset + len);
      assert base[offset..offset + len] == base[..offset + len][offset..] == held;
      assert base[offset..offset + need] == base[offset..offset + len] + base[offset + len..offset + need];
      len := need;
    }

    /** A fresh copy of the first `count` buffered samples. */
    method CopyOut(count: nat) returns (chunk: array<real>)
      requires Valid() && count <= len
      ensures fresh(chunk) && chunk[..] == Contents()[..count]
    {
      chunk := new real[count](_ => 0.0);
      CopyRange(base, offset, count, chunk, 0);
      assert chunk[..] == chunk[0..0 + count];
      assert base[offset..offset + count] == Contents()[..count];
    }

    /** One turn of the emitting loop: copy a chunk out, move the slice past it. */
    method TakeChunk() returns (chunk: array<real>)
      requires Valid() && len >= chunkSize
      modifies this
      ensures Valid() && base == old(base) && len == old(len) - chunkSize
      ensures fresh(chunk) && chunk[..] == old(Contents()[..chunkSize])
      ensures Contents() == old(Contents()[chunkSize..])
      ensures handedOut == old(handedOut) + {chunk}
    {
      chunk := CopyOut(chunkSize);
      offset, len := offset + chunkSize, len - chunkSize;
      handedOut := handedOut + {chunk};
    }

    /**
     * Emits the complete chunks of what was buffered followed by the new samples and keeps the residue.
     * Chunks live in storage of their own, so no chunk handed out, now or earlier, is ever written again.
     */
    method Add(samples: array<real>) returns (chunks: seq<array<real>>)
      requires Valid() && samples != base
      modifies this, base
      ensures Valid() && (base == old(base) || fresh(base))
      ensures Contents() == Residue(chunkSize, old(Contents() + samples[..]))
      ensures |chunks| == |Chunks(chunkSize, old(Contents() + samples[..]))|
      ensures forall i :: 0 <= i < |chunks| ==>
                fresh(chunks[i]) && chunks[i][..] == Chunks(chunkSize, old(Contents() + samples[..]))[i]
      ensures forall i, j :: 0 <= i < j < |chunks| ==> chunks[i] != chunks[j]
      ensures handedOut == old(handedOut) + (set c | c in chunks)
      ensures forall c :: c in old(handedOut) ==> c[..] == old(c[..])
    {
      ghost var before := handedOut;
      Append(samples);
      ghost var all := Contents();
      ghost var emitted: seq<seq<real>> := [];
      chunks := [];
      while len >= chunkSize
        modifies this
        invariant Valid() && (base == old(base) || fresh(base))
        invariant emitted + Chunks(chunkSize, Contents()) == Chunks(chunkSize, all)
        invariant Residue(chunkSize, Contents()) == Residue(chunkSize, all)
        invariant |emitted| == |chunks|
        invariant forall i :: 0 <= i < |chunks| ==> fresh(chunks[i]) && chunks[i][..] == emitted[i]
        invariant forall i, j :: 0 <= i < j < |chunks| ==> chunks[i] != chunks[j]
        invariant handedOut == before + (set c | c in chunks)
        decreases len
      {
        ghost var held := Contents();
        var chunk := TakeChunk();
        Associative(emitted, [chunk[..]], Chunks(chunkSize, Contents()));
        chunks, emitted := chunks + [chunk], emitted + [chunk[..]];
      }
    }

    /** Emits whatever is buffered as a partial chunk and keeps the array for reuse. */
    method Flush() returns (chunk: array<real>)
      requires Valid()
      modifies this
      ensures Valid() && base == old(base) && Contents() == []
      ensures fresh(chunk) && chunk[..] == old(Contents())
      ensures handedOut == old(handedOut) + {chunk}
    {
      if len == 0 {
        chunk := new real[0];
      } else {
        chunk := CopyOut(len);
        len := 0;
      }
      handedOut := handedOut + {chunk};
    }

    /** Forgets the buffered samples and keeps the array for reuse. */
    method Reset()
      requires Valid()
      modifies this`len
      ensures Valid() && Contents() == []
    {
      len := 0;
    }
  }
}
