/** How a chunk is put on the wire: four little-endian bytes per IEEE 754 binary32 sample. */
module Encoding {
  import opened Sequences

  newtype byte = x: int | 0 <= x < 0x100
  /** The bit pattern of a binary32 value, NaN payloads and signed zeros included. */
  newtype bits32 = x: int | 0 <= x < 0x1_0000_0000

  /** The k-th byte of a pattern, least significant first. */
  function ByteAt(bits: bits32, k: nat): byte
    requires k < 4
  {
    (match k
     case 0 => bits % 0x100
     case 1 => bits / 0x100 % 0x100
     case 2 => bits / 0x1_0000 % 0x100
     case _ => bits / 0x100_0000) as byte
  }

  function Encode(samples: seq<bits32>): (bytes: seq<byte>)
    ensures |bytes| == 4 * |samples|
  {
    seq(4 * |samples|, i requires 0 <= i < 4 * |samples| => ByteAt(samples[i / 4], i % 4))
  }

  /** What the receiver reads back from each group of four bytes. */
  function Decode(bytes: seq<byte>): (samples: seq<bits32>)
    ensures |samples| == |bytes| / 4
  {
    seq(|bytes| / 4, i requires 0 <= i < |bytes| / 4 =>
        (bytes[4 * i] as int + 0x100 * bytes[4 * i + 1] as int
         + 0x1_0000 * bytes[4 * i + 2] as int + 0x100_0000 * bytes[4 * i + 3] as int) as bits32)
  }

  lemma EncodeAt(samples: seq<bits32>, i: nat, k: nat)
    requires i < |samples| && k < 4
    ensures Encode(samples)[4 * i + k] == ByteAt(samples[i], k)
  {
    assert (4 * i + k) / 4 == i && (4 * i + k) % 4 == k;
  }

  /** The encoding loop. */
  method SendAudio(audioData: array<bits32>) returns (binaryData: array<byte>)
    ensures fresh(binaryData) && binaryData[..] == Encode(audioData[..])
  {
    binaryData := new byte[audioData.Length * 4](_ => 0);
    ghost var encoded := Encode(audioData[..]);
    for i := 0 to audioData.Length
      invariant forall k :: 0 <= k < 4 * i ==> binaryData[k] == encoded[k]
    {
      forall k: nat | k < 4 ensures encoded[4 * i + k] == ByteAt(audioData[i], k) {
        EncodeAt(audioData[..], i, k);
      }
      PutUint32(binaryData, i * 4, audioData[i]);
    }
  }

  /** Four bytes at an offset, least significant first. */
  method PutUint32(target: array<byte>, at: nat, bits: bits32)
    requires at + 4 <= target.Length
    modifies target
    ensures forall k :: 0 <= k < target.Length ==>
              target[k] == if at <= k < at + 4 then ByteAt(bits, k - at) else old(target[k])
  {
    target[at] := (bits % 0x100) as byte;
    target[at + 1] := (bits / 0x100 % 0x100) as byte;
    target[at + 2] := (bits / 0x1_0000 % 0x100) as byte;
    target[at + 3] := (bits / 0x100_0000) as byte;
  }

  lemma BytesRecompose(bits: bits32)
    ensures ByteAt(bits, 0) as int + 0x100 * ByteAt(bits, 1) as int
            + 0x1_0000 * ByteAt(bits, 2) as int + 0x100_0000 * ByteAt(bits, 3) as int == bits as int
  {
    var b := bits as int;
    assert b / 0x1_0000 == b / 0x100 / 0x100;
    assert b / 0x100_0000 == b / 0x1_0000 / 0x100;
  }

  /** Four bytes a sample, the least significant first. */
  lemma LittleEndian(samples: seq<bits32>, i: nat)
    requires i < |samples|
    ensures var b := Encode(samples);
            b[4 * i] as int + 256 * b[4 * i + 1] as int + 65_536 * b[4 * i + 2] as int + 16_777_216 * b[4 * i + 3] as int
            == samples[i] as int
  {
    EncodeAt(samples, i, 0);
    EncodeAt(samples, i, 1);
    EncodeAt(samples, i, 2);
    EncodeAt(samples, i, 3);
    BytesRecompose(samples[i]);
  }

  /** Decoding recovers every bit pattern. */
  lemma RoundTrip(samples: seq<bits32>)
    ensures Decode(Encode(samples)) == samples
  {
    forall i | 0 <= i < |samples| ensures Decode(Encode(samples))[i] == samples[i] {
      LittleEndian(samples, i);
    }
  }

  /** Encoding is byte for byte the same across any chunk boundary. */
  lemma EncodeConcat(a: seq<bits32>, b: seq<bits32>)
    ensures Encode(a + b) == Encode(a) + Encode(b)
  {
  }

  function EncodeEach(chunks: seq<seq<bits32>>): seq<seq<byte>> {
    if chunks == [] then [] else [Encode(chunks[0])] + EncodeEach(chunks[1..])
  }

  /** The byte stream does not depend on how the samples were cut into chunks, and carries all of them. */
  lemma {:induction false} ByteStreamIgnoresChunking(chunks: seq<seq<bits32>>)
    ensures Flatten(EncodeEach(chunks)) == Encode(Flatten(chunks))
    ensures Decode(Flatten(EncodeEach(chunks))) == Flatten(chunks)
  {
    if chunks == [] {
    } else {
      ByteStreamIgnoresChunking(chunks[1..]);
      EncodeConcat(chunks[0], Flatten(chunks[1..]));
      assert EncodeEach(chunks)[1..] == EncodeEach(chunks[1..]);
    }
    RoundTrip(Flatten(chunks));
  }
}
