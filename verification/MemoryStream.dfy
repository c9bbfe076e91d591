/**
 The second bit writer, which overwrites instead of OR-ing and leaves garbage above its cursor, with the
 reader meant as its inverse.  Capacity is given; growing the buffer is not modelled.
 */
module MemoryStreams {
  import opened Bits
  import opened BitPacking

  /** The low byte of x << s. */
  function ByteShl(x: nat, s: nat): (b: Byte)
  {
    Pow2Values();
    LowBound(Shl(x, s), 8);
    Low(Shl(x, s), 8)
  }

  lemma {:induction false} ByteShlBit(x: nat, s: nat, k: nat)
    ensures Bit(ByteShl(x, s), k) <==> s <= k < 8 && Bit(x, k - s)
  {
    LowBit(Shl(x, s), 8, k);
    ShlBit(x, s, k);
  }

  /** ~(0xff << s) as a byte. */
  function BelowMask(s: nat): (b: Byte)
  {
    Pow2Values();
    Not(ByteShl(255, s), 8)
  }

  lemma {:induction false} BelowMaskBit(s: nat, k: nat)
    requires k < 8
    ensures Bit(BelowMask(s), k) <==> k < s
  {
    Pow2Values();
    NotBit(ByteShl(255, s), 8, k);
    ByteShlBit(255, s, k);
    if k >= s {
      assert Mask(8) == 255;
      MaskBit(8, k - s);
    }
  }

  /** The current byte with the bits below the cursor kept and the value put above them. */
  function Overlaid(b: Byte, value: Byte, offset: nat): (r: Byte)
  {
    AndBound(b, BelowMask(offset));
    Pow2Values();
    OrBound(And(b, BelowMask(offset)), ByteShl(value, offset), 8);
    Or(And(b, BelowMask(offset)), ByteShl(value, offset))
  }

  lemma {:induction false} OverlaidBit(b: Byte, value: Byte, offset: nat, k: nat)
    requires k < 8
    ensures Bit(Overlaid(b, value, offset), k) <==> if k < offset then Bit(b, k) else Bit(value, k - offset)
  {
    OrBit(And(b, BelowMask(offset)), ByteShl(value, offset), k);
    AndBit(b, BelowMask(offset), k);
    BelowMaskBit(offset, k);
    ByteShlBit(value, offset, k);
  }

  function ByteShr(x: Byte, s: nat): Byte
  {
    ShrBound(x, s);
    Shr(x, s)
  }

  /** The buffer after one write: one byte or two are overwritten. */
  function Put(bytes: seq<Byte>, head: nat, value: Byte, count: nat): (r: seq<Byte>)
    requires head / 8 < |bytes| && (8 - head % 8 < count ==> head / 8 + 1 < |bytes|)
    ensures |r| == |bytes|
  {
    var p, offset := head / 8, head % 8;
    var once := bytes[p := Overlaid(bytes[p], value, offset)];
    if 8 - offset < count then once[p + 1 := ByteShr(value, 8 - offset)] else once
  }

  /** A write appends the low bits of its value below the new cursor, whatever was above the old one. */
  lemma {:induction false} PutAppends(bytes: seq<Byte>, head: nat, value: Byte, count: nat)
    requires head + count <= 8 * |bytes| && head / 8 < |bytes| && head % 8 + count <= 16
    ensures BitList(Put(bytes, head, value, count))[..head + count] == BitList(bytes)[..head] + BitsOf(value, count)
  {
    var r := Put(bytes, head, value, count);
    forall j | 0 <= j < head + count
      ensures At(r, j) <==> if j < head then At(bytes, j) else Bit(value, j - head)
    {
      PutAt(bytes, head, value, count, j);
    }
  }

  lemma {:induction false} PutAt(bytes: seq<Byte>, head: nat, value: Byte, count: nat, j: nat)
    requires j < head + count <= 8 * |bytes| && head / 8 < |bytes| && head % 8 + count <= 16
    ensures At(Put(bytes, head, value, count), j) <==> if j < head then At(bytes, j) else Bit(value, j - head)
  {
    var p, offset := head / 8, head % 8;
    if j / 8 == p {
      OverlaidBit(bytes[p], value, offset, j % 8);
    } else if j / 8 == p + 1 && j >= head {
      ShrBit(value, 8 - offset, j % 8);
      assert j % 8 + (8 - offset) == j - head;
    }
  }

  class OutputMemoryBitStream {
    var bitHead: nat
    const rawBuff: array<Byte>

    ghost predicate Valid()
      reads this
    {
      bitHead <= 8 * rawBuff.Length
    }

    /** What has been written. */
    ghost function Written(): seq<bool>
      reads this, rawBuff
      requires Valid()
    {
      BitList(rawBuff[..])[..bitHead]
    }

    /** Whatever the buffer holds is garbage above the cursor. */
    constructor (buffer: array<Byte>)
      ensures Valid() && rawBuff == buffer && Written() == []
    {
      rawBuff, bitHead := buffer, 0;
    }

    method WriteBits(inData: Byte, inBitCount: nat)
      requires Valid() && bitHead + inBitCount <= 8 * rawBuff.Length && bitHead < 8 * rawBuff.Length
      requires bitHead % 8 + inBitCount <= 16
      modifies this, rawBuff
      ensures Valid() && Written() == old(Written()) + BitsOf(inData, inBitCount)
    {
      PutAppends(rawBuff[..], bitHead, inData, inBitCount);
      ghost var before := rawBuff[..];
      var byteOffset, bitOffset := bitHead / 8, bitHead % 8;
      rawBuff[byteOffset] := Overlaid(rawBuff[byteOffset], inData, bitOffset);
      var bitsRemaining := 8 - bitOffset;
      if bitsRemaining < inBitCount {
        rawBuff[byteOffset + 1] := ByteShr(inData, bitsRemaining);
      }
      assert rawBuff[..] == Put(before, bitHead, inData, inBitCount);
      bitHead := bitHead + inBitCount;
    }

    /** The overload that takes a pointer to the source bytes. */
    method WriteAll(inData: seq<Byte>, inBitCount0: nat)
      requires Valid() && inBitCount0 <= 8 * |inData| && bitHead + inBitCount0 <= 8 * rawBuff.Length
      modifies this, rawBuff
      ensures Valid() && Written() == old(Written()) + BitList(inData)[..inBitCount0]
    {
      var inBitCount, src := inBitCount0, 0;
      while inBitCount > 8
        invariant inBitCount + 8 * src == inBitCount0 && (inBitCount0 > 0 ==> inBitCount > 0)
        invariant Valid() && bitHead == old(bitHead) + 8 * src
        invariant Written() == old(Written()) + BitList(inData)[..8 * src]
      {
        SourceByte(inData, src, 8);
        WriteBits(inData[src], 8);
        src := src + 1;
        inBitCount := inBitCount - 8;
      }
      if inBitCount > 0 {
        SourceByte(inData, src, inBitCount);
        WriteBits(inData[src], inBitCount);
      }
    }
  }

  lemma {:induction false} SourceByte(bytes: seq<Byte>, i: nat, n: nat)
    requires i < |bytes| && n <= 8
    ensures BitList(bytes)[..8 * i] + BitsOf(bytes[i], n) == BitList(bytes)[..8 * i + n]
  {
    forall k | 0 <= k < n ensures At(bytes, 8 * i + k) == Bit(bytes[i], k) {
      assert (8 * i + k) / 8 == i && (8 * i + k) % 8 == k;
    }
  }

  /** What a read takes from the byte under the cursor and, if need be, the next. */
  function Assembled(bytes: seq<Byte>, head: nat, count: nat): Byte
    requires head / 8 < |bytes| && (8 - head % 8 < count ==> head / 8 + 1 < |bytes|)
  {
    var p, offset := head / 8, head % 8;
    var first := ByteShr(bytes[p], offset);
    if 8 - offset < count then
      Pow2Values();
      OrBound(first, ByteShl(bytes[p + 1], 8 - offset), 8);
      Or(first, ByteShl(bytes[p + 1], 8 - offset))
    else first
  }

  lemma {:induction false} AssembledBit(bytes: seq<Byte>, head: nat, count: nat, k: nat)
    requires head + count <= 8 * |bytes| && k < count <= 8
    ensures Bit(Assembled(bytes, head, count), k) <==> At(bytes, head + k)
  {
    var p, offset := head / 8, head % 8;
    var first := ByteShr(bytes[p], offset);
    ShrBit(bytes[p], offset, k);
    if 8 - offset < count {
      OrBit(first, ByteShl(bytes[p + 1], 8 - offset), k);
      ByteShlBit(bytes[p + 1], 8 - offset, k);
    }
    if k + offset < 8 {
      assert (head + k) / 8 == p && (head + k) % 8 == k + offset;
    } else {
      assert (head + k) / 8 == p + 1 && (head + k) % 8 == k + offset - 8;
      Pow2Values();
      BitOfBounded(bytes[p], 8, k + offset);
    }
  }

  /** The byte that a read returns: what is above the wanted bits is masked off. */
  function Gathered(bytes: seq<Byte>, head: nat, count: nat): Byte
    requires head / 8 < |bytes| && (8 - head % 8 < count ==> head / 8 + 1 < |bytes|)
  {
    AndBound(Assembled(bytes, head, count), BelowMask(count));
    And(Assembled(bytes, head, count), BelowMask(count))
  }

  lemma {:induction false} GatheredBits(bytes: seq<Byte>, head: nat, count: nat)
    requires 1 <= count <= 8 && head + count <= 8 * |bytes|
    ensures Gathered(bytes, head, count) == ValueOf(BitList(bytes)[head..head + count])
  {
    var v, s := Gathered(bytes, head, count), BitList(bytes)[head..head + count];
    forall k | 0 <= k < 8 ensures Bit(v, k) <==> Bit(ValueOf(s), k) {
      SameBit(bytes, head, count, k);
    }
    SliceBound(s);
    Pow2Values();
    BitsExtensional(v, ValueOf(s), 8);
  }

  lemma {:induction false} SameBit(bytes: seq<Byte>, head: nat, count: nat, k: nat)
    requires 1 <= count <= 8 && head + count <= 8 * |bytes| && k < 8
    ensures Bit(Gathered(bytes, head, count), k) <==> Bit(ValueOf(BitList(bytes)[head..head + count]), k)
  {
    GatheredBit(bytes, head, count, k);
    SliceBit(BitList(bytes)[head..head + count], 8, k);
  }

  lemma {:induction false} SliceBound(s: seq<bool>)
    requires |s| <= 8
    ensures ValueOf(s) < Pow2(8)
  {
    BitsOfValueOf(s);
    Pow2Monotone(|s|, 8);
  }

  /** The value of a list of bits has those bits and no others. */
  lemma {:induction false} SliceBit(s: seq<bool>, n: nat, k: nat)
    requires |s| <= n && k < n
    ensures Bit(ValueOf(s), k) <==> k < |s| && s[k]
  {
    BitsOfValueOf(s);
    if k < |s| {
      assert BitsOf(ValueOf(s), |s|)[k] == s[k];
    } else {
      BitOfBounded(ValueOf(s), |s|, k);
    }
  }

  lemma {:induction false} GatheredBit(bytes: seq<Byte>, head: nat, count: nat, k: nat)
    requires 1 <= count <= 8 && head + count <= 8 * |bytes| && k < 8
    ensures Bit(Gathered(bytes, head, count), k) <==> k < count && At(bytes, head + k)
  {
    AndBit(Assembled(bytes, head, count), BelowMask(count), k);
    BelowMaskBit(count, k);
    if k < count {
      AssembledBit(bytes, head, count, k);
    }
  }

  class InputMemoryBitStream {
    var bitHead: nat
    const rawBuff: array<Byte>

    constructor (inData: array<Byte>)
      ensures rawBuff == inData && bitHead == 0
    {
      rawBuff, bitHead := inData, 0;
    }

    /** The value is returned; the code computes it but keeps it to itself, taking its parameter by value. */
    method ReadBits(requiredBitCount: nat) returns (outData: Byte)
      requires 1 <= requiredBitCount <= 8 && bitHead + requiredBitCount <= 8 * rawBuff.Length
      modifies this
      ensures bitHead == old(bitHead) + requiredBitCount
      ensures outData == ValueOf(BitList(rawBuff[..])[old(bitHead)..bitHead])
    {
      GatheredBits(rawBuff[..], bitHead, requiredBitCount);
      outData := Gathered(rawBuff[..], bitHead, requiredBitCount);
      bitHead := bitHead + requiredBitCount;
    }
  }

  /** A byte of which some low bits are to be sent. */
  datatype Chunk = Chunk(value: Byte, count: nat)

  function ChunkBits(chunks: seq<Chunk>): seq<bool>
  {
    if chunks == [] then []
    else ChunkBits(chunks[..|chunks| - 1]) + BitsOf(chunks[|chunks| - 1].value, chunks[|chunks| - 1].count)
  }

  lemma {:induction false} BitsPrefix(chunks: seq<Chunk>, i: nat)
    requires i <= |chunks|
    ensures ChunkBits(chunks[..i]) <= ChunkBits(chunks)
  {
    if i < |chunks| {
      var front := chunks[..|chunks| - 1];
      assert front[..i] == chunks[..i];
      BitsPrefix(front, i);
    } else {
      assert chunks[..i] == chunks;
    }
  }

  /** The two writers leave the same bits below their cursors: those of the chunks, in order. */
  method WritersAgree(chunks: seq<Chunk>, packed: array<Byte>, raw: array<Byte>)
    requires forall i :: 0 <= i < |chunks| ==> 1 <= chunks[i].count <= 8
    requires packed != raw && |ChunkBits(chunks)| <= 8 * packed.Length && |ChunkBits(chunks)| <= 8 * raw.Length
    modifies packed, raw
    ensures BitList(packed[..])[..|ChunkBits(chunks)|] == ChunkBits(chunks)
    ensures BitList(raw[..])[..|ChunkBits(chunks)|] == ChunkBits(chunks)
  {
    var a := new BitPacker(Write, packed);
    var b := new OutputMemoryBitStream(raw);
    for i := 0 to |chunks|
      invariant a.Valid() && a.mode == Write && a.buffer == packed && fresh(a)
      invariant b.Valid() && b.rawBuff == raw && fresh(b)
      invariant a.Stream()[..a.Cursor()] == ChunkBits(chunks[..i]) == b.Written()
    {
      assert chunks[..i + 1][..i] == chunks[..i];
      BitsPrefix(chunks, i + 1);
      ghost var was, c := a.Stream(), a.Cursor();
      a.WriteBits(chunks[i].value, chunks[i].count);
      SplicedFront(was, c, BitsOf(chunks[i].value, chunks[i].count));
      b.WriteBits(chunks[i].value, chunks[i].count);
    }
    assert chunks[..|chunks|] == chunks;
  }

  lemma {:induction false} SplicedFront<A>(s: seq<A>, start: nat, part: seq<A>)
    requires start + |part| <= |s|
    ensures Spliced(s, start, part)[..start + |part|] == s[..start] + part
  {
  }

  /** Where a chunk's bits are, and what they say. */
  lemma {:induction false} ChunkAt(chunks: seq<Chunk>, i: nat, bits: seq<bool>)
    requires i < |chunks| && ChunkBits(chunks) <= bits
    ensures var head := |ChunkBits(chunks[..i])|;
      && |ChunkBits(chunks[..i + 1])| == head + chunks[i].count <= |bits|
      && ValueOf(bits[head..head + chunks[i].count]) == Low(chunks[i].value, chunks[i].count)
  {
    assert chunks[..i + 1][..i] == chunks[..i];
    BitsPrefix(chunks, i + 1);
    var head, part := |ChunkBits(chunks[..i])|, BitsOf(chunks[i].value, chunks[i].count);
    assert ChunkBits(chunks[..i + 1]) == ChunkBits(chunks[..i]) + part;
    assert ChunkBits(chunks[..i + 1]) <= bits;
    assert bits[head..head + chunks[i].count] == part;
    ValueOfBitsOf(chunks[i].value, chunks[i].count);
  }

  /** Reading the chunks back in order gives the low bits of each. */
  method ReadChunks(chunks: seq<Chunk>, raw: array<Byte>) returns (back: seq<Byte>)
    requires forall i :: 0 <= i < |chunks| ==> 1 <= chunks[i].count <= 8
    requires ChunkBits(chunks) <= BitList(raw[..])
    ensures |back| == |chunks| && forall i :: 0 <= i < |chunks| ==> back[i] == Low(chunks[i].value, chunks[i].count)
  {
    var c := new InputMemoryBitStream(raw);
    back := [];
    for i := 0 to |chunks|
      invariant fresh(c) && c.rawBuff == raw && c.bitHead == |ChunkBits(chunks[..i])|
      invariant |back| == i && forall j :: 0 <= j < i ==> back[j] == Low(chunks[j].value, chunks[j].count)
    {
      ChunkAt(chunks, i, BitList(raw[..]));
      var x := c.ReadBits(chunks[i].count);
      back := back + [x];
    }
  }
}
