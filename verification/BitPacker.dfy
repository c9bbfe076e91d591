/**
 The bit packer: unaligned writes and reads of up to 32 bits through a byte buffer with a moving
 cursor.  The buffer is specified as one list of bits, least significant bit of byte 0 first.
 */
module BitPacking {
  import opened Bits

  /** Bit j of a byte buffer. */
  predicate At(bytes: seq<Byte>, j: nat)
    requires j < 8 * |bytes|
  {
    Bit(bytes[j / 8], j % 8)
  }

  function BitList(bytes: seq<Byte>): (s: seq<bool>)
    ensures |s| == 8 * |bytes|
  {
    seq(8 * |bytes|, j requires 0 <= j < 8 * |bytes| => At(bytes, j))
  }

  /** Replacing one byte changes the bits of that byte only. */
  lemma {:induction false} ReplaceByte(bytes: seq<Byte>, p: nat, b: Byte, j: nat)
    requires p < |bytes| && j < 8 * |bytes|
    ensures At(bytes[p := b], j) <==> if 8 * p <= j < 8 * p + 8 then Bit(b, j - 8 * p) else At(bytes, j)
  {
    if 8 * p <= j < 8 * p + 8 {
      assert j / 8 == p && j % 8 == j - 8 * p;
    }
  }

  /** The byte that one pass of the write loop stores. */
  function WrittenByte(b: Byte, value: nat, index: nat): Byte
  {
    ByteOr(b, Shl(value, index));
    Or(b, Low(Shl(value, index), 8))
  }

  lemma {:induction false} ByteOr(b: Byte, x: nat)
    ensures Or(b, Low(x, 8)) < 256
  {
    Pow2Values();
    LowBound(x, 8);
    OrBound(b, Low(x, 8), 8);
  }

  /** The buffer after one pass of the write loop. */
  function PutBytes(bytes: seq<Byte>, p: nat, value: nat, index: nat): seq<Byte>
    requires p < |bytes|
  {
    bytes[p := WrittenByte(bytes[p], value, index)]
  }

  lemma {:induction false} WrittenByteBit(b: Byte, value: nat, index: nat, k: nat)
    requires k < 8
    ensures Bit(WrittenByte(b, value, index), k) <==> Bit(b, k) || (k >= index && Bit(value, k - index))
  {
    OrBit(b, Low(Shl(value, index), 8), k);
    LowBit(Shl(value, index), 8, k);
    ShlBit(value, index, k);
  }

  /**
   One pass of the write loop puts n bits of the value at the cursor, between what is written and what is
   still clear.
   */
  lemma {:induction false} WriteStep(bytes: seq<Byte>, p: nat, index: nat, value: nat, n: nat,
          front: seq<bool>, rest: seq<bool>)
    requires p < |bytes| && index + n <= 8
    requires BitList(bytes) == front + rest && |front| == 8 * p + index
    requires forall j :: 0 <= j < |rest| ==> !rest[j]
    requires n == 8 - index || forall k: nat :: k >= n ==> !Bit(value, k)
    ensures n <= |rest|
    ensures BitList(PutBytes(bytes, p, value, index)) == front + BitsOf(value, n) + rest[n..]
  {
    var b := WrittenByte(bytes[p], value, index);
    var new1, new2 := BitList(bytes[p := b]), front + BitsOf(value, n) + rest[n..];
    forall j | 0 <= j < 8 * |bytes| ensures new1[j] == new2[j] {
      ReplaceByte(bytes, p, b, j);
      assert At(bytes, j) == BitList(bytes)[j] == (front + rest)[j];
      if 8 * p <= j < 8 * p + 8 {
        WrittenByteBit(bytes[p], value, index, j - 8 * p);
        assert At(bytes, j) == Bit(bytes[p], j - 8 * p);
      }
    }
  }

  /** The value after one pass of the read loop. */
  function ReadValue(value: nat, b: nat, index: nat, at: nat): nat
  {
    Or(value, Low(Shl(Shr(b, index), at), 32))
  }

  lemma {:induction false} ReadValueBit(value: nat, b: nat, index: nat, at: nat, k: nat)
    requires k < 32
    ensures Bit(ReadValue(value, b, index, at), k) <==> Bit(value, k) || (k >= at && Bit(b, k - at + index))
  {
    OrBit(value, Low(Shl(Shr(b, index), at), 32), k);
    LowBit(Shl(Shr(b, index), at), 32, k);
    ShlBit(Shr(b, index), at, k);
    if k >= at {
      ShrBit(b, index, k - at);
    }
  }

  /** The first `count` bits of the value are those of the buffer from `start` on. */
  ghost predicate ReadSoFar(bytes: seq<Byte>, start: nat, value: nat, count: nat)
  {
    && start + count <= 8 * |bytes|
    && forall k :: 0 <= k < count ==> (Bit(value, k) <==> At(bytes, start + k))
  }

  ghost predicate ClearFrom(value: nat, count: nat)
  {
    forall k :: count <= k < 32 ==> !Bit(value, k)
  }

  /** One pass of the read loop takes n more bits; unless it is the last one, nothing above them is set. */
  lemma {:induction false} ReadStep(bytes: seq<Byte>, start: nat, p: nat, index: nat, value: nat, at: nat, n: nat)
    requires p < |bytes| && index + n <= 8 && at + n <= 32 && start + at == 8 * p + index
    requires value < TWO32 && ReadSoFar(bytes, start, value, at) && ClearFrom(value, at)
    ensures var value' := ReadValue(value, bytes[p], index, at);
      && value' < TWO32
      && ReadSoFar(bytes, start, value', at + n)
      && (n == 8 - index ==> ClearFrom(value', at + n))
  {
    var value' := ReadValue(value, bytes[p], index, at);
    Pow2Values();
    LowBound(Shl(Shr(bytes[p], index), at), 32);
    OrBound(value, Low(Shl(Shr(bytes[p], index), at), 32), 32);
    forall k | 0 <= k < 32
      ensures k < at + n ==> (Bit(value', k) <==> At(bytes, start + k))
      ensures n == 8 - index && k >= at + n ==> !Bit(value', k)
    {
      ReadValueBit(value, bytes[p], index, at, k);
      if at <= k < at + n {
        assert (start + k) / 8 == p && (start + k) % 8 == k - at + index;
      }
      if n == 8 - index && k >= at + n {
        BitOfBounded(bytes[p], 8, k - at + index);
      }
    }
  }

  /** The masking at the start of a write and the end of a read keeps the low bits. */
  lemma {:induction false} Masked(x: Word, bits: nat, y: nat)
    requires 0 < bits <= 32 && y == if bits < 32 then And(x, Mask(bits)) else x
    ensures y < Pow2(bits)
    ensures forall k: nat :: Bit(y, k) <==> k < bits && Bit(x, k)
  {
    Pow2Values();
    forall k: nat ensures Bit(y, k) <==> k < bits && Bit(x, k) {
      if bits < 32 {
        AndBit(x, Mask(bits), k);
        MaskBit(bits, k);
      } else if k >= 32 {
        BitOfBounded(x, 32, k);
      }
    }
    if bits < 32 {
      AndBound(x, Mask(bits));
    }
  }

  lemma {:induction false} MaskedBound(x: Word, bits: nat, y: nat)
    requires 0 < bits <= 32 && y == if bits < 32 then And(x, Mask(bits)) else x
    ensures y < Pow2(bits)
  {
    Masked(x, bits, y);
  }

  lemma {:induction false} ReadDone(bytes: seq<Byte>, start: nat, raw: Word, bits: nat, value: nat)
    requires 0 < bits <= 32 && value == if bits < 32 then And(raw, Mask(bits)) else raw
    requires ReadSoFar(bytes, start, raw, bits)
    ensures value == ValueOf(BitList(bytes)[start..start + bits])
  {
    Masked(raw, bits, value);
    var s := BitList(bytes)[start..start + bits];
    BitsOfValueOf(s);
    forall k | 0 <= k < bits ensures Bit(value, k) <==> Bit(ValueOf(s), k) {
      assert BitsOf(ValueOf(s), bits)[k] == s[k] == At(bytes, start + k);
    }
    BitsExtensional(value, ValueOf(s), bits);
  }

  lemma {:induction false} ShrShr(x: nat, a: nat, b: nat)
    ensures Shr(Shr(x, a), b) == Shr(x, a + b)
  {
    if a > 0 {
      ShrShr(x / 2, a - 1, b);
    }
  }

  /** A list with some of its elements, from `start` on, replaced by others. */
  function Spliced<A>(s: seq<A>, start: nat, part: seq<A>): seq<A>
    requires start + |part| <= |s|
  {
    s[..start] + part + s[start + |part|..]
  }

  /** The buffer with the low n bits of a value written from `start` on. */
  ghost predicate Written(bytes: seq<Byte>, was: seq<bool>, start: nat, value: nat, n: nat)
  {
    start + n <= |was| && BitList(bytes) == Spliced(was, start, BitsOf(value, n))
  }

  /** The masked value `low` has `done` of its bits in the buffer; the next n follow. */
  lemma {:induction false} WritePass(bytes: seq<Byte>, was: seq<bool>, start: nat, low: nat, bits0: nat, done: nat,
                  value: nat, p: nat, index: nat, n: nat)
    requires low < Pow2(bits0) && value == Shr(low, done) && done < bits0 && start + bits0 <= |was| && index < 8
    requires 8 * p + index == start + done && n == if bits0 - done < 8 - index then bits0 - done else 8 - index
    requires forall j :: start <= j < |was| ==> !was[j]
    requires Written(bytes, was, start, low, done)
    ensures p < |bytes|
    ensures Written(PutBytes(bytes, p, value, index), was, start, low, done + n)
  {
    var front, rest := was[..start] + BitsOf(low, done), was[start + done..];
    assert |BitList(bytes)| == |was|;
    forall k: nat ensures Bit(value, k) <==> Bit(low, done + k) {
      ShrBit(low, done, k);
    }
    if n == bits0 - done {
      forall k: nat | k >= n ensures !Bit(value, k) {
        BitOfBounded(low, bits0, done + k);
      }
    }
    WriteStep(bytes, p, index, value, n, front, rest);
    assert BitsOf(low, done) + BitsOf(value, n) == BitsOf(low, done + n);
    assert front + BitsOf(value, n) == was[..start] + BitsOf(low, done + n);
    assert rest[n..] == was[start + done + n..];
  }

  lemma {:induction false} WrittenClear(bytes: seq<Byte>, was: seq<bool>, start: nat, value: Word, low: nat, n: nat)
    requires 0 < n <= 32 && Written(bytes, was, start, low, n)
    requires low == if n < 32 then And(value, Mask(n)) else value
    requires forall j :: start <= j < |was| ==> !was[j]
    ensures BitList(bytes) == Spliced(was, start, BitsOf(value, n))
    ensures forall j :: start + n <= j < 8 * |bytes| ==> !BitList(bytes)[j]
  {
    Masked(value, n, low);
    assert BitsOf(low, n) == BitsOf(value, n);
    forall j | start + n <= j < 8 * |bytes| ensures !BitList(bytes)[j] {
      assert BitList(bytes)[j] == was[j];
    }
  }

  datatype Mode = Read | Write

  class BitPacker {
    const mode: Mode
    const buffer: array<Byte>
    var ptr: nat        // offset of the current byte
    var bitIndex: nat

    ghost function Stream(): seq<bool>
      reads buffer
    {
      BitList(buffer[..])
    }

    function Cursor(): nat
      reads this
    {
      8 * ptr + bitIndex
    }

    function BitsRemaining(): int
      reads this
    {
      8 * buffer.Length - Cursor()
    }

    ghost predicate Valid()
      reads this, buffer
    {
      && bitIndex < 8 && Cursor() <= 8 * buffer.Length
      && (mode.Write? ==> forall j :: Cursor() <= j < 8 * buffer.Length ==> !Stream()[j])
    }

    constructor (mode: Mode, buffer: array<Byte>)
      modifies buffer
      ensures Valid() && this.mode == mode && this.buffer == buffer && Cursor() == 0
      ensures mode.Read? ==> buffer[..] == old(buffer[..])
      ensures mode.Write? ==> forall j :: 0 <= j < 8 * buffer.Length ==> !Stream()[j]
    {
      this.mode, this.buffer := mode, buffer;
      ptr, bitIndex := 0, 0;
      new;
      if mode == Write {
        for i := 0 to buffer.Length
          invariant Cursor() == 0 && bitIndex == 0
          invariant forall j :: 0 <= j < i ==> buffer[j] == 0
        {
          buffer[i] := 0;
        }
        forall j | 0 <= j < 8 * buffer.Length ensures !Stream()[j] {
          ZeroBit(j % 8);
        }
      }
    }

    /** One pass of the write loop: some bits go into the current byte, which may then be full. */
    method PutByte(value: nat, written: nat) returns (full: bool)
      requires bitIndex < 8 && bitIndex + written <= 8 && ptr < buffer.Length
      modifies this, buffer
      ensures buffer[..] == PutBytes(old(buffer[..]), old(ptr), value, old(bitIndex))
      ensures bitIndex < 8 && Cursor() == old(Cursor()) + written
      ensures full <==> old(bitIndex) + written == 8
    {
      buffer[ptr] := WrittenByte(buffer[ptr], value, bitIndex);
      bitIndex := bitIndex + written;
      full := bitIndex >= 8;
      if full {
        ptr := ptr + 1;
        bitIndex := 0;
      }
    }

    method WriteBits(value0: Word, bits0: nat)
      requires Valid() && mode.Write? && 0 < bits0 <= 32 && bits0 <= BitsRemaining()
      modifies this, buffer
      ensures Valid() && Cursor() == old(Cursor()) + bits0
      ensures Stream() == Spliced(old(Stream()), old(Cursor()), BitsOf(value0, bits0))
    {
      ghost var start, was := Cursor(), Stream();
      var value: nat := value0;
      if bits0 < 32 {
        value := And(value, Mask(bits0));
      }
      MaskedBound(value0, bits0, value);
      WriteLow(value, bits0);
      WrittenClear(buffer[..], was, start, value0, value, bits0);
    }

    /** The loop of WriteBits, for a value without higher bits. */
    method WriteLow(low: nat, bits0: nat)
      requires Valid() && mode.Write? && 0 < bits0 <= 32 && bits0 <= BitsRemaining() && low < Pow2(bits0)
      modifies this, buffer
      ensures Valid() && Cursor() == old(Cursor()) + bits0
      ensures Written(buffer[..], old(Stream()), old(Cursor()), low, bits0)
    {
      ghost var start, was := Cursor(), Stream();
      var value, bits := low, bits0;
      while bits > 0
        invariant 0 <= bits <= bits0 && bitIndex < 8 && Cursor() == start + (bits0 - bits)
        invariant bits > 0 ==> value == Shr(low, bits0 - bits)
        invariant Written(buffer[..], was, start, low, bits0 - bits)
      {
        var written := if bits < 8 - bitIndex then bits else 8 - bitIndex;
        ghost var before, done := buffer[..], bits0 - bits;
        WritePass(before, was, start, low, bits0, done, value, ptr, bitIndex, written);
        var full := PutByte(value, written);
        if full {
          ShrShr(low, done, written);
          value := Shr(value, written);
        }
        bits := bits - written;
      }
    }

    method ReadBits(bits0: nat) returns (value: Word)
      requires Valid() && mode.Read? && 0 < bits0 <= 32 && bits0 <= BitsRemaining()
      modifies this
      ensures Valid() && Cursor() == old(Cursor()) + bits0
      ensures value == ValueOf(Stream()[old(Cursor())..Cursor()])
    {
      ghost var start := Cursor();
      var bits := bits0;
      var valueIndex := 0;
      value := 0;
      forall k: nat ensures !Bit(0, k) {
        ZeroBit(k);
      }
      while bits > 0
        invariant 0 <= bits <= bits0 && valueIndex == bits0 - bits
        invariant bitIndex < 8 && Cursor() == start + valueIndex
        invariant bits > 0 ==> ClearFrom(value, valueIndex)
        invariant ReadSoFar(buffer[..], start, value, valueIndex)
      {
        var bitsToRead := if 8 - bitIndex < bits then 8 - bitIndex else bits;
        ReadStep(buffer[..], start, ptr, bitIndex, value, valueIndex, bitsToRead);
        value := ReadValue(value, buffer[ptr], bitIndex, valueIndex);
        bits := bits - bitsToRead;
        bitIndex := bitIndex + bitsToRead;
        valueIndex := valueIndex + bitsToRead;
        if bitIndex >= 8 {
          ptr := ptr + 1;
          bitIndex := 0;
        }
      }
      ghost var raw := value;
      if bits0 < 32 {
        AndBound(value, Mask(bits0));
        value := And(value, Mask(bits0));
      }
      ReadDone(buffer[..], start, raw, bits0, value);
    }
  }
}
