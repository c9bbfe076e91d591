/**
 The packed set of dirty flags (class template DirtyBits) and the bounded ring of saved sets
 that the DEFINE_DIRTY_BITS_MESSAGE and DEFINE_DIRTY_BITS_ARRAY macros build on it.
 */
module DirtyFlags {
  import opened Bits

  /** The set of flags that a packed byte sequence stands for, the padding of its last byte included. */
  ghost function MarksOf(s: seq<Byte>): set<nat>
  {
    set i: nat | i < 8 * |s| && Bit(s[i / 8], i % 8)
  }

  ghost predicate IsBelow(i: nat, n: nat)
  {
    i < n
  }

  ghost function Below(n: nat): set<nat>
  {
    set i: nat | i < n && IsBelow(i, n)
  }

  lemma {:induction false} BelowNext(n: nat)
    ensures Below(n + 1) == Below(n) + {n}
  {
    forall i: nat ensures i in Below(n + 1) <==> i in Below(n) || i == n {
      assert IsBelow(i, n + 1) <==> IsBelow(i, n) || i == n;
    }
  }

  /** Every flag that a set of the given size has room for, padding included. */
  ghost function AllMarks(size: nat): set<nat>
  {
    Below(8 * ((size + 7) / 8))
  }

  lemma {:induction false} AllMarksHas(size: nat)
    ensures forall i: nat :: i in AllMarks(size) <==> i < 8 * ((size + 7) / 8)
  {
    forall i: nat ensures i in AllMarks(size) <==> i < 8 * ((size + 7) / 8) {
      assert IsBelow(i, 8 * ((size + 7) / 8)) <==> i < 8 * ((size + 7) / 8);
    }
  }

  lemma {:induction false} MarkIn(s: seq<Byte>, i: nat)
    ensures i in MarksOf(s) <==> i < 8 * |s| && Bit(s[i / 8], i % 8)
  {
  }

  lemma {:induction false} SetMark(s: seq<Byte>, i: nat)
    requires i < 8 * |s|
    ensures Or(s[i / 8], Shl(1, i % 8)) < 256
    ensures MarksOf(s[i / 8 := Or(s[i / 8], Shl(1, i % 8))]) == MarksOf(s) + {i}
  {
    var b, r := s[i / 8], i % 8;
    MaskByte(r);
    Pow2Values();
    OrBound(b, Shl(1, r), 8);
    forall k: nat ensures Bit(Or(b, Shl(1, r)), k) <==> Bit(b, k) || k == r {
      OrBit(b, Shl(1, r), k);
      MaskByteBit(r, k);
    }
  }

  lemma {:induction false} ClearMark(s: seq<Byte>, i: nat)
    requires i < 8 * |s|
    ensures Shl(1, i % 8) < 256 == Pow2(8)
    ensures And(s[i / 8], Not(Shl(1, i % 8), 8)) < 256
    ensures MarksOf(s[i / 8 := And(s[i / 8], Not(Shl(1, i % 8), 8))]) == MarksOf(s) - {i}
  {
    var b, r := s[i / 8], i % 8;
    MaskByte(r);
    Pow2Values();
    var m := Not(Shl(1, r), 8);
    AndBound(b, m);
    forall k: nat | k < 8 ensures Bit(And(b, m), k) <==> Bit(b, k) && k != r {
      AndBit(b, m, k);
      NotBit(Shl(1, r), 8, k);
      MaskByteBit(r, k);
    }
  }

  lemma {:induction false} MaskByte(r: nat)
    requires r < 8
    ensures Shl(1, r) < 256
  {
    assert Shl(1, 3) == 8;
    assert Shl(1, 5) == 32;
  }

  lemma {:induction false} MaskByteBit(r: nat, k: nat)
    ensures Bit(Shl(1, r), k) <==> k == r
  {
    ShlBit(1, r, k);
    if k > r {
      ZeroBit(k - r - 1);
    }
  }

  /** The bit test `byte & mask` of is_dirty, as C++ computes it. */
  lemma {:induction false} TestMark(b: nat, r: nat)
    ensures And(b, Shl(1, r)) != 0 <==> Bit(b, r)
  {
    if r == 0 {
      assert And(b, 1) == if b % 2 == 1 then 1 + 2 * And(b / 2, 0) else 2 * And(b / 2, 0);
    } else if b == 0 {
      ZeroBit(r);
    } else {
      TestMark(b / 2, r - 1);
      assert Shl(1, r) / 2 == Shl(1, r - 1);
    }
  }

  lemma {:induction false} NonZeroHasBit(b: nat, n: nat) returns (k: nat)
    requires 0 < b < Pow2(n)
    ensures k < n && Bit(b, k)
  {
    if b % 2 == 1 {
      k := 0;
    } else {
      k := NonZeroHasBit(b / 2, n - 1);
      k := k + 1;
    }
  }

  /**
   `is_dirty()` looks at whole bytes, `clear_dirty` only at indices: after set_all_dirty and a
   clear of every index some flag is left exactly when the size is not a whole number of bytes.
   */
  lemma {:induction false} PaddingStaysDirty(size: nat)
    ensures AllMarks(size) - Below(size) == {} <==> size % 8 == 0
  {
    if size % 8 != 0 {
      assert size in AllMarks(size) - Below(size) by {
        assert IsBelow(size, 8 * ((size + 7) / 8));
      }
    }
  }

  class DirtyBits {
    const size: nat
    const data: array<Byte>

    ghost predicate Valid()
    {
      size > 0 && data.Length == (size + 7) / 8
    }

    ghost function Marks(): set<nat>
      reads data
    {
      MarksOf(data[..])
    }

    constructor (size: nat)
      requires size > 0
      ensures Valid() && fresh(data) && this.size == size && Marks() == {}
    {
      this.size := size;
      this.data := new Byte[(size + 7) / 8](_ => 0);
      new;
      forall k: nat ensures !Bit(0, k) {
        ZeroBit(k);
      }
    }

    method Clear()
      requires Valid()
      modifies data
      ensures Marks() == {}
    {
      for i := 0 to data.Length
        invariant forall j :: 0 <= j < i ==> data[j] == 0
      {
        data[i] := 0;
      }
      forall k: nat ensures !Bit(0, k) {
        ZeroBit(k);
      }
    }

    /** operator+= */
    method Merge(other: seq<Byte>)
      requires Valid() && |other| == data.Length
      modifies data
      ensures Marks() == old(Marks()) + MarksOf(other)
    {
      ghost var was := data[..];
      for i := 0 to data.Length
        invariant forall j :: 0 <= j < i ==> data[j] == Or(was[j], other[j])
        invariant forall j :: i <= j < data.Length ==> data[j] == was[j]
      {
        Pow2Values();
        OrBound(data[i], other[i], 8);
        data[i] := Or(data[i], other[i]);
      }
      forall j, k: nat | 0 <= j < data.Length
        ensures Bit(data[j], k) <==> Bit(was[j], k) || Bit(other[j], k)
      {
        OrBit(was[j], other[j], k);
      }
    }

    /** Any byte different from zero, so a flag of the padding counts. */
    method IsDirty() returns (b: bool)
      requires Valid()
      ensures b <==> Marks() != {}
    {
      Pow2Values();
      for i := 0 to data.Length
        invariant forall j :: 0 <= j < i ==> data[j] == 0
      {
        if data[i] != 0 {
          ghost var k := NonZeroHasBit(data[i], 8);
          assert (8 * i + k) / 8 == i && (8 * i + k) % 8 == k;
          MarkIn(data[..], 8 * i + k);
          return true;
        }
      }
      forall k: nat ensures !Bit(0, k) {
        ZeroBit(k);
      }
      return false;
    }

    method SetAllDirty()
      requires Valid()
      modifies data
      ensures Marks() == AllMarks(size)
    {
      for i := 0 to data.Length
        invariant forall j :: 0 <= j < i ==> data[j] == 255
      {
        data[i] := 255;
      }
      Pow2Values();
      forall k: nat | k < 8 ensures Bit(255, k) {
        MaskBit(8, k);
      }
    }

    method IsDirtyAt(idx: nat) returns (b: bool)
      requires Valid() && idx < size
      ensures b <==> idx in Marks()
    {
      TestMark(data[idx / 8], idx % 8);
      b := And(data[idx / 8], Shl(1, idx % 8)) != 0;
    }

    method SetDirty(idx: nat)
      requires Valid() && idx < size
      modifies data
      ensures Marks() == old(Marks()) + {idx}
    {
      SetMark(data[..], idx);
      ghost var was := data[..];
      data[idx / 8] := Or(data[idx / 8], Shl(1, idx % 8));
      assert data[..] == was[idx / 8 := data[idx / 8]];
    }

    method ClearDirty(idx: nat)
      requires Valid() && idx < size
      modifies data
      ensures Marks() == old(Marks()) - {idx}
    {
      ClearMark(data[..], idx);
      ghost var was := data[..];
      data[idx / 8] := And(data[idx / 8], Not(Shl(1, idx % 8), 8));
      assert data[..] == was[idx / 8 := data[idx / 8]];
    }

    /**
     Despite its name this never clears a flag: afterwards both are set when one of them was,
     so it exchanges the two flags exactly when they were equal.
     */
    method SwapDirty(left: nat, right: nat)
      requires Valid() && left < size && right < size
      modifies data
      ensures Marks() == old(Marks()) + if {left, right} !! old(Marks()) then {} else {left, right}
      ensures ((left in Marks() <==> right in old(Marks())) && (right in Marks() <==> left in old(Marks())))
         <==> (left in old(Marks()) <==> right in old(Marks()))
    {
      var temp := IsDirtyAt(left);
      var other := IsDirtyAt(right);
      if other {
        SetDirty(left);
      }
      if temp {
        SetDirty(right);
      }
    }
  }

  /** The union of the last n sets of a log. */
  ghost function UnionLast(log: seq<set<nat>>, n: nat): set<nat>
    requires n <= |log|
  {
    if n == 0 then {} else UnionLast(log, n - 1) + log[|log| - n]
  }

  /** What a query for the last n saves answers, told from the unbounded log of saved sets. */
  ghost function Answer(log: seq<set<nat>>, historySize: nat, size: nat, n: int): set<nat>
  {
    if n <= 0 then {}
    else if n > |log| || n > historySize then AllMarks(size)
    else UnionLast(log, n)
  }

  lemma {:induction false} UnionLastMember(log: seq<set<nat>>, n: nat, x: nat)
    requires n <= |log|
    ensures x in UnionLast(log, n) <==> exists j :: |log| - n <= j < |log| && x in log[j]
  {
    if n > 0 {
      UnionLastMember(log, n - 1, x);
      if x in log[|log| - n] {
        assert |log| - n <= |log| - n < |log|;
      }
    }
  }

  /**
   A query for no saves marks nothing; one for saves that are retained marks what one of them has, and nothing
   else; one for more marks all there is room for.
   */
  lemma {:induction false} AnswerExact(log: seq<set<nat>>, historySize: nat, size: nat, n: int, x: nat)
    ensures n <= 0 ==> x !in Answer(log, historySize, size, n)
    ensures 1 <= n <= |log| && n <= historySize ==>
              (x in Answer(log, historySize, size, n) <==> exists j :: |log| - n <= j < |log| && x in log[j])
    ensures n >= 1 && (n > |log| || n > historySize) ==>
              (x in Answer(log, historySize, size, n) <==> x < 8 * ((size + 7) / 8))
  {
    AllMarksHas(size);
    if 1 <= n <= |log| {
      UnionLastMember(log, n, x);
    }
  }

  /** However short the retained history, no set saved within the last n saves is ever missed. */
  lemma {:induction false} AnswerCoversLog(log: seq<set<nat>>, historySize: nat, size: nat, n: nat, j: nat)
    requires |log| - n <= j < |log|
    ensures log[j] * AllMarks(size) <= Answer(log, historySize, size, n)
  {
    if n <= |log| && n <= historySize {
      forall x | x in log[j] ensures x in UnionLast(log, n) {
        UnionLastMember(log, n, x);
      }
    }
  }

  lemma {:induction false} UnionLastAppend(log: seq<set<nat>>, d: set<nat>, n: nat)
    requires n <= |log|
    ensures UnionLast(log + [d], n + 1) == UnionLast(log, n) + d
  {
    if n > 0 {
      UnionLastAppend(log, d, n - 1);
    }
  }

  /** The slot, in a ring of the given size, of the i-th most recent save. */
  function RingSlot(pos: nat, i: nat, size: nat): int
  {
    if pos - i < 0 then pos - i + size else pos - i
  }

  /** The last len saves are in the ring, the most recent one at pos. */
  ghost predicate RingHolds<A>(ring: seq<A>, pos: nat, len: nat, saves: seq<A>)
  {
    && len == (if |saves| < |ring| then |saves| else |ring|)
    && (if |ring| == 0 then pos == 0 else pos < |ring|)
    && forall i: nat :: i < len ==> ring[RingSlot(pos, i, |ring|)] == saves[|saves| - 1 - i]
  }

  lemma {:induction false} RingPush<A>(ring: seq<A>, pos: nat, len: nat, saves: seq<A>, x: A)
    requires RingHolds(ring, pos, len, saves) && |ring| > 0
    ensures var next := if pos + 1 == |ring| then 0 else pos + 1;
      RingHolds(ring[next := x], next, if len < |ring| then len + 1 else len, saves + [x])
  {
    var size := |ring|;
    var next := if pos + 1 == size then 0 else pos + 1;
    var saves' := saves + [x];
    forall i: nat | i < if len < size then len + 1 else len
      ensures ring[next := x][RingSlot(next, i, size)] == saves'[|saves'| - 1 - i]
    {
      if i > 0 {
        assert RingSlot(next, i, size) == RingSlot(pos, i - 1, size) != next;
        assert ring[RingSlot(pos, i - 1, size)] == saves[|saves| - 1 - (i - 1)];
      }
    }
  }

  class DirtyHistory {
    const historySize: nat
    const dirty: DirtyBits
    var ring: seq<seq<Byte>>          // saved copies of the packed set, historySize of them
    var pos: Byte                     // uint8_t; never wraps, as the type shows
    var len: Byte
    ghost var saves: seq<seq<Byte>>   // everything saved since the last Init, oldest first
    ghost var log: seq<set<nat>>      // the sets that the saves stand for

    ghost predicate Valid()
      reads this, dirty.data
    {
      && dirty.Valid()
      && |ring| == historySize <= 255
      && (forall i :: 0 <= i < historySize ==> |ring[i]| == dirty.data.Length)
      && RingHolds(ring, pos, len, saves)
      && |log| == |saves| && (forall i :: 0 <= i < |saves| ==> log[i] == MarksOf(saves[i]))
    }

    constructor (size: nat, historySize: nat)
      requires size > 0 && historySize <= 255
      ensures Valid() && fresh(dirty.data)
      ensures this.historySize == historySize && dirty.size == size
      ensures dirty.Marks() == {} && log == []
    {
      var d := new DirtyBits(size);
      var blank := seq(d.data.Length, _ => 0);
      this.historySize := historySize;
      dirty := d;
      ring := seq(historySize, _ => blank);
      pos, len, saves, log := 0, 0, [], [];
    }

    /** init_dirty_bits: forgets the saves, keeps the flags set since the last one. */
    method Init()
      requires Valid()
      modifies this
      ensures Valid() && log == []
    {
      len := 0;
      saves, log := [], [];
    }

    method MarkDirty(idx: nat)
      requires Valid() && idx < dirty.size
      modifies dirty.data
      ensures Valid() && dirty.Marks() == old(dirty.Marks()) + {idx}
    {
      dirty.SetDirty(idx);
    }

    /** save_dirty_bits */
    method Save()
      requires Valid()
      modifies this, dirty.data
      ensures Valid() && dirty.Marks() == {}
      ensures log == old(log) + [old(dirty.Marks())]
    {
      Push(dirty.data[..]);
      dirty.Clear();
    }

    /** The part of a save that touches the ring. */
    method Push(bytes: seq<Byte>)
      requires Valid() && |bytes| == dirty.data.Length
      modifies this
      ensures Valid() && log == old(log) + [MarksOf(bytes)]
    {
      if historySize != 0 {
        RingPush(ring, pos, len, saves, bytes);
        pos := pos + 1;
        if pos >= historySize {
          pos := pos - historySize;
        }
        ring := ring[pos := bytes];
        if len < historySize {
          len := len + 1;
        }
      }
      log, saves := log + [MarksOf(bytes)], saves + [bytes];
    }

    /**
     get_dirty_bits_history: adds to the caller's set what the saves asked for have, when they are retained, and
     everything when they are not.
     */
    method GetHistory(num: int, bits: DirtyBits)
      requires Valid() && bits.Valid() && bits.size == dirty.size && bits.data != dirty.data
      modifies bits.data
      ensures Valid()
      ensures bits.Marks() == old(bits.Marks()) + Answer(log, historySize, dirty.size, num)
      ensures num <= 0 ==> bits.Marks() == old(bits.Marks())
      ensures 1 <= num <= |log| && num <= historySize ==> forall x: nat ::
                x in bits.Marks() <==> x in old(bits.Marks()) || exists j :: |log| - num <= j < |log| && x in log[j]
      ensures num >= 1 && (num > |log| || num > historySize) ==> forall x: nat ::
                x in bits.Marks() <==> x in old(bits.Marks()) || x < 8 * ((dirty.size + 7) / 8)
    {
      AddHistory(num, bits);
      forall x: nat {
        AnswerExact(log, historySize, dirty.size, num, x);
      }
    }

    method AddHistory(num: int, bits: DirtyBits)
      requires Valid() && bits.Valid() && bits.size == dirty.size && bits.data != dirty.data
      modifies bits.data
      ensures Valid()
      ensures bits.Marks() == old(bits.Marks()) + Answer(log, historySize, dirty.size, num)
    {
      if num <= 0 {
        return;
      }
      if num > len {
        bits.SetAllDirty();
        AllMarksHas(bits.size);
        return;
      }
      ghost var before := bits.Marks();
      for i := 0 to num
        invariant bits.Marks() == before + UnionLast(log, i)
      {
        var place := pos - i;
        if place < 0 {
          place := place + historySize;
        }
        assert place == RingSlot(pos, i, historySize);
        assert ring[place] == saves[|saves| - 1 - i];
        assert MarksOf(ring[place]) == log[|log| - (i + 1)];
        bits.Merge(ring[place]);
      }
    }
  }
}
