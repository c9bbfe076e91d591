/**
 Range coding in the serialisation stream: which words are codes of values, for any range that a call can
 ask for, and for the ranges that a call has when it names none.
 */
module RangeCoding {
  import opened Bits
  import opened StreamItems
  import opened NetStream

  predicate Ranged(k: Kind)
  {
    k.Valid() && (k.SignedRange? || k.Range?)
  }

  /** The code of the upper limit. */
  function Top(k: Kind): Word
    requires Ranged(k)
  {
    if k.Range? then k.max - k.min else k.sty.Shifted(k.smax) - k.sty.Shifted(k.smin)
  }

  /** A word that decodes to a value of the range whose code it is. */
  predicate IsCode(k: Kind, word: Word)
    requires Ranged(k)
  {
    k.Accepts(k.Decode(word)) && k.Encode(k.Decode(word)) == word
  }

  /** Some code of the kind takes more than n bits. */
  ghost predicate TooNarrow(k: Kind, n: nat)
    requires k.Valid()
  {
    exists v :: k.Accepts(v) && k.Encode(v) >= Pow2(n)
  }

  /**
   No narrower width would do for the codes of a range, unless the code of its upper limit is from 0x7FFFFFF up to
   2^31 - 1; for booleans and floats none would do.
   */
  lemma {:induction false} WidthNarrowest(k: Kind)
    requires k.Valid() && !k.RawBits? && !k.Checkpoint?
    ensures (forall n: nat :: 1 <= n < k.Slot().Width() ==> TooNarrow(k, n))
       <==> !(Ranged(k) && 0x7FFFFFF <= Top(k) < 0x8000_0000)
  {
    forall n: nat | 1 <= n < k.Slot().Width() ensures TooNarrow(k, n) <==> (Ranged(k) ==> Reaches(k, n)) {
      LargestCode(k, n);
    }
    if Ranged(k) {
      WidthsOf(k);
      if forall n: nat :: 1 <= n < k.Slot().Width() ==> TooNarrow(k, n) {
        forall n: nat | 1 <= n < k.Slot().Width() ensures Reaches(k, n) {
          assert TooNarrow(k, n);
        }
      }
    }
  }

  predicate Reaches(k: Kind, n: nat)
    requires Ranged(k)
  {
    Top(k) >= Pow2(n)
  }

  /** The code of the upper limit is the largest; that of floats has all 32 bits. */
  lemma {:induction false} LargestCode(k: Kind, n: nat)
    requires k.Valid() && !k.RawBits? && !k.Checkpoint? && 1 <= n < k.Slot().Width()
    ensures TooNarrow(k, n) <==> (Ranged(k) ==> Reaches(k, n))
  {
    match k
    case Boolean =>
    case Float =>
      Pow2Monotone(n, 31);
      Pow2Values();
      assert Pow2(32) == 2 * Pow2(31);
      assert k.Accepts(TWO32 - 1) && k.Encode(TWO32 - 1) >= Pow2(n);
    case SignedRange(_, _, smax) => assert k.Accepts(smax) && k.Encode(smax) == Top(k);
    case Range(_, _, max) => assert k.Accepts(max) && k.Encode(max) == Top(k);
  }

  lemma {:induction false} WidthsOf(k: Kind)
    requires Ranged(k)
    ensures (forall n: nat :: 1 <= n < k.Slot().Width() ==> Reaches(k, n))
       <==> (Top(k) < 0x7FFFFFF || Top(k) >= 0x8000_0000)
  {
    if k.Range? {
      LimitsReach(k, k.min, k.max);
    } else {
      LimitsReach(k, k.sty.Shifted(k.smin), k.sty.Shifted(k.smax));
    }
  }

  lemma {:induction false} LimitsReach(k: Kind, low: Word, high: Word)
    requires Ranged(k) && low < high && Top(k) == high - low && k.Slot().Width() == RangeWidth(low, high)
    ensures (forall n: nat :: 1 <= n < k.Slot().Width() ==> Reaches(k, n))
       <==> (Top(k) < 0x7FFFFFF || Top(k) >= 0x8000_0000)
  {
    RangeWidthExact(low, high);
    if Top(k) < 0x7FFFFFF || Top(k) >= 0x8000_0000 {
      forall n: nat | 1 <= n < k.Slot().Width() ensures Reaches(k, n) {
        assert high - low >= Pow2(n);
      }
    } else {
      var n: nat :| 1 <= n < RangeWidth(low, high) && high - low < Pow2(n);
      assert !Reaches(k, n);
    }
  }

  function Least(ty: SignedType): int
  {
    match ty
    case Char => -0x80
    case Short => -0x8000
    case Int => -0x8000_0000
  }

  /** An unsigned integer that some value of the type is shifted to; the least one alone goes far up. */
  predicate Reached(ty: SignedType, x: Word)
  {
    ty.Int? || x <= 2 * ty.Offset() || x == TWO32 - 1
  }

  lemma {:induction false} ShiftOnto(ty: SignedType, x: Word)
    ensures ty.Holds(ty.Unshifted(x))
    ensures ty.Shifted(ty.Unshifted(x)) == x <==> Reached(ty, x)
  {
    match ty
    case Char => CharOnto(x);
    case Short => ShortOnto(x);
    case Int => IntOnto(x);
  }

  lemma {:induction false} CharOnto(x: Word)
    ensures Char.Holds(Char.Unshifted(x))
    ensures Char.Shifted(Char.Unshifted(x)) == x <==> Reached(Char, x)
  {
    var y := Char.Unshifted(x);
    assert Char.Shifted(y) == if y == -0x80 then TWO32 - 1 else y + 127;
    if x <= 254 {
      assert Char.Narrow(x) == if x < 0x80 then x else x - 0x100;
    }
  }

  lemma {:induction false} ShortOnto(x: Word)
    ensures Short.Holds(Short.Unshifted(x))
    ensures Short.Shifted(Short.Unshifted(x)) == x <==> Reached(Short, x)
  {
    var y := Short.Unshifted(x);
    assert Short.Shifted(y) == if y == -0x8000 then TWO32 - 1 else y + 32767;
    if x <= 65534 {
      assert Short.Narrow(x) == if x < 0x8000 then x else x - 0x1_0000;
    }
  }

  lemma {:induction false} IntOnto(x: Word)
    ensures Int.Holds(Int.Unshifted(x)) && Int.Shifted(Int.Unshifted(x)) == x
  {
    assert Int.Narrow(x) == if x < 0x8000_0000 then x else x - TWO32;
    var y := Int.Narrow(x) - Int.Offset();
    assert Int.Narrow(y) == if y < -0x8000_0000 then y + TWO32 else y;
  }

  /** Which words up to that of the upper limit are codes. */
  lemma {:induction false} CodesAre(k: Kind, word: Word)
    requires Ranged(k) && word <= Top(k)
    ensures IsCode(k, word) <==> k.Range? || Reached(k.sty, word + k.sty.Shifted(k.smin))
  {
    if k.Range? {
      var x: Word := word + k.min;
      U32Word(x);
      assert k.Decode(word) == x;
    } else {
      var x: Word := word + k.sty.Shifted(k.smin);
      U32Word(x);
      ShiftOnto(k.sty, x);
      assert k.Decode(word) == k.sty.Unshifted(x);
    }
  }

  /**
   Range coding is one-to-one from the values of the range into the words up to that of the upper limit.
   It is onto if and only if the upper limit is not the least char or the least short.
   */
  lemma {:induction false} EncodeOnto(k: Kind)
    requires Ranged(k)
    ensures forall v :: k.Accepts(v) ==> k.Encode(v) <= Top(k) && k.Decode(k.Encode(v)) == v
    ensures (forall word: Word :: word <= Top(k) ==> IsCode(k, word))
       <==> !(k.SignedRange? && !k.sty.Int? && k.smax == Least(k.sty))
  {
    forall v | k.Accepts(v) ensures k.Encode(v) <= Top(k) && k.Decode(k.Encode(v)) == v {
      DecodeWord(Call(k, v));
    }
    forall word: Word | word <= Top(k)
      ensures IsCode(k, word) <==> k.Range? || Reached(k.sty, word + k.sty.Shifted(k.smin))
    {
      CodesAre(k, word);
    }
    if k.SignedRange? && !k.sty.Int? {
      HighestShift(k.sty, k.smin, k.smax);
      if k.smax == Least(k.sty) {
        var gap: Word := 2 * k.sty.Offset() + 1 - k.sty.Shifted(k.smin);
        assert !IsCode(k, gap);
      }
    }
  }

  /** The values above the least of a type are shifted to small integers, and the least above all. */
  lemma {:induction false} HighestShift(ty: SignedType, smin: int, smax: int)
    requires SignedRange(ty, smin, smax).Valid() && !ty.Int?
    ensures ty.Shifted(smin) <= 2 * ty.Offset()
    ensures if smax == Least(ty) then ty.Shifted(smax) == TWO32 - 1 else ty.Shifted(smax) <= 2 * ty.Offset()
  {
    LeastShift(ty, smin);
    LeastShift(ty, smax);
  }

  lemma {:induction false} LeastShift(ty: SignedType, x: int)
    requires ty.Holds(x) && !ty.Int?
    ensures ty.Shifted(x) == if x == Least(ty) then TWO32 - 1 else x + ty.Offset()
  {
  }

  /** The range that a char or a short has when the call names none: its upper limit is one too many for the type. */
  function DefaultRange(ty: SignedType): Kind
  {
    match ty
    case Char => SignedRange(Char, -127, Char.Narrow(128))
    case Short => SignedRange(Short, -32767, Short.Narrow(32768))
    case Int => SignedRange(Int, -2147483646, Int.Narrow(2147483647))
  }

  lemma {:induction false} DefaultShifts(ty: SignedType)
    ensures ty.Holds(DefaultRange(ty).smin) && ty.Holds(DefaultRange(ty).smax)
    ensures ty.Shifted(DefaultRange(ty).smin) == 0
    ensures ty.Shifted(DefaultRange(ty).smax) == if ty.Int? then TWO32 - 3 else TWO32 - 1
  {
    match ty
    case Char =>
    case Short =>
    case Int =>
  }

  /**
   Chars and shorts that name no range are sent in 32 bits, and of the words that may come, only those
   below 255 (or 65535) and the last of all are codes.
   */
  lemma {:induction false} DefaultArguments(ty: SignedType, word: Word)
    ensures Ranged(DefaultRange(ty)) && DefaultRange(ty).Slot() == Data(32)
    ensures Top(DefaultRange(ty)) == if ty.Int? then TWO32 - 3 else TWO32 - 1
    ensures word <= Top(DefaultRange(ty)) ==> (IsCode(DefaultRange(ty), word) <==> Reached(ty, word))
  {
    DefaultShifts(ty);
    if word <= Top(DefaultRange(ty)) {
      CodesAre(DefaultRange(ty), word);
    }
  }
}
