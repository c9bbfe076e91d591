/**
 The typed serialisation stream: range-coded integers, bytes, shorts, booleans, floats and raw bits over
 a bit packer, with checkpoints and an optional journal of widths that detects a reader out of step.
 A schedule is the sequence of calls a program makes; it is run once in write mode, once in read mode.
 Signed conversions and overflows wrap modulo 2^n; the assertions on a value just read are not modelled
 as failures, they are shown to hold for every schedule that is read in step.
 */
module NetStream {
  import opened Bits
  import opened BitPacking
  import opened StreamItems

  // ---- machine integers ----

  /** Conversion to a 32-bit unsigned integer. */
  function U32(x: int): Word
  {
    x % TWO32
  }

  // ---- widths ----

  function BitLength(x: nat): (n: nat)
    ensures n >= 1
  {
    if x <= 1 then 1 else 1 + BitLength(x / 2)
  }

  lemma {:induction false} BitLengthExact(x: nat, n: nat)
    ensures x < Pow2(BitLength(x))
    ensures 1 <= n < BitLength(x) ==> x >= Pow2(n)
  {
    if x > 1 {
      BitLengthExact(x / 2, if n > 0 then n - 1 else 0);
      if n == 1 {
        assert Pow2(1) == 2;
      }
    }
  }

  lemma {:induction false} BitLengthBound(x: nat, n: nat)
    requires n >= 1 && x < Pow2(n)
    ensures BitLength(x) <= n
  {
    BitLengthExact(x, n);
  }

  /** The number of bits that an integer in [min, max] is sent with. */
  function RangeWidth(min: Word, max: Word): BitCount
    requires min < max
  {
    if max - min >= 0x7FFFFFF then 32
    else
      WordLength(max - min);
      BitLength(max - min)
  }

  lemma {:induction false} WordLength(x: Word)
    ensures BitLength(x) <= 32
  {
    Pow2Values();
    BitLengthBound(x, 32);
  }

  lemma {:induction false} RangeWidthWideEnough(min: Word, max: Word)
    requires min < max
    ensures max - min < Pow2(RangeWidth(min, max))
  {
    Pow2Values();
    BitLengthExact(max - min, 1);
  }

  /**
   The width is the narrowest possible one exactly when the range is below the cut-off of 0x7FFFFFF
   (one F short of 2^31 - 1) or needs all 32 bits; in between bits are wasted.
   */
  lemma {:induction false} RangeWidthExact(min: Word, max: Word)
    requires min < max
    ensures (forall n: nat :: 1 <= n < RangeWidth(min, max) ==> max - min >= Pow2(n))
       <==> (max - min < 0x7FFFFFF || max - min >= 0x8000_0000)
  {
    Pow2Values();
    assert Pow2(31) == 0x8000_0000 by { assert Pow2(32) == 2 * Pow2(31); }
    if max - min < 0x7FFFFFF {
      forall n: nat | 1 <= n < RangeWidth(min, max) ensures max - min >= Pow2(n) {
        BitLengthExact(max - min, n);
      }
    } else if max - min >= 0x8000_0000 {
      forall n: nat | 1 <= n < 32 ensures max - min >= Pow2(n) {
        Pow2Monotone(n, 31);
      }
    } else {
      assert max - min < Pow2(31) && 1 <= 31 < RangeWidth(min, max);
    }
  }

  /** The loop of BitsRequired( distinctValues ). */
  method BitsRequiredFor(distinctValues: Word) returns (bits: nat)
    requires distinctValues > 1
    ensures bits == BitLength(distinctValues - 1)
  {
    var maximumValue: Word := distinctValues - 1;
    Pow2Values();
    BitLengthBound(maximumValue, 32);
    bits := 32;
    for index := 0 to 32
      invariant BitLength(distinctValues - 1) == index + BitLength(maximumValue) <= 32
    {
      TopBits(maximumValue);
      if And(maximumValue, 0xFFFF_FFFE) == 0 {
        return index + 1;
      }
      maximumValue := maximumValue / 2;
    }
    assert false;
  }

  lemma {:induction false} TopBits(x: Word)
    ensures And(x, 0xFFFF_FFFE) == 0 <==> x <= 1
  {
    Pow2Values();
    assert 0xFFFF_FFFE / 2 == Mask(31) by { assert Pow2(32) == 2 * Pow2(31); }
    if x > 1 {
      assert x / 2 < Pow2(31) by { assert Pow2(32) == 2 * Pow2(31); }
      assert And(x, 0xFFFF_FFFE) == 2 * And(x / 2, Mask(31));
      AndMask(x / 2, 31);
    } else {
      assert And(x, 0xFFFF_FFFE) == 2 * And(x / 2, Mask(31)) || x == 0;
    }
  }

  lemma {:induction false} AndMask(x: nat, n: nat)
    requires x < Pow2(n)
    ensures And(x, Mask(n)) == x
  {
    if x != 0 {
      assert Mask(n) / 2 == Mask(n - 1) && Mask(n) % 2 == 1;
      AndMask(x / 2, n - 1);
    }
  }

  method BitsRequired(min: Word, max: Word) returns (bits: BitCount)
    requires min < max
    ensures bits == RangeWidth(min, max)
  {
    if max - min >= 0x7FFFFFF {
      return 32;
    }
    WordLength(max - min);
    bits := BitsRequiredFor(max - min + 1);
  }

  // ---- calls ----

  /** The three signed variants differ in the offset they add and the type they narrow to. */
  datatype SignedType = Char | Short | Int
  {
    function Offset(): nat
    {
      match this
      case Char => 127
      case Short => 32767
      case Int => 2147483646
    }

    predicate Holds(x: int)
    {
      match this
      case Char => -0x80 <= x < 0x80
      case Short => -0x8000 <= x < 0x8000
      case Int => -0x8000_0000 <= x < 0x8000_0000
    }

    /** Conversion to this type. */
    function Narrow(x: int): int
    {
      match this
      case Char => (x + 0x80) % 0x100 - 0x80
      case Short => (x + 0x8000) % 0x1_0000 - 0x8000
      case Int => (x + 0x8000_0000) % 0x1_0000_0000 - 0x8000_0000
    }

    /** The unsigned integer that stands for a value of this type. */
    function Shifted(x: int): Word
    {
      U32(x + Offset())
    }

    /** The value made of it again, by narrowing and then subtracting. */
    function Unshifted(x: Word): int
    {
      Narrow(Narrow(x) - Offset())
    }
  }

  lemma {:induction false} UnshiftShifted(ty: SignedType, x: int)
    requires ty.Holds(x)
    ensures ty.Unshifted(ty.Shifted(x)) == x
  {
    match ty
    case Char => UnshiftChar(x);
    case Short => UnshiftShort(x);
    case Int => UnshiftInt(x);
  }

  lemma {:induction false} UnshiftChar(x: int)
    requires Char.Holds(x)
    ensures Char.Unshifted(Char.Shifted(x)) == x
  {
    var y := x + Char.Offset();
    assert Char.Shifted(x) == if y < 0 then y + TWO32 else y;
    assert Char.Narrow(Char.Shifted(x)) == if y < 0x80 then y else y - 0x100;
  }

  lemma {:induction false} UnshiftShort(x: int)
    requires Short.Holds(x)
    ensures Short.Unshifted(Short.Shifted(x)) == x
  {
    var y := x + Short.Offset();
    assert Short.Shifted(x) == if y < 0 then y + TWO32 else y;
    assert Short.Narrow(Short.Shifted(x)) == if y < 0x8000 then y else y - 0x1_0000;
  }

  lemma {:induction false} UnshiftInt(x: int)
    requires Int.Holds(x)
    ensures Int.Unshifted(Int.Shifted(x)) == x
  {
    var y := x + Int.Offset();
    assert Int.Shifted(x) == if y < 0 then y + TWO32 else y;
    assert Int.Narrow(Int.Shifted(x)) == if y < 0x8000_0000 then y else y - TWO32;
  }

  /** The unsigned variants: char, short and int. */
  datatype UnsignedType = UChar | UShort | UInt
  {
    function Limit(): Word
    {
      match this
      case UChar => 0xFF
      case UShort => 0xFFFF
      case UInt => 0xFFFF_FFFF
    }

    /** Conversion to this type. */
    function Narrow(x: Word): Word
    {
      match this
      case UChar => x % 0x100
      case UShort => x % 0x1_0000
      case UInt => x
    }
  }

  datatype Kind =
    | Boolean
    | SignedRange(sty: SignedType, smin: int, smax: int)
    | Range(uty: UnsignedType, min: Word, max: Word)
    | Float                                               // its 32-bit pattern
    | RawBits(bits: BitCount)
    | Checkpoint
  {
    /** The kinds a C++ program can ask for without failing an assertion. */
    predicate Valid()
    {
      match this
      case SignedRange(ty, smin, smax) => ty.Holds(smin) && ty.Holds(smax) && ty.Shifted(smin) < ty.Shifted(smax)
      case Range(ty, min, max) => min < max <= ty.Limit()
      case _ => true
    }

    function Slot(): Slot
      requires Valid()
    {
      match this
      case Boolean => Data(1)
      case SignedRange(ty, smin, smax) => Data(RangeWidth(ty.Shifted(smin), ty.Shifted(smax)))
      case Range(_, min, max) => Data(RangeWidth(min, max))
      case Float => Data(32)
      case RawBits(n) => Data(n)
      case Checkpoint => Check
    }

    /** The values that can be written without failing an assertion; a checkpoint carries the magic number. */
    predicate Accepts(value: int)
      requires Valid()
    {
      match this
      case Boolean => value in {0, 1}
      case SignedRange(ty, smin, smax) =>
        ty.Holds(value) && ty.Shifted(smin) <= ty.Shifted(value) <= ty.Shifted(smax)
      case Range(_, min, max) => min <= value <= max
      case Float => 0 <= value < TWO32
      case RawBits(n) => 0 <= value < TWO32
      case Checkpoint => value == MAGIC
    }

    /** The values that a variable of the type may hold. */
    predicate Holds(value: int)
    {
      match this
      case Boolean => value in {0, 1}
      case SignedRange(ty, _, _) => ty.Holds(value)
      case Range(ty, _, _) => 0 <= value <= ty.Limit()
      case Float => 0 <= value < TWO32
      case RawBits(n) => 0 <= value < TWO32
      case Checkpoint => true
    }

    /** Some value that can be written. */
    function Sample(): (value: int)
      requires Valid()
      ensures Accepts(value) && Holds(value)
    {
      match this
      case SignedRange(_, smin, _) => smin
      case Range(_, min, _) => min
      case Checkpoint => MAGIC
      case _ => 0
    }

    /** The word handed to the bit packer. */
    function Encode(value: int): Word
      requires Valid() && Accepts(value)
    {
      match this
      case SignedRange(ty, smin, _) => ty.Shifted(value) - ty.Shifted(smin)
      case Range(_, min, _) => value - min
      case _ => value
    }

    /** The value made of the word that comes back. */
    function Decode(word: Word): int
      requires Valid()
    {
      match this
      case Boolean => if word != 0 then 1 else 0
      case SignedRange(ty, smin, _) => ty.Unshifted(U32(word + ty.Shifted(smin)))
      case Range(ty, min, _) => ty.Narrow(U32(word + min))
      case _ => word
    }
  }

  /** Which values can be written: all of a type within the limits, any word as a float or as bits. */
  lemma {:induction false} AcceptsIs(k: Kind, v: int)
    requires k.Valid()
    ensures k.Boolean? ==> (k.Accepts(v) <==> v == 0 || v == 1)
    ensures k.Float? || k.RawBits? ==> (k.Accepts(v) <==> 0 <= v < 0x1_0000_0000)
    ensures k.Range? ==> (k.Accepts(v) <==> k.min <= v <= k.max)
    ensures k.SignedRange? && k.sty.Holds(v) && k.smin <= v <= k.smax ==> k.Accepts(v)
    ensures k.Checkpoint? ==> (k.Accepts(v) <==> v == 0x12345678)
  {
    if k.SignedRange? && k.sty.Holds(v) && k.smin <= v <= k.smax {
      ShiftedIs(k.smin);
      ShiftedIs(v);
      ShiftedIs(k.smax);
    }
  }

  datatype Call = Call(kind: Kind, value: int)
  {
    predicate Valid()
    {
      kind.Valid() && kind.Accepts(value)
    }

    function Item(): Item
      requires Valid()
    {
      StreamItems.Item(kind.Slot(), kind.Encode(value))
    }

    /** What a reader can get back: everything, except that raw bits above the width are not sent. */
    function Received(): int
      requires Valid()
    {
      if kind.RawBits? then Low(value, kind.bits) else value
    }
  }

  /** The bits of each kind of call that are no range: how many, and which. */
  lemma {:induction false} PlainForm(c: Call)
    requires c.Valid()
    ensures c.kind.Boolean? ==> c.Item().Payload() == [c.value == 1] && c.kind.Slot().Token() == 3
    ensures c.kind.Float? ==> c.Item().Payload() == BitsOf(c.value, 32) && c.kind.Slot().Token() == 34
    ensures c.kind.RawBits? ==>
              c.Item().Payload() == BitsOf(c.value, c.kind.bits) && c.kind.Slot().Token() == c.kind.bits + 2
    ensures c.kind.Checkpoint? ==> c.Item().Payload() == BitsOf(0x12345678, 32) && c.kind.Slot().Token() == 1
  {
    if c.kind.Boolean? {
      OneBit(c.value);
    }
  }

  lemma {:induction false} OneBit(x: nat)
    requires x <= 1
    ensures BitsOf(x, 1) == [x == 1] && ValueOf([x == 1]) == x
  {
  }

  /** A range is sent as the distance from its lower limit, in a width that the limits alone decide. */
  lemma {:induction false} RangeForm(c: Call)
    requires c.Valid() && (c.kind.Range? || c.kind.SignedRange?)
    ensures var low := if c.kind.Range? then c.kind.min else c.kind.sty.Shifted(c.kind.smin);
      var high := if c.kind.Range? then c.kind.max else c.kind.sty.Shifted(c.kind.smax);
      var code := if c.kind.Range? then c.value else c.kind.sty.Shifted(c.value);
      && c.Item().Payload() == BitsOf(code - low, RangeWidth(low, high))
      && c.kind.Slot().Token() == RangeWidth(low, high) + 2
  {
  }

  /** A signed value comes before the offset of its type as a negative number, which wraps around. */
  lemma {:induction false} ShiftedIs(x: int)
    ensures -127 <= x < 0x80 ==> Char.Shifted(x) == x + 127
    ensures x == -0x80 ==> Char.Shifted(x) == 0xFFFF_FFFF
    ensures -32767 <= x < 0x8000 ==> Short.Shifted(x) == x + 32767
    ensures x == -0x8000 ==> Short.Shifted(x) == 0xFFFF_FFFF
    ensures -2147483646 <= x < 0x8000_0000 ==> Int.Shifted(x) == x + 2147483646
    ensures x == -0x8000_0000 ==> Int.Shifted(x) == 0xFFFF_FFFE
    ensures x == -0x7FFF_FFFF ==> Int.Shifted(x) == 0xFFFF_FFFF
  {
  }

  /** Range coding is one-to-one into the chosen width. */
  lemma {:induction false} EncodeFits(c: Call)
    requires c.Valid() && !c.kind.RawBits?
    ensures c.Item().Valid() && c.Item().word < Pow2(c.kind.Slot().Width())
  {
    Pow2Values();
    match c.kind
    case Boolean => assert Pow2(1) == 2;
    case SignedRange(ty, smin, smax) => RangeWidthWideEnough(ty.Shifted(smin), ty.Shifted(smax));
    case Range(_, min, max) => RangeWidthWideEnough(min, max);
    case _ =>
  }

  lemma {:induction false} DecodeEncode(c: Call)
    requires c.Valid()
    ensures c.Item().Valid()
    ensures Low(c.Item().word, c.kind.Slot().Width()) < TWO32
    ensures c.kind.Decode(Low(c.Item().word, c.kind.Slot().Width())) == c.Received()
  {
    if c.kind.RawBits? {
      LowBound(c.value, c.kind.bits);
      Pow2Values();
      Pow2Monotone(c.kind.bits, 32);
    } else {
      EncodeFits(c);
      LowIdentity(c.Item().word, c.kind.Slot().Width());
      DecodeWord(c);
    }
  }

  lemma {:induction false} DecodeWord(c: Call)
    requires c.Valid() && !c.kind.RawBits?
    ensures c.kind.Decode(c.kind.Encode(c.value)) == c.value
  {
    match c.kind
    case SignedRange(ty, smin, _) =>
      SignedDecode(ty, smin, c.value);
    case Range(ty, min, _) =>
      RangeDecode(ty, min, c.value);
    case _ =>
  }

  lemma {:induction false} SignedDecode(ty: SignedType, smin: int, value: int)
    requires ty.Holds(value)
    ensures ty.Unshifted(U32((ty.Shifted(value) - ty.Shifted(smin)) + ty.Shifted(smin))) == value
  {
    var t: int := ty.Shifted(value);
    var l: int := ty.Shifted(smin);
    assert (t - l) + l == t;
    U32Word(t);
    UnshiftShifted(ty, value);
  }

  lemma {:induction false} RangeDecode(ty: UnsignedType, min: Word, value: Word)
    requires min <= value <= ty.Limit()
    ensures ty.Narrow(U32((value - min) + min)) == value
  {
    assert (value - min) + min == value;
    U32Word(value);
  }

  lemma {:induction false} U32Word(x: Word)
    ensures U32(x) == x
  {
  }

  // ---- schedules ----

  predicate ValidCalls(calls: seq<Call>)
  {
    forall i :: 0 <= i < |calls| ==> calls[i].Valid()
  }

  predicate ValidKinds(kinds: seq<Kind>)
  {
    forall i :: 0 <= i < |kinds| ==> kinds[i].Valid()
  }

  function Items(calls: seq<Call>): (items: seq<Item>)
    requires ValidCalls(calls)
    ensures |items| == |calls|
  {
    seq(|calls|, i requires 0 <= i < |calls| => calls[i].Item())
  }

  function Kinds(calls: seq<Call>): (kinds: seq<Kind>)
    ensures |kinds| == |calls|
  {
    seq(|calls|, i requires 0 <= i < |calls| => calls[i].kind)
  }

  function SlotsOf(kinds: seq<Kind>): (slots: seq<Slot>)
    requires ValidKinds(kinds)
    ensures |slots| == |kinds|
  {
    seq(|kinds|, i requires 0 <= i < |kinds| => kinds[i].Slot())
  }

  lemma {:induction false} ItemsValid(calls: seq<Call>)
    requires ValidCalls(calls)
    ensures ValidItems(Items(calls)) && ValidKinds(Kinds(calls)) && Slots(Items(calls)) == SlotsOf(Kinds(calls))
  {
    forall i | 0 <= i < |calls| ensures Items(calls)[i].Valid() {
      DecodeEncode(calls[i]);
    }
  }

  /** The values made of the words that the calls of a schedule read. */
  function Decoded(kinds: seq<Kind>, words: seq<nat>): (values: seq<int>)
    requires ValidKinds(kinds) && |words| <= |kinds|
    ensures |values| == |words|
  {
    seq(|words|, i requires 0 <= i < |words| => kinds[i].Decode(U32(words[i])))
  }

  /** Every value of a schedule survives: what the words decode to is what was written. */
  lemma {:induction false} AllDecoded(calls: seq<Call>, kinds: seq<Kind>)
    requires ValidCalls(calls) && ValidKinds(kinds) && Kinds(calls) <= kinds
    ensures forall i :: 0 <= i < |calls| ==> Decoded(kinds, Words(Items(calls)))[i] == calls[i].Received()
  {
    var words := Words(Items(calls));
    forall i | 0 <= i < |calls| ensures Decoded(kinds, words)[i] == calls[i].Received() {
      DecodeEncode(calls[i]);
      assert kinds[i] == Kinds(calls)[i] == calls[i].kind;
      assert words[i] == Low(calls[i].Item().word, calls[i].kind.Slot().Width());
      U32Word(words[i]);
    }
  }

  /**
   For every schedule of typed calls and checkpoints that fits its buffers, running it in write mode and
   then in read mode succeeds at every call and recovers every value.
   */
  lemma {:induction false} ScheduleRoundTrip(v: Reader, calls: seq<Call>)
    requires ValidCalls(calls) && v.at == v.jat == 0 && Fits(v, Items(calls))
    ensures ValidItems(Items(calls)) && ValidKinds(Kinds(calls))
    ensures var r := Rewound(WriteRun(v, Items(calls)));
      && r.Ready(|calls|)
      && var o := ReadRun(r, SlotsOf(Kinds(calls)));
         && !o.failed
         && forall i :: 0 <= i < |calls| ==> Decoded(Kinds(calls), o.words)[i] == calls[i].Received()
  {
    ItemsValid(calls);
    RoundTrip(v, Items(calls));
    AllDecoded(calls, Kinds(calls));
  }

  /**
   With a journal that has an entry for every call so far, a reader whose schedule first differs from the
   writer's in width after the calls `same` gets their values and then false, whatever calls it would make
   later.
   */
  lemma {:induction false} ScheduleDesync(v: Reader, same: seq<Call>, rest: seq<Call>, next: Kind, later: seq<Kind>)
    requires ValidCalls(same) && ValidCalls(rest) && next.Valid() && ValidKinds(later)
    requires v.at == v.jat == 0 && v.hasJournal && 6 * (|same| + 1) <= |v.journal|
    requires forall j :: 0 <= j < |v.journal| ==> !v.journal[j]
    requires Fits(v, Items(same) + Items(rest))
    requires rest != [] ==> rest[0].kind.Slot() != next.Slot()
    ensures ValidItems(Items(same) + Items(rest)) && ValidKinds(Kinds(same) + [next])
    ensures var r := Rewound(WriteRun(v, Items(same) + Items(rest)));
      && r.Ready(|same| + 1)
      && var o := ReadRun(r, SlotsOf(Kinds(same) + [next]));
         && o.failed && |o.words| == |same| && o.after.at == |DataBits(Items(same))|
         && (forall i :: 0 <= i < |same| ==> Decoded(Kinds(same) + [next], o.words)[i] == same[i].Received())
         && (r.Ready(|same| + 1 + |later|) ==>
               ReadRun(r, SlotsOf(Kinds(same) + [next]) + SlotsOf(later)) == o)
  {
    ItemsValid(same);
    ItemsValid(rest);
    var items, kinds := Items(same) + Items(rest), Kinds(same) + [next];
    WriteRunBits(v, items);
    WrittenInStep(v, items);
    var r := Rewound(WriteRun(v, items));
    assert SlotsOf(kinds) == Slots(Items(same)) + [next.Slot()];
    FirstDifference(r, Items(same), Items(rest), SlotsOf(kinds));
    assert Kinds(same) <= kinds;
    AllDecoded(same, kinds);
    if r.Ready(|same| + 1 + |later|) {
      RunStops(r, SlotsOf(kinds), SlotsOf(later));
    }
  }

  /** What one typed call does, told from the buffers and cursors before and after. */
  ghost predicate Effect(mode: Mode, before: Reader, k: Kind, value: int, ok: bool, out: int, after: Reader)
    requires before.Ready(1) && k.Valid() && k != Kind.Checkpoint && (mode.Write? ==> k.Accepts(value))
  {
    match mode
    case Write =>
      var s := WriteItem(before, Call(k, value).Item());
      ok == s.ok && after == s.after && out == value
    case Read =>
      var s := ReadItem(before, k.Slot());
      ok == s.ok && after == s.after && out == if ok then k.Decode(U32(s.word)) else value
  }

  /** The buffers and cursors after the journal's part of a call. */
  function AfterAgree(mode: Mode, v: Reader, token: Word): Reader
    requires v.Ready(1)
  {
    if !v.hasJournal then v
    else if mode.Write? then v.(journal := Spliced(v.journal, v.jat, BitsOf(token, 6)), jat := v.jat + 6)
    else v.PastToken()
  }

  /** The buffers and cursors after the data part of a call. */
  function AfterTransfer(mode: Mode, v: Reader, value: Word, bits: BitCount): Reader
    requires v.at + bits <= |v.data|
  {
    if mode.Write? then v.(data := Spliced(v.data, v.at, BitsOf(value, bits)), at := v.at + bits)
    else v.(at := v.at + bits)
  }

  ghost predicate Agrees(mode: Mode, v: Reader, token: Word)
    requires v.Ready(1)
  {
    v.hasJournal && mode.Read? ==> v.NextToken() == token
  }

  /** The three ways out of SerializeBits. */
  lemma {:induction false} BitsEffect(mode: Mode, v: Reader, value: Word, bits: BitCount, out: Word)
    requires v.Ready(1)
    ensures |v.data| - v.at < bits ==> Effect(mode, v, RawBits(bits), value, false, value, v)
    ensures |v.data| - v.at >= bits && !Agrees(mode, v, 2 + bits) ==>
              Effect(mode, v, RawBits(bits), value, false, value, AfterAgree(mode, v, 2 + bits))
    ensures |v.data| - v.at >= bits && Agrees(mode, v, 2 + bits) &&
            out == (if mode.Write? then value else ValueOf(v.data[v.at..v.at + bits])) ==>
              Effect(mode, v, RawBits(bits), value, true, out,
                     AfterTransfer(mode, AfterAgree(mode, v, 2 + bits), value, bits))
  {
    U32Word(out);
  }

  /**
   A boolean takes a single bit, and in the journal the entry 3: it is sent whenever there is a bit left and, when
   reading, the journal has that entry next; the bit is the value.
   */
  ghost predicate BooleanSent(mode: Mode, before: Reader, value: bool, ok: bool, out: bool, after: Reader)
    requires before.Ready(1)
  {
    && (ok <==> before.at < |before.data| && (mode.Read? && before.hasJournal ==> before.NextToken() == 3))
    && (ok ==> after.at == before.at + 1 && (before.hasJournal ==> after.jat == before.jat + 6))
    && (ok && mode.Write? ==>
          && out == value && after.data == before.data[before.at := value]
          && (before.hasJournal ==> after.journal == Spliced(before.journal, before.jat, BitsOf(3, 6))))
    && (ok && mode.Read? ==> out == before.data[before.at] && after.data == before.data)
  }

  lemma {:induction false} BooleanEffect(mode: Mode, before: Reader, value: bool, ok: bool, out: bool, after: Reader)
    requires before.Ready(1)
    requires Effect(mode, before, Boolean, if value then 1 else 0, ok, if out then 1 else 0, after)
    ensures BooleanSent(mode, before, value, ok, out, after)
  {
    OneBit(if value then 1 else 0);
    if before.at < |before.data| {
      assert before.data[before.at..before.at + 1] == [before.data[before.at]];
      OneBit(if before.data[before.at] then 1 else 0);
      U32Word(if before.data[before.at] then 1 else 0);
      assert Spliced(before.data, before.at, [value]) == before.data[before.at := value];
    }
  }

  ghost predicate CheckEffect(mode: Mode, before: Reader, ok: bool, after: Reader)
    requires before.Ready(1)
  {
    var s := if mode.Write? then WriteItem(before, StreamItems.Item(Check, MAGIC)) else ReadItem(before, Check);
    ok == s.ok && after == s.after
  }

  ghost predicate PerformEffect(mode: Mode, before: Reader, k: Kind, value: int, ok: bool, out: int, after: Reader)
    requires before.Ready(1) && k.Valid() && (mode.Write? ==> k.Accepts(value))
  {
    if k == Kind.Checkpoint then CheckEffect(mode, before, ok, after) && out == MAGIC
    else Effect(mode, before, k, value, ok, out, after)
  }

  /** A successful call in read mode is the head of a run. */
  lemma {:induction false} ReadCons(before: Reader, kinds: seq<Kind>, value: int, out: int, mid: Reader)
    requires ValidKinds(kinds) && kinds != [] && before.Ready(|kinds|)
    requires PerformEffect(Read, before, kinds[0], value, true, out, mid)
    ensures mid.Ready(|kinds| - 1)
    ensures var o, rest := ReadRun(before, SlotsOf(kinds)), ReadRun(mid, SlotsOf(kinds[1..]));
      && o.after == rest.after && o.failed == rest.failed
      && Decoded(kinds, o.words) == [out] + Decoded(kinds[1..], rest.words)
  {
    var slots, s := SlotsOf(kinds), ReadItem(before, kinds[0].Slot());
    assert s.ok && s.after == mid && out == kinds[0].Decode(U32(s.word)) by {
      U32Word(MAGIC);
    }
    assert slots[0] == kinds[0].Slot() && slots[1..] == SlotsOf(kinds[1..]);
    DecodedCons(kinds, s.word, ReadRun(mid, slots[1..]).words);
  }

  lemma {:induction false} DecodedCons(kinds: seq<Kind>, word: nat, words: seq<nat>)
    requires ValidKinds(kinds) && |words| < |kinds|
    ensures Decoded(kinds, [word] + words) == [kinds[0].Decode(U32(word))] + Decoded(kinds[1..], words)
  {
  }

  lemma {:induction false} IntegerEffect(mode: Mode, before: Reader, value: Word, min: Word, max: Word,
          ok: bool, bits: Word, after: Reader)
    requires before.Ready(1) && min < max && (mode.Write? ==> min <= value <= max)
    requires Effect(mode, before, RawBits(RangeWidth(min, max)), U32(value - min), ok, bits, after)
    ensures Effect(mode, before, Range(UInt, min, max), value, ok, if mode.Read? then U32(bits + min) else value, after)
  {
    if mode.Write? {
      U32Word(value - min);
    } else if !ok {
      U32Shift(value, min);
    }
  }

  lemma {:induction false} U32Shift(value: Word, min: Word)
    ensures U32(U32(value - min) + min) == value
  {
  }

  lemma {:induction false} SignedEffect(mode: Mode, before: Reader, ty: SignedType, value: int, min: int,
          max: int, ok: bool, tmp: Word, after: Reader)
    requires before.Ready(1) && ty.Holds(value) && SignedRange(ty, min, max).Valid()
    requires mode.Write? ==> SignedRange(ty, min, max).Accepts(value)
    requires Effect(mode, before, Range(UInt, ty.Shifted(min), ty.Shifted(max)), ty.Shifted(value), ok, tmp, after)
    ensures Effect(mode, before, SignedRange(ty, min, max), value, ok, ty.Unshifted(tmp), after)
  {
    var k, k' := Range(UInt, ty.Shifted(min), ty.Shifted(max)), SignedRange(ty, min, max);
    UnshiftShifted(ty, value);
    forall w: Word ensures tmp == k.Decode(w) ==> ty.Unshifted(tmp) == k'.Decode(w) {
      ShiftedDecode(ty, min, max, w);
    }
    SameEffect(mode, before, k, ty.Shifted(value), tmp, k', value, ty.Unshifted(tmp), ok, after);
  }

  /** A signed value is decoded as the unsigned one that stands for it. */
  lemma {:induction false} ShiftedDecode(ty: SignedType, min: int, max: int, w: Word)
    requires SignedRange(ty, min, max).Valid()
    ensures SignedRange(ty, min, max).Decode(w) == ty.Unshifted(Range(UInt, ty.Shifted(min), ty.Shifted(max)).Decode(w))
  {
  }

  lemma {:induction false} UnsignedEffect(mode: Mode, before: Reader, ty: UnsignedType, value: Word, min: Word,
          max: Word, ok: bool, tmp: Word, after: Reader)
    requires before.Ready(1) && value <= ty.Limit() && Range(ty, min, max).Valid()
    requires mode.Write? ==> Range(ty, min, max).Accepts(value)
    requires Effect(mode, before, Range(UInt, min, max), value, ok, tmp, after)
    ensures Effect(mode, before, Range(ty, min, max), value, ok, ty.Narrow(tmp), after)
  {
    SameEffect(mode, before, Range(UInt, min, max), value, tmp, Range(ty, min, max), value, ty.Narrow(tmp), ok, after);
  }

  /** Two kinds that send the same items have the same effect, but for what they make of the value. */
  lemma {:induction false} SameEffect(mode: Mode, before: Reader, k: Kind, value: int, out: int, k': Kind,
          value': int, out': int, ok: bool, after: Reader)
    requires before.Ready(1) && k.Valid() && k'.Valid() && k.Slot() == k'.Slot()
    requires k != Kind.Checkpoint && k' != Kind.Checkpoint
    requires mode.Write? ==> k.Accepts(value) && k'.Accepts(value') && k.Encode(value) == k'.Encode(value')
    requires out == value ==> out' == value'
    requires forall w: Word :: out == k.Decode(w) ==> out' == k'.Decode(w)
    requires Effect(mode, before, k, value, ok, out, after)
    ensures Effect(mode, before, k', value', ok, out', after)
  {
  }

  // ---- the class ----

  class Stream {
    const mode: Mode
    const bitpacker: BitPacker
    const journal: BitPacker
    const journaled: bool      // the journal was given a buffer

    /** Buffers and cursors as the specification sees them. */
    ghost function View(): Reader
      reads bitpacker, bitpacker.buffer, journal, journal.buffer
    {
      Reader(bitpacker.Stream(), bitpacker.Cursor(), journaled, journal.Stream(), journal.Cursor())
    }

    ghost predicate Valid()
      reads bitpacker, bitpacker.buffer, journal, journal.buffer
    {
      && bitpacker != journal && bitpacker.buffer != journal.buffer
      && bitpacker.Valid() && journal.Valid()
      && bitpacker.mode == mode && journal.mode == mode
    }

    constructor (mode: Mode, buffer: array<Byte>, journalBuffer: array?<Byte>)
      requires journalBuffer != buffer
      modifies buffer, if journalBuffer == null then {} else {journalBuffer}
      ensures Valid() && this.mode == mode && bitpacker.buffer == buffer && journaled == (journalBuffer != null)
      ensures if journalBuffer == null then fresh(journal.buffer) else journal.buffer == journalBuffer
      ensures fresh(bitpacker) && fresh(journal)
      ensures View().at == View().jat == 0
      ensures mode.Read? ==> buffer[..] == old(buffer[..])
      ensures mode.Read? && journalBuffer != null ==> journalBuffer[..] == old(journalBuffer[..])
      ensures mode.Write? ==> (forall j :: 0 <= j < |View().data| ==> !View().data[j]) &&
                              (forall j :: 0 <= j < |View().journal| ==> !View().journal[j])
    {
      this.mode := mode;
      journaled := journalBuffer != null;
      bitpacker := new BitPacker(mode, buffer);
      var none := new Byte[0];
      journal := new BitPacker(mode, if journalBuffer == null then none else journalBuffer);
    }

    /** The journal has room for one more entry, when one is needed; the code asserts as much. */
    ghost predicate JournalRoom()
      reads bitpacker, bitpacker.buffer, journal, journal.buffer
    {
      View().Ready(1)
    }

    /** The journal's part of a call: an entry is made, or the next one must be this. */
    method Agree(token: Word) returns (ok: bool)
      requires Valid() && JournalRoom() && token < 64
      modifies journal, journal.buffer
      ensures Valid() && bitpacker.Stream() == old(bitpacker.Stream())
      ensures View() == AfterAgree(mode, old(View()), token) && ok == Agrees(mode, old(View()), token)
    {
      ok := true;
      if journaled {
        if mode == Write {
          journal.WriteBits(token, 6);
        } else {
          var found := journal.ReadBits(6);
          ok := found == token;
        }
      }
    }

    /** The data part of a call. */
    method Transfer(value: Word, bits: BitCount) returns (out: Word)
      requires Valid() && bits <= bitpacker.BitsRemaining()
      modifies bitpacker, bitpacker.buffer
      ensures Valid() && journal.Stream() == old(journal.Stream())
      ensures View() == AfterTransfer(mode, old(View()), value, bits)
      ensures out == if mode.Write? then value else ValueOf(old(View()).data[old(View()).at..old(View()).at + bits])
    {
      if mode == Read {
        out := bitpacker.ReadBits(bits);
      } else {
        out := value;
        bitpacker.WriteBits(value, bits);
      }
    }

    method SerializeBits(value: Word, bits: BitCount) returns (ok: bool, out: Word)
      requires Valid() && JournalRoom()
      modifies bitpacker, bitpacker.buffer, journal, journal.buffer
      ensures Valid() && Effect(mode, old(View()), RawBits(bits), value, ok, out, View())
    {
      out := value;
      ghost var v := View();
      if bitpacker.BitsRemaining() < bits {
        BitsEffect(mode, v, value, bits, out);
        return false, out;
      }
      ok := Agree(2 + bits);
      if ok {
        out := Transfer(value, bits);
      }
      BitsEffect(mode, v, value, bits, out);
    }

    method Checkpoint() returns (ok: bool)
      requires Valid() && JournalRoom()
      modifies bitpacker, bitpacker.buffer, journal, journal.buffer
      ensures Valid() && CheckEffect(mode, old(View()), ok, View())
    {
      ok := Agree(1);
      if !ok {
        return;
      }
      if bitpacker.BitsRemaining() < 32 {
        return false;
      }
      var value := Transfer(MAGIC, 32);
      return value == MAGIC;
    }

    // ---- the typed calls ----

    method SerializeInteger(value: Word, min: Word, max: Word) returns (ok: bool, out: Word)
      requires Valid() && JournalRoom() && min < max && (mode.Write? ==> min <= value <= max)
      modifies bitpacker, bitpacker.buffer, journal, journal.buffer
      ensures Valid() && Effect(mode, old(View()), Range(UInt, min, max), value, ok, out, View())
    {
      var bitsRequired := BitsRequired(min, max);
      var bits := U32(value - min);
      ghost var before := View();
      ok, bits := SerializeBits(bits, bitsRequired);
      IntegerEffect(mode, before, value, min, max, ok, bits, View());
      out := if mode == Read then U32(bits + min) else value;
    }

    /** SerializeByte, SerializeShort and SerializeInteger for the signed types. */
    method SerializeSigned(ty: SignedType, value: int, min: int, max: int) returns (ok: bool, out: int)
      requires Valid() && JournalRoom() && ty.Holds(value) && SignedRange(ty, min, max).Valid()
      requires mode.Write? ==> SignedRange(ty, min, max).Accepts(value)
      modifies bitpacker, bitpacker.buffer, journal, journal.buffer
      ensures Valid() && Effect(mode, old(View()), SignedRange(ty, min, max), value, ok, out, View())
    {
      ghost var before := View();
      var tmp := ty.Shifted(value);
      ok, tmp := SerializeInteger(tmp, ty.Shifted(min), ty.Shifted(max));
      SignedEffect(mode, before, ty, value, min, max, ok, tmp, View());
      out := ty.Unshifted(tmp);
    }

    /** SerializeByte and SerializeShort for the unsigned types. */
    method SerializeUnsigned(ty: UnsignedType, value: Word, min: Word, max: Word) returns (ok: bool, out: Word)
      requires Valid() && JournalRoom() && value <= ty.Limit() && Range(ty, min, max).Valid()
      requires mode.Write? ==> Range(ty, min, max).Accepts(value)
      modifies bitpacker, bitpacker.buffer, journal, journal.buffer
      ensures Valid() && Effect(mode, old(View()), Range(ty, min, max), value, ok, out, View())
    {
      ghost var before := View();
      var tmp := value;
      ok, tmp := SerializeInteger(tmp, min, max);
      UnsignedEffect(mode, before, ty, value, min, max, ok, tmp, View());
      out := ty.Narrow(tmp);
    }

    method SerializeBoolean(value: bool) returns (ok: bool, out: bool)
      requires Valid() && JournalRoom()
      modifies bitpacker, bitpacker.buffer, journal, journal.buffer
      ensures Valid()
      ensures Effect(mode, old(View()), Boolean, if value then 1 else 0, ok, if out then 1 else 0, View())
      ensures BooleanSent(mode, old(View()), value, ok, out, View())
    {
      var tmp: Word := if value then 1 else 0;
      ghost var before := View();
      ok, tmp := SerializeBits(tmp, 1);
      out := tmp != 0;
      BooleanEffect(mode, before, value, ok, out, View());
    }

    /** The value is given as its bit pattern. */
    method SerializeFloat(value: Word) returns (ok: bool, out: Word)
      requires Valid() && JournalRoom()
      modifies bitpacker, bitpacker.buffer, journal, journal.buffer
      ensures Valid() && Effect(mode, old(View()), Float, value, ok, out, View())
    {
      ok, out := SerializeBits(value, 32);
    }

    /** One call of a schedule; in read mode the value is what the variable held before. */
    method Perform(kind: Kind, value: int) returns (ok: bool, out: int)
      requires Valid() && JournalRoom() && kind.Valid() && kind.Holds(value)
      requires mode.Write? ==> kind.Accepts(value)
      modifies bitpacker, bitpacker.buffer, journal, journal.buffer
      ensures Valid() && PerformEffect(mode, old(View()), kind, value, ok, out, View())
    {
      match kind
      case Boolean =>
        var b;
        ok, b := SerializeBoolean(value == 1);
        out := if b then 1 else 0;
      case SignedRange(ty, min, max) =>
        ok, out := SerializeSigned(ty, value, min, max);
      case Range(ty, min, max) =>
        ok, out := SerializeUnsigned(ty, value, min, max);
      case Float =>
        ok, out := SerializeFloat(value);
      case RawBits(n) =>
        ok, out := SerializeBits(value, n);
      case Checkpoint =>
        ok := Checkpoint();
        out := MAGIC;
    }

    // ---- whole schedules ----

    method WriteSchedule(calls: seq<Call>) returns (ok: bool)
      requires Valid() && mode.Write? && ValidCalls(calls) && Fits(View(), Items(calls))
      modifies bitpacker, bitpacker.buffer, journal, journal.buffer
      ensures Valid() && ok
      ensures ValidItems(Items(calls)) && View() == WriteRun(old(View()), Items(calls))
      decreases |calls|
    {
      ItemsValid(calls);
      ok := true;
      if calls != [] {
        WriteItemFits(View(), Items(calls));
        assert Items(calls)[1..] == Items(calls[1..]);
        var done, _ := Perform(calls[0].kind, calls[0].value);
        var rest := WriteSchedule(calls[1..]);
        ok := done && rest;
      }
    }

    /** Calls in read mode until one returns false; each variable holds some value of its kind before. */
    method ReadSchedule(kinds: seq<Kind>) returns (values: seq<int>, ok: bool)
      requires Valid() && mode.Read? && ValidKinds(kinds) && View().Ready(|kinds|)
      modifies bitpacker, bitpacker.buffer, journal, journal.buffer
      ensures Valid()
      ensures var o := ReadRun(old(View()), SlotsOf(kinds));
        ok == !o.failed && values == Decoded(kinds, o.words) && View() == o.after
      decreases |kinds|
    {
      values, ok := [], true;
      if kinds != [] {
        ghost var before := View();
        var out;
        ok, out := Perform(kinds[0], kinds[0].Sample());
        if ok {
          ReadCons(before, kinds, kinds[0].Sample(), out, View());
          values, ok := ReadSchedule(kinds[1..]);
          values := [out] + values;
        }
      }
    }
  }

  /** A program that writes a schedule into its buffers and reads it back from them. */
  method WriteThenRead(calls: seq<Call>, buffer: array<Byte>, journalBuffer: array?<Byte>)
    returns (values: seq<int>, ok: bool)
    requires ValidCalls(calls) && journalBuffer != buffer
    requires |DataBits(Items(calls))| <= 8 * buffer.Length
    requires journalBuffer != null ==> 6 * |calls| <= 8 * journalBuffer.Length
    modifies buffer, if journalBuffer == null then {} else {journalBuffer}
    ensures ok && |values| == |calls|
    ensures forall i :: 0 <= i < |calls| ==> values[i] == calls[i].Received()
  {
    var writer := new Stream(Write, buffer, journalBuffer);
    ghost var v := writer.View();
    ok := writer.WriteSchedule(calls);
    ghost var w := writer.View();
    ScheduleRoundTrip(v, calls);
    WriteRunBits(v, Items(calls));
    var reader := new Stream(Read, buffer, journalBuffer);
    ghost var r := reader.View();
    SameRun(r, Rewound(w), SlotsOf(Kinds(calls)));
    var all;
    values, all := reader.ReadSchedule(Kinds(calls));
    ok := ok && all;
  }

  /** Without a journal the journal part of a reader plays no role. */
  lemma {:induction false} SameRun(a: Reader, b: Reader, slots: seq<Slot>)
    requires a.data == b.data && a.at == b.at && a.hasJournal == b.hasJournal
    requires a.hasJournal ==> a == b
    requires a.Ready(|slots|) && b.Ready(|slots|)
    ensures ReadRun(a, slots).words == ReadRun(b, slots).words && ReadRun(a, slots).failed == ReadRun(b, slots).failed
    decreases |slots|
  {
    if slots != [] && ReadItem(a, slots[0]).ok {
      SameRun(ReadItem(a, slots[0]).after, ReadItem(b, slots[0]).after, slots[1..]);
    }
  }
}
