/**
 The generated messages PBVector3, PBGameObject and NetPacket: parsing, writing, sizes and merging.
 Floats are their bit patterns, of which two are zero.
 */
module Messages {
  import opened Bits
  import opened Options
  import opened Wire

  datatype Vector = Vector(x: Word, y: Word, z: Word)
  datatype GameObject = GameObject(goid: Int32, position: Option<Vector>)
  datatype Packet = Packet(sequence: Int32, ack: Int32, ackBits: Int32, timestamp: Int64, payload: seq<Byte>)

  const ORIGIN := Vector(0, 0, 0)
  const NEGATIVE_ZERO: Word := 0x8000_0000

  /** x <= 0 && x >= 0, for a float with this bit pattern. */
  predicate IsZero(w: Word)
  {
    w == 0 || w == NEGATIVE_ZERO
  }

  /** The two patterns without a bit set but perhaps the sign. */
  lemma {:induction false} ZeroIs(w: Word)
    ensures IsZero(w) <==> w == 0x0000_0000 || w == 0x8000_0000
  {
  }

  // ---- applying a field ----

  function ApplyVector(m: Vector, f: Field): Parsed<Vector>
  {
    if f.Float? && f.number == 1 then Parsed(m.(x := f.word), Done)
    else if f.Float? && f.number == 2 then Parsed(m.(y := f.word), Done)
    else if f.Float? && f.number == 3 then Parsed(m.(z := f.word), Done)
    else Parsed(m, Unknown)
  }

  /** The position to parse into: one that is there is merged into. */
  function Mutable(position: Option<Vector>): Vector
  {
    if position.Some? then position.value else ORIGIN
  }

  function ApplyObject(m: GameObject, f: Field): Parsed<GameObject>
  {
    if f.Number? && f.number == 1 then Parsed(m.(goid := ToInt32(f.value)), Done)
    else if f.Delimited? && f.number == 2 then
      var inner := Parse(ApplyVector, Mutable(m.position), f.bytes);
      Parsed(m.(position := Some(inner.message)), inner.status)
    else Parsed(m, Unknown)
  }

  function ApplyPacket(m: Packet, f: Field): Parsed<Packet>
  {
    if f.Number? && f.number == 1 then Parsed(m.(sequence := ToInt32(f.value)), Done)
    else if f.Number? && f.number == 2 then Parsed(m.(ack := ToInt32(f.value)), Done)
    else if f.Number? && f.number == 3 then Parsed(m.(ackBits := ToInt32(f.value)), Done)
    else if f.Number? && f.number == 4 then Parsed(m.(timestamp := ToInt64(f.value)), Done)
    else if f.Delimited? && f.number == 5 then Parsed(m.(payload := f.bytes), Done)
    else Parsed(m, Unknown)
  }

  // ---- the fields written: none for a zero ----

  function FloatField(number: nat, w: Word): seq<Field>
  {
    if IsZero(w) then [] else [Float(number, w)]
  }

  function NumberField(number: nat, v: Int64): seq<Field>
  {
    if v == 0 then [] else [Number(number, Extended(v))]
  }

  function VectorFields(m: Vector): seq<Field>
  {
    FloatField(1, m.x) + FloatField(2, m.y) + FloatField(3, m.z)
  }

  function ObjectFields(m: GameObject): seq<Field>
  {
    NumberField(1, m.goid)
    + match m.position
      case Some(v) => [Delimited(2, EncodeAll(VectorFields(v)))]
      case None => []
  }

  function PacketFields(m: Packet): seq<Field>
  {
    NumberField(1, m.sequence) + NumberField(2, m.ack) + NumberField(3, m.ackBits) + NumberField(4, m.timestamp)
    + if m.payload == [] then [] else [Delimited(5, m.payload)]
  }

  /** The first bytes of the fields, by which a reader tells them. */
  lemma {:induction false} Tags(number: nat, value: nat, bytes: seq<Byte>, w: Word)
    requires 1 <= number <= 5
    ensures Encode(Number(number, value)) == [8 * number] + Varint(value)
    ensures Encode(Delimited(number, bytes)) == [8 * number + 2] + (Varint(|bytes|) + bytes)
    ensures Encode(Float(number, w)) == [8 * number + 5] + Fixed(w)
  {
  }

  /** A vector is its coordinates behind the bytes 13, 21 and 29, those that are zero left out. */
  lemma {:induction false} VectorBytes(m: Vector)
    ensures EncodeAll(VectorFields(m)) ==
            (if IsZero(m.x) then [] else [13] + Fixed(m.x)) + (if IsZero(m.y) then [] else [21] + Fixed(m.y))
            + if IsZero(m.z) then [] else [29] + Fixed(m.z)
  {
    EncodeConcat(FloatField(1, m.x) + FloatField(2, m.y), FloatField(3, m.z));
    EncodeConcat(FloatField(1, m.x), FloatField(2, m.y));
    FloatBytes(1, m.x);
    FloatBytes(2, m.y);
    FloatBytes(3, m.z);
  }

  lemma {:induction false} FloatBytes(number: nat, w: Word)
    requires 1 <= number <= 5
    ensures EncodeAll(FloatField(number, w)) == if IsZero(w) then [] else [8 * number + 5] + Fixed(w)
  {
    Tags(number, 0, [], w);
    if !IsZero(w) {
      EncodeOne(Float(number, w));
    }
  }

  /** A number behind its first byte; nothing for zero. */
  function NumberPart(first: Byte, v: Int64): seq<Byte>
  {
    if v == 0 then [] else [first] + Varint(Extended(v))
  }

  /** Bytes behind their first byte and their length. */
  function BytesPart(first: Byte, bytes: seq<Byte>): seq<Byte>
  {
    [first] + (Varint(|bytes|) + bytes)
  }

  lemma {:induction false} NumberBytes(number: nat, v: Int64)
    requires 1 <= number <= 5
    ensures EncodeAll(NumberField(number, v)) == NumberPart(8 * number, v)
  {
    if v != 0 {
      Tags(number, Extended(v), [], 0);
      EncodeOne(Number(number, Extended(v)));
    }
  }

  lemma {:induction false} DelimitedBytes(number: nat, bytes: seq<Byte>)
    requires 1 <= number <= 5
    ensures EncodeAll([Delimited(number, bytes)]) == BytesPart(8 * number + 2, bytes)
  {
    Tags(number, 0, bytes, 0);
    EncodeOne(Delimited(number, bytes));
  }

  /** An object is its id behind the byte 8, unless zero, and its position behind the byte 18 and the length. */
  lemma {:induction false} ObjectBytes(m: GameObject)
    ensures m.position.None? ==> EncodeAll(ObjectFields(m)) == NumberPart(8, m.goid)
    ensures m.position.Some? ==>
              EncodeAll(ObjectFields(m)) ==
              NumberPart(8, m.goid) + BytesPart(18, EncodeAll(VectorFields(m.position.value)))
  {
    NumberBytes(1, m.goid);
    if m.position.Some? {
      var bytes := EncodeAll(VectorFields(m.position.value));
      DelimitedBytes(2, bytes);
      EncodeConcat(NumberField(1, m.goid), [Delimited(2, bytes)]);
    } else {
      assert ObjectFields(m) == NumberField(1, m.goid);
    }
  }

  lemma {:induction false} FourNumbers(m: Packet)
    ensures EncodeAll(NumberField(1, m.sequence) + NumberField(2, m.ack) + NumberField(3, m.ackBits)
                      + NumberField(4, m.timestamp)) ==
            NumberPart(8, m.sequence) + NumberPart(16, m.ack) + NumberPart(24, m.ackBits) + NumberPart(32, m.timestamp)
  {
    var one, two := NumberField(1, m.sequence), NumberField(2, m.ack);
    var three, four := NumberField(3, m.ackBits), NumberField(4, m.timestamp);
    NumberBytes(1, m.sequence);
    NumberBytes(2, m.ack);
    NumberBytes(3, m.ackBits);
    NumberBytes(4, m.timestamp);
    EncodeConcat(one, two);
    EncodeConcat(one + two, three);
    EncodeConcat(one + two + three, four);
  }

  /** A packet is its numbers behind the bytes 8, 16, 24 and 32 and its payload behind 42, unless it is empty. */
  lemma {:induction false} PacketBytes(m: Packet)
    ensures EncodeAll(PacketFields(m)) ==
            NumberPart(8, m.sequence) + NumberPart(16, m.ack) + NumberPart(24, m.ackBits) + NumberPart(32, m.timestamp)
            + if m.payload == [] then [] else BytesPart(42, m.payload)
  {
    var numbers := NumberField(1, m.sequence) + NumberField(2, m.ack) + NumberField(3, m.ackBits)
                   + NumberField(4, m.timestamp);
    FourNumbers(m);
    if m.payload == [] {
      assert PacketFields(m) == numbers;
    } else {
      DelimitedBytes(5, m.payload);
      EncodeConcat(numbers, [Delimited(5, m.payload)]);
    }
  }

  // ---- merging: what is zero in the second message does not count ----

  function MergeVector(m: Vector, a: Vector): Vector
  {
    Vector(if IsZero(a.x) then m.x else a.x, if IsZero(a.y) then m.y else a.y, if IsZero(a.z) then m.z else a.z)
  }

  function MergeObject(m: GameObject, a: GameObject): GameObject
  {
    GameObject(
      if a.goid == 0 then m.goid else a.goid,
      if a.position.None? then m.position else Some(MergeVector(Mutable(m.position), a.position.value)))
  }

  function MergePacket(m: Packet, a: Packet): Packet
  {
    Packet(
      if a.sequence == 0 then m.sequence else a.sequence,
      if a.ack == 0 then m.ack else a.ack,
      if a.ackBits == 0 then m.ackBits else a.ackBits,
      if a.timestamp == 0 then m.timestamp else a.timestamp,
      if a.payload == [] then m.payload else a.payload)
  }

  // ---- applying the fields of a message merges it ----

  lemma {:induction false} ApplyConcat<M>(apply: (M, Field) -> Parsed<M>, m: M, a: seq<Field>, b: seq<Field>)
    requires ApplyAll(apply, m, a).status.Done?
    ensures ApplyAll(apply, m, a + b) == ApplyAll(apply, ApplyAll(apply, m, a).message, b)
    decreases |a|
  {
    if a == [] {
      assert a + b == b;
    } else {
      assert (a + b)[1..] == a[1..] + b;
      ApplyConcat(apply, apply(m, a[0]).message, a[1..], b);
    }
  }

  lemma {:induction false} ApplyOne<M>(apply: (M, Field) -> Parsed<M>, m: M, f: Field)
    requires apply(m, f).status.Done?
    ensures ApplyAll(apply, m, [f]) == apply(m, f)
  {
    assert [f][1..] == [];
  }

  lemma {:induction false} VectorApplied(m: Vector, a: Vector)
    ensures ApplyAll(ApplyVector, m, VectorFields(a)) == Parsed(MergeVector(m, a), Done)
  {
    var m1 := m.(x := if IsZero(a.x) then m.x else a.x);
    var m2 := m1.(y := if IsZero(a.y) then m.y else a.y);
    FloatApplied(m, Float(1, a.x), m1);
    FloatApplied(m1, Float(2, a.y), m2);
    FloatApplied(m2, Float(3, a.z), MergeVector(m, a));
    ApplyConcat(ApplyVector, m, FloatField(1, a.x), FloatField(2, a.y));
    ApplyConcat(ApplyVector, m, FloatField(1, a.x) + FloatField(2, a.y), FloatField(3, a.z));
  }

  lemma {:induction false} FloatApplied(m: Vector, f: Field, m': Vector)
    requires f.Float? && Parsed(m', Done) == if IsZero(f.word) then Parsed(m, Done) else ApplyVector(m, f)
    ensures ApplyAll(ApplyVector, m, FloatField(f.number, f.word)) == Parsed(m', Done)
  {
    if !IsZero(f.word) {
      ApplyOne(ApplyVector, m, f);
    }
  }

  lemma {:induction false} VectorValid(a: Vector)
    ensures AllValid(VectorFields(a))
    ensures |EncodeAll(VectorFields(a))| == VectorSize(a) < 16
  {
    EncodeConcat(FloatField(1, a.x), FloatField(2, a.y));
    EncodeConcat(FloatField(1, a.x) + FloatField(2, a.y), FloatField(3, a.z));
    FloatSize(1, a.x);
    FloatSize(2, a.y);
    FloatSize(3, a.z);
  }

  /** Parsing a written vector into another one merges it. */
  lemma {:induction false} VectorParsed(m: Vector, a: Vector)
    ensures Parse(ApplyVector, m, EncodeAll(VectorFields(a))) == Parsed(MergeVector(m, a), Done)
  {
    VectorValid(a);
    ParseEncoded(ApplyVector, m, VectorFields(a));
    VectorApplied(m, a);
  }

  /** Parsing a written game object into another one merges it, its position included. */
  lemma {:induction false} ObjectParsed(m: GameObject, a: GameObject)
    ensures Parse(ApplyObject, m, EncodeAll(ObjectFields(a))) == Parsed(MergeObject(m, a), Done)
  {
    ObjectValid(a);
    ParseEncoded(ApplyObject, m, ObjectFields(a));
    var id := NumberField(1, a.goid);
    var m1 := m.(goid := if a.goid == 0 then m.goid else a.goid);
    if a.goid != 0 {
      ExtendedBack(a.goid);
      ApplyOne(ApplyObject, m, Number(1, Extended(a.goid)));
    }
    assert ApplyAll(ApplyObject, m, id) == Parsed(m1, Done);
    if a.position.Some? {
      var f := Delimited(2, EncodeAll(VectorFields(a.position.value)));
      VectorParsed(Mutable(m.position), a.position.value);
      ApplyOne(ApplyObject, m1, f);
      ApplyConcat(ApplyObject, m, id, [f]);
    } else {
      assert ObjectFields(a) == id;
    }
  }

  lemma {:induction false} ObjectValid(a: GameObject)
    ensures AllValid(ObjectFields(a))
  {
    if a.position.Some? {
      VectorValid(a.position.value);
    }
  }

  lemma {:induction false} ObjectSizeExact(a: GameObject)
    ensures |EncodeAll(ObjectFields(a))| == ObjectSize(a)
  {
    NumberSize(1, a.goid);
    if a.position.Some? {
      var bytes := EncodeAll(VectorFields(a.position.value));
      VectorValid(a.position.value);
      DelimitedSize(2, bytes);
      EncodeConcat(NumberField(1, a.goid), [Delimited(2, bytes)]);
    } else {
      assert ObjectFields(a) == NumberField(1, a.goid);
    }
  }

  lemma {:induction false} NumberApplied(m: Packet, number: nat, v: Int64, m': Packet)
    requires Parsed(m', Done) == if v == 0 then Parsed(m, Done) else ApplyPacket(m, Number(number, Extended(v)))
    ensures ApplyAll(ApplyPacket, m, NumberField(number, v)) == Parsed(m', Done)
  {
    if v != 0 {
      ApplyOne(ApplyPacket, m, Number(number, Extended(v)));
    }
  }

  lemma {:induction false} PacketApplied(m: Packet, a: Packet)
    ensures ApplyAll(ApplyPacket, m, PacketFields(a)) == Parsed(MergePacket(m, a), Done)
  {
    var m1 := m.(sequence := if a.sequence == 0 then m.sequence else a.sequence);
    var m2 := m1.(ack := if a.ack == 0 then m.ack else a.ack);
    var m3 := m2.(ackBits := if a.ackBits == 0 then m.ackBits else a.ackBits);
    var m4 := m3.(timestamp := if a.timestamp == 0 then m.timestamp else a.timestamp);
    ExtendedBack(a.sequence);
    ExtendedBack(a.ack);
    ExtendedBack(a.ackBits);
    ExtendedBack(a.timestamp);
    NumberApplied(m, 1, a.sequence, m1);
    NumberApplied(m1, 2, a.ack, m2);
    NumberApplied(m2, 3, a.ackBits, m3);
    NumberApplied(m3, 4, a.timestamp, m4);
    var two := NumberField(1, a.sequence) + NumberField(2, a.ack);
    var four := two + NumberField(3, a.ackBits) + NumberField(4, a.timestamp);
    ApplyConcat(ApplyPacket, m, NumberField(1, a.sequence), NumberField(2, a.ack));
    ApplyConcat(ApplyPacket, m, two, NumberField(3, a.ackBits));
    ApplyConcat(ApplyPacket, m, two + NumberField(3, a.ackBits), NumberField(4, a.timestamp));
    if a.payload == [] {
      assert PacketFields(a) == four;
    } else {
      ApplyOne(ApplyPacket, m4, Delimited(5, a.payload));
      ApplyConcat(ApplyPacket, m, four, [Delimited(5, a.payload)]);
    }
  }

  lemma {:induction false} PacketValid(a: Packet)
    requires |a.payload| < TWO31
    ensures AllValid(PacketFields(a))
  {
  }

  lemma {:induction false} PacketSizeExact(a: Packet)
    ensures |EncodeAll(PacketFields(a))| == PacketSize(a)
  {
    var two := NumberField(1, a.sequence) + NumberField(2, a.ack);
    var four := two + NumberField(3, a.ackBits) + NumberField(4, a.timestamp);
    EncodeConcat(NumberField(1, a.sequence), NumberField(2, a.ack));
    EncodeConcat(two, NumberField(3, a.ackBits));
    EncodeConcat(two + NumberField(3, a.ackBits), NumberField(4, a.timestamp));
    NumberSize(1, a.sequence);
    NumberSize(2, a.ack);
    NumberSize(3, a.ackBits);
    NumberSize(4, a.timestamp);
    if a.payload == [] {
      assert PacketFields(a) == four;
    } else {
      EncodeConcat(four, [Delimited(5, a.payload)]);
      DelimitedSize(5, a.payload);
    }
  }

  /** Parsing a written packet into another one merges it. */
  lemma {:induction false} PacketParsed(m: Packet, a: Packet)
    requires |a.payload| < TWO31
    ensures Parse(ApplyPacket, m, EncodeAll(PacketFields(a))) == Parsed(MergePacket(m, a), Done)
  {
    PacketValid(a);
    ParseEncoded(ApplyPacket, m, PacketFields(a));
    PacketApplied(m, a);
  }

  // ---- one message behind the other ----

  /** Serialised game objects one behind the other. */
  function Concatenated(objects: seq<GameObject>): seq<Byte>
  {
    if objects == [] then [] else EncodeAll(ObjectFields(objects[0])) + Concatenated(objects[1..])
  }

  function MergeObjects(m: GameObject, objects: seq<GameObject>): GameObject
    decreases objects
  {
    if objects == [] then m else MergeObjects(MergeObject(m, objects[0]), objects[1..])
  }

  /** Parsing any number of serialised objects one behind the other merges them in order. */
  lemma {:induction false} ConcatenatedParsed(m: GameObject, objects: seq<GameObject>)
    ensures Parse(ApplyObject, m, Concatenated(objects)) == Parsed(MergeObjects(m, objects), Done)
    decreases |objects|
  {
    if objects != [] {
      ObjectParsed(m, objects[0]);
      ParseConcat(ApplyObject, m, EncodeAll(ObjectFields(objects[0])), Concatenated(objects[1..]));
      ConcatenatedParsed(MergeObject(m, objects[0]), objects[1..]);
    }
  }

  function PacketsWritten(packets: seq<Packet>): seq<Byte>
  {
    if packets == [] then [] else EncodeAll(PacketFields(packets[0])) + PacketsWritten(packets[1..])
  }

  function MergePackets(m: Packet, packets: seq<Packet>): Packet
    decreases packets
  {
    if packets == [] then m else MergePackets(MergePacket(m, packets[0]), packets[1..])
  }

  /** The same for packets. */
  lemma {:induction false} PacketsParsed(m: Packet, packets: seq<Packet>)
    requires forall i :: 0 <= i < |packets| ==> |packets[i].payload| < TWO31
    ensures Parse(ApplyPacket, m, PacketsWritten(packets)) == Parsed(MergePackets(m, packets), Done)
    decreases |packets|
  {
    if packets != [] {
      PacketParsed(m, packets[0]);
      ParseConcat(ApplyPacket, m, EncodeAll(PacketFields(packets[0])), PacketsWritten(packets[1..]));
      PacketsParsed(MergePacket(m, packets[0]), packets[1..]);
    }
  }

  // ---- round trips ----

  const NO_OBJECT := GameObject(0, None)
  const NO_PACKET := Packet(0, 0, 0, 0, [])

  predicate HasNegativeZero(v: Vector)
  {
    v.x == NEGATIVE_ZERO || v.y == NEGATIVE_ZERO || v.z == NEGATIVE_ZERO
  }

  /** An object comes back from its bytes exactly when no coordinate is a negative zero, which is lost. */
  lemma {:induction false} ObjectRoundTrip(a: GameObject)
    ensures Parse(ApplyObject, NO_OBJECT, EncodeAll(ObjectFields(a))) == Parsed(a, Done) <==>
            (a.position.Some? ==> !HasNegativeZero(a.position.value))
  {
    ObjectParsed(NO_OBJECT, a);
  }

  /** A packet always comes back. */
  lemma {:induction false} PacketRoundTrip(a: Packet)
    requires |a.payload| < TWO31
    ensures Parse(ApplyPacket, NO_PACKET, EncodeAll(PacketFields(a))) == Parsed(a, Done)
  {
    PacketParsed(NO_PACKET, a);
  }

  // ---- sizes ----

  function FloatFieldSize(w: Word): nat
  {
    if IsZero(w) then 0 else 1 + 4
  }

  function NumberFieldSize(v: Int64): nat
  {
    if v == 0 then 0 else 1 + SignedSize(v)
  }

  function LengthDelimitedSize(n: nat): nat
  {
    n + VarintSize(n)
  }

  function VectorSize(m: Vector): nat
  {
    FloatFieldSize(m.x) + FloatFieldSize(m.y) + FloatFieldSize(m.z)
  }

  function ObjectSize(m: GameObject): nat
  {
    (if m.position.Some? then 1 + LengthDelimitedSize(VectorSize(m.position.value)) else 0) + NumberFieldSize(m.goid)
  }

  function PacketSize(m: Packet): nat
  {
    (if |m.payload| > 0 then 1 + LengthDelimitedSize(|m.payload|) else 0)
    + NumberFieldSize(m.sequence) + NumberFieldSize(m.ack) + NumberFieldSize(m.timestamp) + NumberFieldSize(m.ackBits)
  }

  lemma {:induction false} EncodeConcat(a: seq<Field>, b: seq<Field>)
    ensures EncodeAll(a + b) == EncodeAll(a) + EncodeAll(b)
  {
    if a == [] {
      assert a + b == b;
    } else {
      assert (a + b)[1..] == a[1..] + b;
      EncodeConcat(a[1..], b);
    }
  }

  lemma {:induction false} EncodeOne(f: Field)
    ensures EncodeAll([f]) == Encode(f)
  {
    assert [f][1..] == [];
  }

  lemma {:induction false} FloatSize(number: nat, w: Word)
    requires 0 < number < 16
    ensures |EncodeAll(FloatField(number, w))| == FloatFieldSize(w)
  {
    EncodeOne(Float(number, w));
  }

  lemma {:induction false} NumberSize(number: nat, v: Int64)
    requires 0 < number < 16
    ensures |EncodeAll(NumberField(number, v))| == NumberFieldSize(v)
  {
    EncodeOne(Number(number, Extended(v)));
    SignedSizeExact(v);
  }

  lemma {:induction false} DelimitedSize(number: nat, bytes: seq<Byte>)
    requires 0 < number < 16
    ensures |EncodeAll([Delimited(number, bytes)])| == 1 + LengthDelimitedSize(|bytes|)
  {
    EncodeOne(Delimited(number, bytes));
    VarintSizeExact(|bytes|);
  }
}
