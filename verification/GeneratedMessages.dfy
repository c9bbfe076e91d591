/**
 The message classes themselves: parsing and merging write the fields of the object in place.
 */
module GeneratedMessages {
  import opened Bits
  import opened Options
  import opened Wire
  import opened Messages

  /** A tag that is no field of the message: malformed, or an unknown field to be kept. */
  function Unusual(tag: nat, s: seq<Byte>): Status
  {
    if tag == 0 || tag % 8 == 4 || tag / 8 == 0 then Malformed
    else if Content(tag / 8, tag % 8, s).Broken? then Malformed
    else Unknown
  }

  /** The length of a delimited field at the front of s, and of the size before it. */
  function ReadSize(s: seq<Byte>): (r: Option<(nat, nat)>)
    ensures r.Some? ==> r.value.1 + r.value.0 <= |s|
  {
    match ReadVarint(s, 5)
    case Some((size, n)) => if size >= TWO31 || |s| < n + size then None else Some((size, n))
    case None => None
  }

  lemma {:induction false} DelimitedAt(number: nat, s: seq<Byte>, i: nat)
    requires number > 0 && i <= |s|
    ensures var size := ReadSize(s[i..]);
      Content(number, 2, s[i..]) ==
      if size.None? then Broken
      else
        var from := i + size.value.1;
        Got(Delimited(number, s[from..from + size.value.0]), size.value.1 + size.value.0)
  {
    var size := ReadSize(s[i..]);
    if size.Some? {
      var from := i + size.value.1;
      SliceOfRest(s, i, size.value.1, size.value.1 + size.value.0);
    }
  }

  lemma {:induction false} SliceOfRest(s: seq<Byte>, i: nat, a: nat, b: nat)
    requires i <= |s| && a <= b <= |s| - i
    ensures s[i..][a..b] == s[i + a..i + b]
  {
  }

  lemma {:induction false} FloatAt(number: nat, s: seq<Byte>, i: nat)
    requires number > 0 && i <= |s|
    ensures Content(number, 5, s[i..]) == if |s| - i < 4 then Broken else Got(Float(number, Load(s[i..i + 4])), 4)
  {
    if |s| - i >= 4 {
      assert s[i..][..4] == s[i..i + 4];
    }
  }

  class PBVector3 {
    var x: Word
    var y: Word
    var z: Word

    ghost function Value(): Vector
      reads this
    {
      Vector(x, y, z)
    }

    constructor ()
      ensures Value() == ORIGIN
    {
      x, y, z := 0, 0, 0;
    }

    method InternalParse(s: seq<Byte>) returns (status: Status)
      modifies this
      ensures Parsed(Value(), status) == Parse(ApplyVector, old(Value()), s)
    {
      var i := 0;
      status := Done;
      assert s[0..] == s;
      while i < |s| && status == Done
        invariant 0 <= i <= |s|
        invariant Reached(ApplyVector, Parsed(Value(), status), s, i, Parse(ApplyVector, old(Value()), s))
        decreases |s| - i, status == Done
      {
        ghost var m, at := Value(), i;
        status, i := ParseField(s, i);
        ReachedNext(ApplyVector, m, s, at, Parse(ApplyVector, old(Value()), s), Parsed(Value(), status), i);
      }
    }

    /** One round of the parse loop. */
    method ParseField(s: seq<Byte>, at: nat) returns (status: Status, i: nat)
      requires at < |s|
      modifies this
      ensures at <= i <= |s|
      ensures Parsed(Value(), status) == Round(ApplyVector, old(Value()), NextField(s[at..]))
      ensures status == Done ==> NextField(s[at..]).Got? && i == at + NextField(s[at..]).length
    {
      NextAt(s, at);
      var read := ReadVarint(s[at..], 5);
      if read.None? {
        return Malformed, at;
      }
      var tag := read.value.0 % TWO32;
      i := at + read.value.1;
      if tag == 13 || tag == 21 || tag == 29 {
        FloatAt(tag / 8, s, i);
        if |s| - i < 4 {
          return Malformed, i;
        }
        SetFloat(tag, Load(s[i..i + 4]));
        return Done, i + 4;
      }
      return Unusual(tag, s[i..]), i;
    }

    method SetFloat(tag: nat, w: Word)
      requires tag == 13 || tag == 21 || tag == 29
      modifies this
      ensures Parsed(Value(), Done) == ApplyVector(old(Value()), Float(tag / 8, w))
    {
      if tag == 13 {
        x := w;
      } else if tag == 21 {
        y := w;
      } else {
        z := w;
      }
    }

    method InternalSerialize() returns (target: seq<Byte>)
      ensures target == EncodeAll(VectorFields(Value()))
    {
      target := PutFloat([], [], 1, x);
      target := PutFloat(target, FloatField(1, x), 2, y);
      target := PutFloat(target, FloatField(1, x) + FloatField(2, y), 3, z);
    }

    method ByteSizeLong() returns (size: nat)
      ensures size == |EncodeAll(VectorFields(Value()))|
    {
      size := 0;
      if !IsZero(x) {
        size := size + 1 + 4;
      }
      if !IsZero(y) {
        size := size + 1 + 4;
      }
      if !IsZero(z) {
        size := size + 1 + 4;
      }
      VectorValid(Value());
    }

    method MergeFrom(from: PBVector3)
      requires from != this
      modifies this
      ensures Value() == MergeVector(old(Value()), from.Value())
    {
      if !IsZero(from.x) {
        x := from.x;
      }
      if !IsZero(from.y) {
        y := from.y;
      }
      if !IsZero(from.z) {
        z := from.z;
      }
    }
  }

  function WriteFloat(number: nat, w: Word): seq<Byte>
  {
    Varint(8 * number + 5) + Fixed(w)
  }

  lemma {:induction false} FloatWritten(number: nat, w: Word)
    ensures EncodeAll(FloatField(number, w)) == if IsZero(w) then [] else WriteFloat(number, w)
  {
    EncodeOne(Float(number, w));
  }

  /** Writes a float field behind others, unless it is zero. */
  method PutFloat(target: seq<Byte>, ghost fields: seq<Field>, number: nat, w: Word) returns (written: seq<Byte>)
    requires target == EncodeAll(fields)
    ensures written == EncodeAll(fields + FloatField(number, w))
    ensures fields == [] ==> written == EncodeAll(FloatField(number, w))
  {
    EncodeConcat(fields, FloatField(number, w));
    FloatWritten(number, w);
    written := target;
    if !IsZero(w) {
      written := written + WriteFloat(number, w);
    }
    assert fields == [] ==> fields + FloatField(number, w) == FloatField(number, w);
  }

  function WriteNumber(number: nat, v: Int64): seq<Byte>
  {
    Varint(8 * number) + Varint(Extended(v))
  }

  lemma {:induction false} NumberWritten(number: nat, v: Int64)
    ensures EncodeAll(NumberField(number, v)) == if v == 0 then [] else WriteNumber(number, v)
  {
    EncodeOne(Number(number, Extended(v)));
  }

  /** Writes a number field behind others, unless it is zero. */
  method PutNumber(target: seq<Byte>, ghost fields: seq<Field>, number: nat, v: Int64) returns (written: seq<Byte>)
    requires target == EncodeAll(fields)
    ensures written == EncodeAll(fields + NumberField(number, v))
    ensures fields == [] ==> written == EncodeAll(NumberField(number, v))
  {
    EncodeConcat(fields, NumberField(number, v));
    NumberWritten(number, v);
    written := target;
    if v != 0 {
      written := written + WriteNumber(number, v);
    }
    assert fields == [] ==> fields + NumberField(number, v) == NumberField(number, v);
  }

  function WriteBytes(number: nat, bytes: seq<Byte>): seq<Byte>
  {
    Varint(8 * number + 2) + (Varint(|bytes|) + bytes)
  }

  lemma {:induction false} BytesWritten(number: nat, bytes: seq<Byte>)
    ensures EncodeAll([Delimited(number, bytes)]) == WriteBytes(number, bytes)
  {
    EncodeOne(Delimited(number, bytes));
  }

  class PBGameObject {
    var goid: Int32
    var position: PBVector3?

    ghost function Value(): GameObject
      reads this, position
    {
      GameObject(goid, if position == null then None else Some(position.Value()))
    }

    constructor ()
      ensures Value() == NO_OBJECT && position == null
    {
      goid, position := 0, null;
    }

    /** The position, made when there is none. */
    method MutablePosition() returns (p: PBVector3)
      modifies this`position
      ensures p == position && p.Value() == Mutable(old(Value()).position) && goid == old(goid)
      ensures if old(position) == null then fresh(p) else p == old(position)
    {
      if position == null {
        position := new PBVector3();
      }
      p := position;
    }

    method InternalParse(s: seq<Byte>) returns (status: Status)
      modifies this, position
      ensures Parsed(Value(), status) == Parse(ApplyObject, old(Value()), s)
      ensures position == old(position) || fresh(position)
    {
      var i := 0;
      status := Done;
      assert s[0..] == s;
      while i < |s| && status == Done
        invariant 0 <= i <= |s|
        invariant position == old(position) || fresh(position)
        invariant Reached(ApplyObject, Parsed(Value(), status), s, i, Parse(ApplyObject, old(Value()), s))
        decreases |s| - i, status == Done
      {
        ghost var m, at := Value(), i;
        status, i := ParseField(s, i);
        ReachedNext(ApplyObject, m, s, at, Parse(ApplyObject, old(Value()), s), Parsed(Value(), status), i);
      }
    }

    /** One round of the parse loop. */
    method ParseField(s: seq<Byte>, at: nat) returns (status: Status, i: nat)
      requires at < |s|
      modifies this, position
      ensures at <= i <= |s|
      ensures position == old(position) || fresh(position)
      ensures Parsed(Value(), status) == Round(ApplyObject, old(Value()), NextField(s[at..]))
      ensures status == Done ==> NextField(s[at..]).Got? && i == at + NextField(s[at..]).length
    {
      NextAt(s, at);
      var read := ReadVarint(s[at..], 5);
      if read.None? {
        return Malformed, at;
      }
      var tag := read.value.0 % TWO32;
      i := at + read.value.1;
      if tag == 8 {
        status, i := ParseGoid(s, i);
        return status, i;
      } else if tag == 18 {
        status, i := ParsePosition(s, i);
        return status, i;
      }
      return Unusual(tag, s[i..]), i;
    }

    method ParseGoid(s: seq<Byte>, at: nat) returns (status: Status, i: nat)
      requires at <= |s|
      modifies this`goid
      ensures at <= i <= |s|
      ensures Parsed(Value(), status) == Round(ApplyObject, old(Value()), Content(1, 0, s[at..]))
      ensures status == Done ==> Content(1, 0, s[at..]).Got? && i == at + Content(1, 0, s[at..]).length
    {
      var number := ReadVarint(s[at..], 10);
      if number.None? {
        return Malformed, at;
      }
      goid := ToInt32(number.value.0 % TWO64);
      return Done, at + number.value.1;
    }

    /** ParseMessage(): the position is parsed into, as far as its length says. */
    method ParsePosition(s: seq<Byte>, at: nat) returns (status: Status, i: nat)
      requires at <= |s|
      modifies this, position
      ensures at <= i <= |s| && (position == old(position) || fresh(position))
      ensures Parsed(Value(), status) == Round(ApplyObject, old(Value()), Content(2, 2, s[at..]))
      ensures status == Done ==> Content(2, 2, s[at..]).Got? && i == at + Content(2, 2, s[at..]).length
    {
      DelimitedAt(2, s, at);
      var size := ReadSize(s[at..]);
      if size.None? {
        return Malformed, at;
      }
      var from := at + size.value.1;
      status := ParseInto(s[from..from + size.value.0]);
      i := from + size.value.0;
    }

    /** The bytes of a position, parsed into the one that is there or into a new one. */
    method ParseInto(bytes: seq<Byte>) returns (status: Status)
      modifies this, position
      ensures position == old(position) || fresh(position)
      ensures Parsed(Value(), status) == ApplyObject(old(Value()), Delimited(2, bytes))
    {
      var p := MutablePosition();
      status := p.InternalParse(bytes);
    }

    method InternalSerialize() returns (target: seq<Byte>)
      ensures target == EncodeAll(ObjectFields(Value()))
    {
      target := PutNumber([], [], 1, goid);
      if position != null {
        var bytes := position.InternalSerialize();
        BytesWritten(2, bytes);
        EncodeConcat(NumberField(1, goid), [Delimited(2, bytes)]);
        target := target + WriteBytes(2, bytes);
      }
      assert position == null ==> ObjectFields(Value()) == NumberField(1, goid);
    }

    method ByteSizeLong() returns (size: nat)
      ensures size == |EncodeAll(ObjectFields(Value()))|
    {
      size := 0;
      if position != null {
        var length := position.ByteSizeLong();
        VectorValid(position.Value());
        size := size + 1 + LengthDelimitedSize(length);
      }
      if goid != 0 {
        size := size + 1 + SignedSize(goid);
      }
      ObjectSizeExact(Value());
    }

    method MergeFrom(from: PBGameObject)
      requires from != this && (position != null ==> position != from.position)
      modifies this, position
      ensures Value() == MergeObject(old(Value()), old(from.Value()))
      ensures position == old(position) || fresh(position)
    {
      if from.position != null {
        var p := MutablePosition();
        p.MergeFrom(from.position);
      }
      if from.goid != 0 {
        goid := from.goid;
      }
    }
  }

  class NetPacket {
    var sequence: Int32
    var ack: Int32
    var ackBits: Int32
    var timestamp: Int64
    var payload: seq<Byte>

    ghost function Value(): Packet
      reads this
    {
      Packet(sequence, ack, ackBits, timestamp, payload)
    }

    constructor ()
      ensures Value() == NO_PACKET
    {
      sequence, ack, ackBits, timestamp, payload := 0, 0, 0, 0, [];
    }

    method InternalParse(s: seq<Byte>) returns (status: Status)
      modifies this
      ensures Parsed(Value(), status) == Parse(ApplyPacket, old(Value()), s)
    {
      var i := 0;
      status := Done;
      assert s[0..] == s;
      while i < |s| && status == Done
        invariant 0 <= i <= |s|
        invariant Reached(ApplyPacket, Parsed(Value(), status), s, i, Parse(ApplyPacket, old(Value()), s))
        decreases |s| - i, status == Done
      {
        ghost var m, at := Value(), i;
        status, i := ParseField(s, i);
        ReachedNext(ApplyPacket, m, s, at, Parse(ApplyPacket, old(Value()), s), Parsed(Value(), status), i);
      }
    }

    /** One round of the parse loop. */
    method ParseField(s: seq<Byte>, at: nat) returns (status: Status, i: nat)
      requires at < |s|
      modifies this
      ensures at <= i <= |s|
      ensures Parsed(Value(), status) == Round(ApplyPacket, old(Value()), NextField(s[at..]))
      ensures status == Done ==> NextField(s[at..]).Got? && i == at + NextField(s[at..]).length
    {
      NextAt(s, at);
      var read := ReadVarint(s[at..], 5);
      if read.None? {
        return Malformed, at;
      }
      var tag := read.value.0 % TWO32;
      i := at + read.value.1;
      if tag == 8 || tag == 16 || tag == 24 || tag == 32 {
        status, i := ParseNumber(s, i, tag);
        return status, i;
      } else if tag == 42 {
        status, i := ParsePayload(s, i);
        return status, i;
      }
      return Unusual(tag, s[i..]), i;
    }

    method ParseNumber(s: seq<Byte>, at: nat, tag: nat) returns (status: Status, i: nat)
      requires at <= |s| && (tag == 8 || tag == 16 || tag == 24 || tag == 32)
      modifies this
      ensures at <= i <= |s|
      ensures Parsed(Value(), status) == Round(ApplyPacket, old(Value()), Content(tag / 8, 0, s[at..]))
      ensures status == Done ==> Content(tag / 8, 0, s[at..]).Got? && i == at + Content(tag / 8, 0, s[at..]).length
    {
      var number := ReadVarint(s[at..], 10);
      if number.None? {
        return Malformed, at;
      }
      SetNumber(tag, number.value.0 % TWO64);
      return Done, at + number.value.1;
    }

    method ParsePayload(s: seq<Byte>, at: nat) returns (status: Status, i: nat)
      requires at <= |s|
      modifies this
      ensures at <= i <= |s|
      ensures Parsed(Value(), status) == Round(ApplyPacket, old(Value()), Content(5, 2, s[at..]))
      ensures status == Done ==> Content(5, 2, s[at..]).Got? && i == at + Content(5, 2, s[at..]).length
    {
      DelimitedAt(5, s, at);
      var size := ReadSize(s[at..]);
      if size.None? {
        return Malformed, at;
      }
      var from := at + size.value.1;
      payload := s[from..from + size.value.0];
      return Done, from + size.value.0;
    }

    /** One of the number fields; int32 fields keep the low 32 bits. */
    method SetNumber(tag: nat, value: nat)
      requires tag == 8 || tag == 16 || tag == 24 || tag == 32
      modifies this
      ensures Parsed(Value(), Done) == ApplyPacket(old(Value()), Number(tag / 8, value))
    {
      if tag == 8 {
        sequence := ToInt32(value);
      } else if tag == 16 {
        ack := ToInt32(value);
      } else if tag == 24 {
        ackBits := ToInt32(value);
      } else {
        timestamp := ToInt64(value);
      }
    }

    method InternalSerialize() returns (target: seq<Byte>)
      ensures target == EncodeAll(PacketFields(Value()))
    {
      target := PutNumber([], [], 1, sequence);
      target := PutNumber(target, NumberField(1, sequence), 2, ack);
      ghost var fields := NumberField(1, sequence) + NumberField(2, ack);
      target := PutNumber(target, fields, 3, ackBits);
      fields := fields + NumberField(3, ackBits);
      target := PutNumber(target, fields, 4, timestamp);
      fields := fields + NumberField(4, timestamp);
      if |payload| > 0 {
        BytesWritten(5, payload);
        EncodeConcat(fields, [Delimited(5, payload)]);
        target := target + WriteBytes(5, payload);
      }
      assert PacketFields(Value()) == if payload == [] then fields else fields + [Delimited(5, payload)];
    }

    method ByteSizeLong() returns (size: nat)
      ensures size == |EncodeAll(PacketFields(Value()))|
    {
      size := 0;
      if |payload| > 0 {
        size := size + 1 + LengthDelimitedSize(|payload|);
      }
      if sequence != 0 {
        size := size + 1 + SignedSize(sequence);
      }
      if ack != 0 {
        size := size + 1 + SignedSize(ack);
      }
      if timestamp != 0 {
        size := size + 1 + SignedSize(timestamp);
      }
      if ackBits != 0 {
        size := size + 1 + SignedSize(ackBits);
      }
      PacketSizeExact(Value());
    }

    method MergeFrom(from: NetPacket)
      requires from != this
      modifies this
      ensures Value() == MergePacket(old(Value()), from.Value())
    {
      if |from.payload| > 0 {
        payload := from.payload;
      }
      if from.sequence != 0 {
        sequence := from.sequence;
      }
      if from.ack != 0 {
        ack := from.ack;
      }
      if from.timestamp != 0 {
        timestamp := from.timestamp;
      }
      if from.ackBits != 0 {
        ackBits := from.ackBits;
      }
    }
  }
}
