/**
 The wire format of Protocol Buffers as the generated code reads and writes it: varints, tags and
 fields, and the loop that applies the fields of a byte string to a message one after the other.
 */
module Wire {
  import opened Bits
  import opened Options

  const TWO31: nat := 0x8000_0000
  const TWO64: nat := 0x1_0000_0000_0000_0000

  // ---- varints ----

  /** Groups of seven bits, least significant first; all bytes but the last have the top bit set. */
  function Varint(n: nat): (s: seq<Byte>)
    ensures |s| > 0
  {
    if n < 128 then [n] else [128 + n % 128] + Varint(n / 128)
  }

  /** What groups of seven bits stand for, the first being the lowest. */
  function Groups(s: seq<Byte>): nat
  {
    if s == [] then 0 else s[0] % 128 + 128 * Groups(s[1..])
  }

  /** A varint has the value in its groups, no more of them than needed, and its top bits say where it ends. */
  lemma {:induction false} VarintIs(n: nat)
    ensures Groups(Varint(n)) == n
    ensures forall i :: 0 <= i < |Varint(n)| ==> (Varint(n)[i] >= 128 <==> i < |Varint(n)| - 1)
    ensures n > 0 ==> Varint(n)[|Varint(n)| - 1] > 0
    ensures Varint(300) == [0xAC, 0x02]
  {
    if n >= 128 {
      VarintIs(n / 128);
      assert Varint(n)[1..] == Varint(n / 128);
    } else {
      assert Varint(n)[1..] == [];
    }
  }

  /** The value and length of the varint at the front of s, if it ends within the given number of bytes. */
  function ReadVarint(s: seq<Byte>, limit: nat): (r: Option<(nat, nat)>)
    ensures r.Some? ==> 0 < r.value.1 <= |s| && r.value.1 <= limit
  {
    if s == [] || limit == 0 then None
    else if s[0] < 128 then Some((s[0], 1))
    else
      match ReadVarint(s[1..], limit - 1)
      case Some((high, n)) => Some((s[0] - 128 + 128 * high, n + 1))
      case None => None
  }

  lemma {:induction false} VarintBack(n: nat, rest: seq<Byte>, limit: nat)
    requires |Varint(n)| <= limit
    ensures ReadVarint(Varint(n) + rest, limit) == Some((n, |Varint(n)|))
  {
    if n >= 128 {
      VarintBack(n / 128, rest, limit - 1);
      assert (Varint(n) + rest)[1..] == Varint(n / 128) + rest;
    }
  }

  /**
   A varint is read if and only if one of its first bytes, up to the limit, has no top bit; it ends with the first
   of these, and its value is in the groups so far.
   */
  lemma {:induction false} VarintRead(s: seq<Byte>, limit: nat)
    ensures ReadVarint(s, limit).Some? <==> exists i :: 0 <= i < |s| && i < limit && s[i] < 128
    ensures ReadVarint(s, limit).Some? ==>
              var (value, n) := ReadVarint(s, limit).value;
              s[n - 1] < 128 && (forall i :: 0 <= i < n - 1 ==> s[i] >= 128) && value == Groups(s[..n])
    decreases |s|
  {
    if s != [] && limit > 0 {
      if s[0] < 128 {
        assert s[..1][1..] == [];
      } else {
        VarintRead(s[1..], limit - 1);
        if ReadVarint(s, limit).Some? {
          var n := ReadVarint(s, limit).value.1;
          assert s[..n][1..] == s[1..][..n - 1];
          assert forall i :: 0 < i < n - 1 ==> s[i] == s[1..][i - 1];
        }
        if i :| 0 <= i < |s| && i < limit && s[i] < 128 {
          assert s[1..][i - 1] < 128;
        }
      }
    }
  }

  /** Bytes after a varint do not change it. */
  lemma {:induction false} ReadVarintFront(s: seq<Byte>, rest: seq<Byte>, limit: nat)
    requires ReadVarint(s, limit).Some?
    ensures ReadVarint(s + rest, limit) == ReadVarint(s, limit)
  {
    if s[0] >= 128 {
      assert (s + rest)[1..] == s[1..] + rest;
      ReadVarintFront(s[1..], rest, limit - 1);
    }
  }

  function Pow128(k: nat): nat
  {
    if k == 0 then 1 else 128 * Pow128(k - 1)
  }

  lemma {:induction false} Pow128Values()
    ensures Pow128(5) == 0x8_0000_0000 && Pow128(9) == 0x8000_0000_0000_0000 && Pow128(10) == 128 * Pow128(9)
  {
    assert Pow128(1) == 128;
    assert Pow128(2) == 0x4000;
    assert Pow128(3) == 0x20_0000;
    assert Pow128(4) == 0x1000_0000;
    assert Pow128(6) == 0x400_0000_0000;
    assert Pow128(7) == 0x2_0000_0000_0000;
    assert Pow128(8) == 0x100_0000_0000_0000;
  }

  lemma {:induction false} VarintLength(n: nat, k: nat)
    requires k > 0
    ensures n < Pow128(k) <==> |Varint(n)| <= k
  {
    if k == 1 || n < 128 {
      assert Pow128(1) == 128;
      Pow128Grows(k);
    } else {
      VarintLength(n / 128, k - 1);
    }
  }

  lemma {:induction false} Pow128Grows(k: nat)
    requires k > 0
    ensures Pow128(k) >= 128
  {
    if k > 1 {
      Pow128Grows(k - 1);
    }
  }

  function Log2(n: nat): nat
    requires n > 0
  {
    if n == 1 then 0 else 1 + Log2(n / 2)
  }

  /** The size of a varint, from the position of its highest bit. */
  function VarintSize(n: nat): nat
  {
    1 + Log2(if n == 0 then 1 else n) / 7
  }

  lemma {:induction false} VarintSizeExact(n: nat)
    ensures VarintSize(n) == |Varint(n)|
  {
    if n < 128 {
      if n > 0 {
        Log2Small(n, 7);
      }
    } else {
      VarintSizeExact(n / 128);
      Log2Shift(n);
    }
  }

  lemma {:induction false} Log2Small(n: nat, k: nat)
    requires 0 < n < Pow2(k)
    ensures Log2(n) < k
  {
    if n > 1 {
      Log2Small(n / 2, k - 1);
    }
  }

  lemma {:induction false} Log2Shift(n: nat)
    requires n >= 128
    ensures Log2(n) == 7 + Log2(n / 128)
  {
    var a := n / 2;
    var b := a / 2;
    var c := b / 2;
    var d := c / 2;
    var e := d / 2;
    var f := e / 2;
    assert f / 2 == n / 128;
    assert Log2(n) == 1 + Log2(a) && Log2(a) == 1 + Log2(b) && Log2(b) == 1 + Log2(c);
    assert Log2(c) == 1 + Log2(d) && Log2(d) == 1 + Log2(e) && Log2(e) == 1 + Log2(f);
  }

  // ---- signed integers ----

  type Int32 = v: int | -0x8000_0000 <= v < 0x8000_0000
  type Int64 = v: int | -0x8000_0000_0000_0000 <= v < 0x8000_0000_0000_0000

  /** Negative values are extended to 64 bits. */
  function Extended(v: Int64): (n: nat)
    ensures n < TWO64
  {
    if v < 0 then v + TWO64 else v
  }

  /** The conversions of an unsigned 64-bit value to int32 and int64. */
  function ToInt32(n: nat): Int32
  {
    var low := n % TWO32;
    if low >= TWO31 then low - TWO32 else low
  }

  function ToInt64(n: nat): Int64
  {
    var low := n % TWO64;
    if low >= 0x8000_0000_0000_0000 then low - TWO64 else low
  }

  lemma {:induction false} ExtendedBack(v: Int64)
    ensures ToInt64(Extended(v)) == v
    ensures -0x8000_0000 <= v < 0x8000_0000 ==> ToInt32(Extended(v)) == v
  {
  }

  /** Int32Size() and Int64Size(): ten bytes for a negative value. */
  function SignedSize(v: Int64): nat
  {
    if v < 0 then 10 else VarintSize(v)
  }

  lemma {:induction false} SignedSizeExact(v: Int64)
    ensures SignedSize(v) == |Varint(Extended(v))| <= 10
  {
    Pow128Values();
    VarintSizeExact(Extended(v));
    VarintLength(Extended(v), 9);
    VarintLength(Extended(v), 10);
  }

  // ---- floats ----

  /** The four bytes of a float's bit pattern. */
  function Fixed(w: Word): (s: seq<Byte>)
    ensures |s| == 4
  {
    [w % 256, w / 256 % 256, w / 0x1_0000 % 256, w / 0x100_0000]
  }

  function Load(s: seq<Byte>): Word
    requires |s| == 4
  {
    var a: nat, b: nat, c: nat, d: nat := s[0], s[1], s[2], s[3];
    a + 256 * b + 0x1_0000 * c + 0x100_0000 * d
  }

  lemma {:induction false} FixedBack(w: Word)
    ensures Load(Fixed(w)) == w
    ensures var a: nat, b: nat, c: nat, d: nat := Fixed(w)[0], Fixed(w)[1], Fixed(w)[2], Fixed(w)[3];
      w == a + 0x100 * b + 0x1_0000 * c + 0x100_0000 * d
  {
    var a, b := w / 256, w / 0x1_0000;
    assert a / 256 == b && b / 256 == w / 0x100_0000;
    assert w == w % 256 + 256 * a && a == a % 256 + 256 * b && b == b % 256 + 256 * (b / 256);
  }

  // ---- fields ----

  datatype Field =
    | Number(number: nat, value: nat)           // wire type 0
    | Delimited(number: nat, bytes: seq<Byte>)  // wire type 2
    | Float(number: nat, word: Word)            // wire type 5

  ghost predicate ValidField(f: Field)
  {
    && 0 < f.number < 0x2000_0000
    && (f.Number? ==> f.value < TWO64)
    && (f.Delimited? ==> |f.bytes| < TWO31)
  }

  ghost predicate AllValid(fields: seq<Field>)
  {
    forall i :: 0 <= i < |fields| ==> ValidField(fields[i])
  }

  function Tag(f: Field): nat
  {
    8 * f.number + WireType(f)
  }

  function WireType(f: Field): nat
  {
    match f
    case Number(_, _) => 0
    case Delimited(_, _) => 2
    case Float(_, _) => 5
  }

  lemma {:induction false} TagParts(f: Field)
    requires ValidField(f)
    ensures Tag(f) / 8 == f.number && Tag(f) % 8 == WireType(f) && Tag(f) < TWO32 && |Varint(Tag(f))| <= 5
  {
    Pow128Values();
    VarintLength(Tag(f), 5);
  }

  function Encode(f: Field): (s: seq<Byte>)
    ensures |s| > 0
  {
    Varint(Tag(f)) + Body(f)
  }

  function Body(f: Field): seq<Byte>
  {
    match f
    case Number(_, value) => Varint(value)
    case Delimited(_, bytes) => Varint(|bytes|) + bytes
    case Float(_, word) => Fixed(word)
  }

  function EncodeAll(fields: seq<Field>): seq<Byte>
  {
    if fields == [] then [] else Encode(fields[0]) + EncodeAll(fields[1..])
  }

  /** What stands at the front of a byte string; other wire types are not part of this model. */
  datatype Next = Got(field: Field, length: nat) | Broken | Other

  function Content(number: nat, wireType: nat, s: seq<Byte>): (r: Next)
    requires number > 0
    ensures r.Got? ==> r.length <= |s|
  {
    match wireType
    case 0 => (
      match ReadVarint(s, 10)
      case Some((value, n)) => Got(Number(number, value % TWO64), n)
      case None => Broken)
    case 2 => (
      match ReadVarint(s, 5)
      case Some((size, n)) =>
        if size >= TWO31 || |s| < n + size then Broken else Got(Delimited(number, s[n..n + size]), n + size)
      case None => Broken)
    case 4 => Broken
    case 5 => if |s| < 4 then Broken else Got(Float(number, Load(s[..4])), 4)
    case _ => Other
  }

  function Behind(n: nat, next: Next): Next
  {
    if next.Got? then Got(next.field, n + next.length) else next
  }

  function NextField(s: seq<Byte>): (r: Next)
    ensures r.Got? ==> 0 < r.length <= |s|
  {
    match ReadVarint(s, 5)
    case Some((t, n)) =>
      var tag := t % TWO32;
      if tag / 8 == 0 then
        // tag zero, an end of group, or a field number that is none
        Broken
      else Behind(n, Content(tag / 8, tag % 8, s[n..]))
    case None => Broken
  }

  /** A field written is the field read. */
  lemma {:induction false} NextBack(f: Field)
    requires ValidField(f)
    ensures NextField(Encode(f)) == Got(f, |Encode(f)|)
  {
    TagParts(f);
    VarintBack(Tag(f), Body(f), 5);
    assert Encode(f)[|Varint(Tag(f))|..] == Body(f);
    ContentBack(f);
  }

  lemma {:induction false} ContentBack(f: Field)
    requires ValidField(f)
    ensures Content(f.number, WireType(f), Body(f)) == Got(f, |Body(f)|)
  {
    match f {
      case Number(number, value) => NumberBack(number, value);
      case Delimited(number, bytes) => DelimitedBack(number, bytes);
      case Float(number, word) => FloatBack(number, word);
    }
  }

  lemma {:induction false} NumberBack(number: nat, value: nat)
    requires number > 0 && value < TWO64
    ensures Content(number, 0, Varint(value)) == Got(Number(number, value), |Varint(value)|)
  {
    Pow128Values();
    VarintLength(value, 10);
    VarintBack(value, [], 10);
    assert Varint(value) + [] == Varint(value);
  }

  lemma {:induction false} FloatBack(number: nat, word: Word)
    requires number > 0
    ensures Content(number, 5, Fixed(word)) == Got(Float(number, word), 4)
  {
    FixedBack(word);
    assert Fixed(word)[..4] == Fixed(word);
  }

  lemma {:induction false} DelimitedBack(number: nat, bytes: seq<Byte>)
    requires number > 0 && |bytes| < TWO31
    ensures Content(number, 2, Varint(|bytes|) + bytes) == Got(Delimited(number, bytes), |Varint(|bytes|) + bytes|)
  {
    Pow128Values();
    VarintLength(|bytes|, 5);
    VarintBack(|bytes|, bytes, 5);
    var content, n := Varint(|bytes|) + bytes, |Varint(|bytes|)|;
    assert content[n..n + |bytes|] == bytes;
  }

  /** Bytes after a field do not change it. */
  lemma {:induction false} NextFieldFront(s: seq<Byte>, rest: seq<Byte>)
    requires NextField(s).Got?
    ensures NextField(s + rest) == NextField(s)
  {
    ReadVarintFront(s, rest, 5);
    var (t, n) := ReadVarint(s, 5).value;
    assert (s + rest)[n..] == s[n..] + rest;
    ContentFront(t % TWO32 / 8, t % TWO32 % 8, s[n..], rest);
  }

  lemma {:induction false} ContentFront(number: nat, wireType: nat, s: seq<Byte>, rest: seq<Byte>)
    requires number > 0 && Content(number, wireType, s).Got?
    ensures Content(number, wireType, s + rest) == Content(number, wireType, s)
  {
    if wireType == 0 {
      ReadVarintFront(s, rest, 10);
    } else if wireType == 2 {
      ReadVarintFront(s, rest, 5);
      var (size, n) := ReadVarint(s, 5).value;
      assert (s + rest)[n..n + size] == s[n..n + size];
    } else if wireType == 5 {
      assert (s + rest)[..4] == s[..4];
    }
  }

  // ---- messages ----

  /** How far parsing came: to the end, to malformed input, or to a field the message does not know. */
  datatype Status = Done | Malformed | Unknown

  datatype Parsed<M> = Parsed(message: M, status: Status)

  function Parse<M>(apply: (M, Field) -> Parsed<M>, m: M, s: seq<Byte>): Parsed<M>
    decreases |s|
  {
    if s == [] then Parsed(m, Done)
    else
      match NextField(s)
      case Got(field, length) =>
        var applied := apply(m, field);
        if applied.status.Done? then Parse(apply, applied.message, s[length..]) else applied
      case Broken => Parsed(m, Malformed)
      case Other => Parsed(m, Unknown)
  }

  /** The field at position i: its tag, then what follows. */
  lemma {:induction false} NextAt(s: seq<Byte>, i: nat)
    requires i < |s|
    ensures var read := ReadVarint(s[i..], 5);
      NextField(s[i..]) ==
      if read.None? || read.value.0 % TWO32 / 8 == 0 then Broken
      else
        var tag := read.value.0 % TWO32;
        Behind(read.value.1, Content(tag / 8, tag % 8, s[i + read.value.1..]))
  {
    var read := ReadVarint(s[i..], 5);
    if read.Some? {
      assert s[i..][read.value.1..] == s[i + read.value.1..];
    }
  }

  /** One round of the parse loop. */
  function Round<M>(apply: (M, Field) -> Parsed<M>, m: M, next: Next): Parsed<M>
  {
    match next
    case Got(field, _) => apply(m, field)
    case Broken => Parsed(m, Malformed)
    case Other => Parsed(m, Unknown)
  }

  lemma {:induction false} ParseRound<M>(apply: (M, Field) -> Parsed<M>, m: M, s: seq<Byte>, i: nat)
    requires i < |s|
    ensures var next := NextField(s[i..]);
      var round := Round(apply, m, next);
      Parse(apply, m, s[i..]) ==
      if next.Got? && round.status.Done? then Parse(apply, round.message, s[i + next.length..]) else round
  {
    var next := NextField(s[i..]);
    if next.Got? {
      assert s[i..][next.length..] == s[i + next.length..];
    }
  }

  /** Where the parse loop stands: what it has come to, and what parsing will end in. */
  ghost predicate Reached<M>(apply: (M, Field) -> Parsed<M>, now: Parsed<M>, s: seq<Byte>, i: nat, result: Parsed<M>)
    requires i <= |s|
  {
    if now.status.Done? then Parse(apply, now.message, s[i..]) == result else now == result
  }

  lemma {:induction false} ReachedNext<M>(apply: (M, Field) -> Parsed<M>, m: M, s: seq<Byte>, i: nat,
          result: Parsed<M>, now: Parsed<M>, j: nat)
    requires i < |s| && j <= |s| && Reached(apply, Parsed(m, Done), s, i, result)
    requires now == Round(apply, m, NextField(s[i..]))
    requires now.status.Done? ==> NextField(s[i..]).Got? && j == i + NextField(s[i..]).length
    ensures Reached(apply, now, s, j, result) && (now.status.Done? ==> i < j)
  {
    ParseRound(apply, m, s, i);
  }

  /** Parsing two byte strings one behind the other is parsing one and then the other into the same message. */
  lemma {:induction false} ParseConcat<M>(apply: (M, Field) -> Parsed<M>, m: M, s: seq<Byte>, rest: seq<Byte>)
    requires Parse(apply, m, s).status.Done?
    ensures Parse(apply, m, s + rest) == Parse(apply, Parse(apply, m, s).message, rest)
    decreases |s|
  {
    if s == [] {
      assert s + rest == rest;
    } else {
      NextFieldFront(s, rest);
      var n := NextField(s).length;
      assert (s + rest)[n..] == s[n..] + rest;
      ParseConcat(apply, apply(m, NextField(s).field).message, s[n..], rest);
    }
  }

  function ApplyAll<M>(apply: (M, Field) -> Parsed<M>, m: M, fields: seq<Field>): Parsed<M>
  {
    if fields == [] then Parsed(m, Done)
    else
      var applied := apply(m, fields[0]);
      if applied.status.Done? then ApplyAll(apply, applied.message, fields[1..]) else applied
  }

  /** Parsing encoded fields applies them in order. */
  lemma {:induction false} ParseEncoded<M>(apply: (M, Field) -> Parsed<M>, m: M, fields: seq<Field>)
    requires AllValid(fields)
    ensures Parse(apply, m, EncodeAll(fields)) == ApplyAll(apply, m, fields)
    decreases |fields|
  {
    if fields != [] {
      NextBack(fields[0]);
      var first, rest := Encode(fields[0]), EncodeAll(fields[1..]);
      NextFieldFront(first, rest);
      assert (first + rest)[|first|..] == rest;
      var applied := apply(m, fields[0]);
      if applied.status.Done? {
        ParseEncoded(apply, applied.message, fields[1..]);
      }
    }
  }
}
