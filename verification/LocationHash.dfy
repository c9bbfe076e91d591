/**
 The URL hash of a slide: printing it from the indices, and parsing it again.
 */
module LocationHash {
  import opened Options

  function Digit(d: nat): char
    requires d < 10
  {
    "0123456789"[d]
  }

  predicate IsDigit(c: char)
  {
    '0' <= c <= '9'
  }

  function DigitValue(c: char): nat
    requires IsDigit(c)
  {
    (c as int) - ('0' as int)
  }

  lemma {:induction false} DigitBack(d: nat)
    requires d < 10
    ensures IsDigit(Digit(d)) && DigitValue(Digit(d)) == d
  {
  }

  function PrintNat(n: nat): (s: string)
    ensures s != []
  {
    if n < 10 then [Digit(n)] else PrintNat(n / 10) + [Digit(n % 10)]
  }

  function Print(n: int): (s: string)
    ensures s != []
  {
    if n < 0 then "-" + PrintNat(-n) else PrintNat(n)
  }

  predicate AllDigits(s: string)
  {
    forall i :: 0 <= i < |s| ==> IsDigit(s[i])
  }

  function ValueOf(s: string): nat
    requires AllDigits(s)
  {
    if s == [] then 0 else 10 * ValueOf(s[..|s| - 1]) + DigitValue(s[|s| - 1])
  }

  lemma {:induction false} PrintNatBack(n: nat)
    ensures AllDigits(PrintNat(n)) && ValueOf(PrintNat(n)) == n
  {
    DigitBack(n % 10);
    if n < 10 {
      assert PrintNat(n)[..0] == [];
    } else {
      PrintNatBack(n / 10);
      assert PrintNat(n)[..|PrintNat(n)| - 1] == PrintNat(n / 10);
    }
  }

  /** The longest prefix of digits. */
  function DigitPrefix(s: string): (r: string)
    ensures AllDigits(r)
  {
    if s == [] || !IsDigit(s[0]) then [] else [s[0]] + DigitPrefix(s[1..])
  }

  lemma {:induction false} DigitPrefixAll(s: string)
    requires AllDigits(s)
    ensures DigitPrefix(s) == s
  {
    if s != [] {
      DigitPrefixAll(s[1..]);
    }
  }

  /** parseInt( s, 10 ) for a string without leading space; nothing stands for NaN. */
  function ParseInt(s: string): Option<int>
  {
    var negative := s != [] && s[0] == '-';
    var digits := DigitPrefix(if negative || (s != [] && s[0] == '+') then s[1..] else s);
    var value: int := ValueOf(digits);
    if digits == [] then None else Some(if negative then -value else value)
  }

  lemma {:induction false} ParsePrinted(n: int)
    ensures ParseInt(Print(n)) == Some(n)
    ensures n >= 0 ==> AllDigits(Print(n))
    ensures '/' !in Print(n)
  {
    var m: nat := if n < 0 then -n else n;
    PrintNatBack(m);
    DigitPrefixAll(PrintNat(m));
    assert ("-" + PrintNat(m))[1..] == PrintNat(m);
    assert '/' !in PrintNat(m);
  }

  /** s.split( '/' ) */
  function Split(s: string): (parts: seq<string>)
    ensures |parts| > 0
  {
    if s == [] then [""]
    else
      var rest := Split(s[1..]);
      if s[0] == '/' then [""] + rest else [[s[0]] + rest[0]] + rest[1..]
  }

  lemma {:induction false} SplitOne(a: string)
    requires '/' !in a
    ensures Split(a) == [a]
  {
    if a != [] {
      SplitOne(a[1..]);
      assert [a[0]] + a[1..] == a;
    }
  }

  lemma {:induction false} SplitFirst(a: string, s: string)
    requires '/' !in a
    ensures Split(a + "/" + s) == [a] + Split(s)
  {
    if a == [] {
      assert (a + "/" + s)[1..] == s;
    } else {
      assert (a + "/" + s)[1..] == a[1..] + "/" + s && (a + "/" + s)[0] == a[0];
      SplitFirst(a[1..], s);
      assert [a[0]] + a[1..] == a;
    }
  }

  /** locationHash() for a slide without an id. */
  function Hash(h: nat, v: nat, f: Option<int>, oneBased: bool): string
  {
    var base := if oneBased then 1 else 0;
    "/"
    + (if h > 0 || v > 0 || f.Some? then Print(h + base) else "")
    + (if v > 0 || f.Some? then "/" + Print(v + base) else "")
    + (if f.Some? then "/" + Print(f.value) else "")
  }

  /** The hash of the first slide is a slash alone. */
  lemma {:induction false} HashNothing(oneBased: bool)
    ensures Hash(0, 0, None, oneBased) == "/"
  {
  }

  /** Else every index up to the last that is not zero follows a slash, counted from one or from zero. */
  lemma {:induction false} HashText(h: nat, v: nat, oneBased: bool)
    ensures var a, b := Print(if oneBased then h + 1 else h), Print(if oneBased then v + 1 else v);
      && (h > 0 && v == 0 ==> Hash(h, v, None, oneBased) == "/" + a)
      && (v > 0 ==> Hash(h, v, None, oneBased) == "/" + a + ("/" + b))
  {
  }

  /** A fragment follows both, as it is counted. */
  lemma {:induction false} HashFragment(h: nat, v: nat, f: int, oneBased: bool)
    ensures Hash(h, v, Some(f), oneBased) ==
            "/" + Print(if oneBased then h + 1 else h) + ("/" + Print(if oneBased then v + 1 else v)) + ("/" + Print(f))
  {
  }

  /** Numbers are printed in decimal digits, the last of which is the remainder by ten. */
  lemma {:induction false} PrintedDigits(n: nat)
    ensures n < 10 ==> Print(n) == ["0123456789"[n]]
    ensures n >= 10 ==> Print(n) == Print(n / 10) + ["0123456789"[n % 10]]
    ensures n > 0 ==> Print(0 - n) == "-" + Print(n)
  {
  }

  datatype Link = Named(name: string) | Indices(h: int, v: int, f: Option<int>)

  /** The letters of a hash without # and /. */
  function Name(hash: string): string
  {
    if hash == [] then []
    else (if hash[0] == '#' || hash[0] == '/' then [] else [hash[0]]) + Name(hash[1..])
  }

  function Part(bits: seq<string>, i: nat): Option<int>
  {
    if i < |bits| then ParseInt(bits[i]) else None
  }

  /** An index component: NaN and zero alike give zero. */
  function Component(part: Option<int>, base: int): int
  {
    match part
    case Some(n) => n - base
    case None => 0
  }

  /** How readURL() understands a hash. */
  function Read(hash: string, oneBased: bool, fragmentInURL: bool): Link
  {
    var bits := Split(if |hash| >= 2 then hash[2..] else []);
    if !AllDigits(bits[0]) && Name(hash) != [] then Named(Name(hash))
    else
      var base := if oneBased then 1 else 0;
      Indices(Component(Part(bits, 0), base), Component(Part(bits, 1), base),
              if fragmentInURL then Part(bits, 2) else None)
  }

  /** A hash that is no number names a slide. */
  lemma {:induction false} ReadName(name: string, oneBased: bool, fragmentInURL: bool)
    requires '/' !in name && '#' !in name && !AllDigits(name)
    ensures Read("#/" + name, oneBased, fragmentInURL) == Named(name)
  {
    var hash := "#/" + name;
    SplitOne(name);
    NameIs(name);
    assert hash[2..] == name && hash[1..] == "/" + name && hash[1..][1..] == name;
    assert Name(hash) == Name(hash[1..]) && Name(hash[1..]) == Name(name);
  }

  /** One of which nothing is left is the first slide. */
  lemma {:induction false} ReadNothing(oneBased: bool, fragmentInURL: bool)
    ensures Read("", oneBased, fragmentInURL) == Indices(0, 0, None)
    ensures Read("#/", oneBased, fragmentInURL) == Indices(0, 0, None)
  {
    assert "#/"[2..] == "";
  }

  lemma {:induction false} NameIs(name: string)
    requires '/' !in name && '#' !in name
    ensures Name(name) == name
  {
    if name != [] {
      NameIs(name[1..]);
    }
  }

  /** The parts of a printed hash; trailing zeros leave parts out. */
  function Parts(h: nat, v: nat, f: Option<int>, base: nat): seq<string>
  {
    if f.Some? then [Print(h + base), Print(v + base), Print(f.value)]
    else if v > 0 then [Print(h + base), Print(v + base)]
    else if h > 0 then [Print(h + base)]
    else [""]
  }

  function Join(parts: seq<string>): string
    requires |parts| > 0
  {
    if |parts| == 1 then parts[0] else parts[0] + "/" + Join(parts[1..])
  }

  lemma {:induction false} SplitJoin(parts: seq<string>)
    requires |parts| > 0 && forall i :: 0 <= i < |parts| ==> '/' !in parts[i]
    ensures Split(Join(parts)) == parts
  {
    if |parts| == 1 {
      SplitOne(parts[0]);
    } else {
      SplitFirst(parts[0], Join(parts[1..]));
      SplitJoin(parts[1..]);
    }
  }

  lemma {:induction false} HashJoins(h: nat, v: nat, f: Option<int>, oneBased: bool)
    ensures Hash(h, v, f, oneBased)[1..] == Join(Parts(h, v, f, if oneBased then 1 else 0))
  {
    var base := if oneBased then 1 else 0;
    if f.Some? {
      JoinThree(Print(h + base), Print(v + base), Print(f.value));
    } else if v > 0 {
      JoinTwo(Print(h + base), Print(v + base));
    }
  }

  lemma {:induction false} JoinTwo(a: string, b: string)
    ensures Join([a, b]) == a + ("/" + b)
  {
    assert [a, b][1..] == [b];
  }

  lemma {:induction false} JoinThree(a: string, b: string, c: string)
    ensures Join([a, b, c]) == a + ("/" + b) + ("/" + c)
  {
    assert [a, b, c][1..] == [b, c];
    JoinTwo(b, c);
  }

  lemma {:induction false} HashParts(h: nat, v: nat, f: Option<int>, oneBased: bool)
    ensures Split(Hash(h, v, f, oneBased)[1..]) == Parts(h, v, f, if oneBased then 1 else 0)
  {
    var base := if oneBased then 1 else 0;
    HashJoins(h, v, f, oneBased);
    ParsePrinted(h + base);
    ParsePrinted(v + base);
    ParsePrinted(if f.Some? then f.value else 0);
    SplitJoin(Parts(h, v, f, base));
  }

  lemma {:induction false} ReadParts(h: nat, v: nat, f: Option<int>, base: nat)
    requires base <= 1
    ensures var bits := Parts(h, v, f, base);
      && AllDigits(bits[0])
      && Component(Part(bits, 0), base) == h && Component(Part(bits, 1), base) == v && Part(bits, 2) == f
  {
    ParsePrinted(h + base);
    ParsePrinted(v + base);
    if f.Some? {
      ParsePrinted(f.value);
    }
  }

  /** Reading what was printed gives back the indices, for both numberings, with trailing zeros left out. */
  lemma {:induction false} HashRoundTrip(h: nat, v: nat, f: Option<int>, oneBased: bool, fragmentInURL: bool)
    requires f.Some? ==> fragmentInURL
    ensures Read("#" + Hash(h, v, f, oneBased), oneBased, fragmentInURL) == Indices(h, v, f)
  {
    var hash := "#" + Hash(h, v, f, oneBased);
    assert hash[2..] == Hash(h, v, f, oneBased)[1..];
    HashParts(h, v, f, oneBased);
    ReadParts(h, v, f, if oneBased then 1 else 0);
  }
}
