/**
 The lower half of the serialisation stream: SerializeBits and Checkpoint over a data packer and an
 optional journal packer.  A schedule is here a sequence of items, each a slot of some width (or a
 checkpoint) with the word that goes through it.
 */
module StreamItems {
  import opened Bits
  import opened BitPacking

  const MAGIC: Word := 0x12345678

  /** How many bits one call may transfer. */
  type BitCount = n: nat | 1 <= n <= 32 witness 1

  datatype Slot = Data(bits: BitCount) | Check
  {
    function Width(): BitCount
    {
      if Data? then bits else 32
    }

    /** The journal entry: 1 for a checkpoint, otherwise two more than the width; 0 is the end. */
    function Token(): nat
    {
      if Data? then 2 + bits else 1
    }
  }

  datatype Item = Item(slot: Slot, word: Word)
  {
    predicate Valid()
    {
      slot.Check? ==> word == MAGIC
    }

    function Payload(): seq<bool>
    {
      BitsOf(word, slot.Width())
    }
  }

  predicate ValidItems(items: seq<Item>)
  {
    forall i :: 0 <= i < |items| ==> items[i].Valid()
  }

  function Slots(items: seq<Item>): (ss: seq<Slot>)
    ensures |ss| == |items|
  {
    seq(|items|, i requires 0 <= i < |items| => items[i].slot)
  }

  /** What can come back: the low bits of each word. */
  function Words(items: seq<Item>): (ws: seq<nat>)
    ensures |ws| == |items|
  {
    seq(|items|, i requires 0 <= i < |items| => Low(items[i].word, items[i].slot.Width()))
  }

  /** All that a schedule puts into the data buffer. */
  function DataBits(items: seq<Item>): seq<bool>
  {
    if items == [] then [] else items[0].Payload() + DataBits(items[1..])
  }

  /** All that it puts into the journal. */
  function JournalBits(slots: seq<Slot>): (s: seq<bool>)
    ensures |s| == 6 * |slots|
  {
    if slots == [] then [] else BitsOf(slots[0].Token(), 6) + JournalBits(slots[1..])
  }

  lemma {:induction false} JournalSplit(a: seq<Slot>, b: seq<Slot>)
    ensures JournalBits(a + b) == JournalBits(a) + JournalBits(b)
  {
    if a == [] {
      assert a + b == b;
    } else {
      assert (a + b)[1..] == a[1..] + b;
      JournalSplit(a[1..], b);
    }
  }

  lemma {:induction false} DataSplit(a: seq<Item>, b: seq<Item>)
    ensures DataBits(a + b) == DataBits(a) + DataBits(b)
  {
    if a == [] {
      assert a + b == b;
    } else {
      assert (a + b)[1..] == a[1..] + b;
      DataSplit(a[1..], b);
    }
  }

  lemma {:induction false} TokenReadBack(slot: Slot)
    ensures ValueOf(BitsOf(slot.Token(), 6)) == slot.Token()
  {
    assert Pow2(6) == 64;
    BitsRoundTrip(slot.Token(), 6);
  }

  lemma {:induction false} WordReadBack(item: Item)
    requires item.Valid()
    ensures ValueOf(item.Payload()) == Low(item.word, item.slot.Width())
    ensures item.slot.Check? ==> ValueOf(item.Payload()) == MAGIC
  {
    ValueOfBitsOf(item.word, item.slot.Width());
    Pow2Values();
    if item.slot.Check? {
      LowIdentity(item.word, 32);
    }
  }

  // ---- reading ----

  /** A reader's buffers and cursors; without a journal the journal part is not used. */
  datatype Reader = Reader(data: seq<bool>, at: nat, hasJournal: bool, journal: seq<bool>, jat: nat)
  {
    /** The cursors are in range and the journal has room for the entries of some more calls. */
    predicate Ready(calls: nat)
    {
      at <= |data| && (hasJournal ==> jat + 6 * calls <= |journal|)
    }

    function NextToken(): nat
      requires Ready(1) && hasJournal
    {
      ValueOf(journal[jat..jat + 6])
    }

    function PastToken(): Reader
    {
      if hasJournal then this.(jat := jat + 6) else this
    }
  }

  datatype Step = Step(ok: bool, word: nat, after: Reader)

  /** One call in read mode.  A checkpoint consults the journal first, other data the room left in the buffer. */
  function ReadItem(r: Reader, slot: Slot): (s: Step)
    requires r.Ready(1)
    ensures s.after.data == r.data && s.after.journal == r.journal && s.after.hasJournal == r.hasJournal
    ensures s.after.at <= |r.data| && (r.hasJournal ==> s.after.jat <= r.jat + 6)
  {
    var w := slot.Width();
    if slot.Data? && |r.data| - r.at < w then Step(false, 0, r)
    else if r.hasJournal && r.NextToken() != slot.Token() then Step(false, 0, r.PastToken())
    else if |r.data| - r.at < w then Step(false, 0, r.PastToken())
    else
      var word := ValueOf(r.data[r.at..r.at + w]);
      Step(slot.Check? ==> word == MAGIC, word, r.PastToken().(at := r.at + w))
  }

  datatype Outcome = Outcome(words: seq<nat>, failed: bool, after: Reader)

  /** A schedule in read mode, up to the first call that returns false. */
  function ReadRun(r: Reader, slots: seq<Slot>): (o: Outcome)
    requires r.Ready(|slots|)
    ensures |o.words| <= |slots| && (!o.failed ==> |o.words| == |slots|)
    decreases |slots|
  {
    if slots == [] then Outcome([], false, r)
    else
      var s := ReadItem(r, slots[0]);
      if !s.ok then Outcome([], true, s.after)
      else
        var rest := ReadRun(s.after, slots[1..]);
        Outcome([s.word] + rest.words, rest.failed, rest.after)
  }

  /** A run that has failed stays as it is, whatever calls would have followed. */
  lemma {:induction false} RunStops(r: Reader, a: seq<Slot>, b: seq<Slot>)
    requires r.Ready(|a| + |b|) && ReadRun(r, a).failed
    ensures ReadRun(r, a + b) == ReadRun(r, a)
    decreases |a|
  {
    assert (a + b)[1..] == a[1..] + b;
    if ReadItem(r, a[0]).ok {
      RunStops(ReadItem(r, a[0]).after, a[1..], b);
    }
  }

  /** What is next in the reader's buffers is what the writer put there for these items. */
  ghost predicate InStep(r: Reader, items: seq<Item>)
  {
    && r.at <= |r.data| && DataBits(items) <= r.data[r.at..]
    && (r.hasJournal ==> r.jat <= |r.journal| && JournalBits(Slots(items)) <= r.journal[r.jat..])
  }

  function Advanced(r: Reader, items: seq<Item>): Reader
  {
    r.(at := r.at + |DataBits(items)|, jat := if r.hasJournal then r.jat + 6 * |items| else r.jat)
  }

  function PastItem(r: Reader, item: Item): Reader
  {
    r.PastToken().(at := r.at + item.slot.Width())
  }

  lemma {:induction false} PrefixParts<A>(a: seq<A>, b: seq<A>, s: seq<A>, at: nat)
    requires at <= |s| && a + b <= s[at..]
    ensures at + |a| <= |s| && s[at..at + |a|] == a && b <= s[at + |a|..] && a <= s[at..]
  {
    assert s[at..][..|a| + |b|] == a + b;
    assert s[at..at + |a|] == s[at..][..|a|] == (a + b)[..|a|];
    assert s[at + |a|..][..|b|] == s[at..][|a|..|a| + |b|] == (a + b)[|a|..];
  }

  /** In step, the next call finds its token and its bits, and stays in step. */
  lemma {:induction false} NextInStep(r: Reader, items: seq<Item>)
    requires ValidItems(items) && items != [] && InStep(r, items)
    ensures r.Ready(1) && r.at + items[0].slot.Width() <= |r.data|
    ensures r.data[r.at..r.at + items[0].slot.Width()] == items[0].Payload()
    ensures r.hasJournal ==> r.NextToken() == items[0].slot.Token()
    ensures InStep(PastItem(r, items[0]), items[1..])
    ensures Advanced(PastItem(r, items[0]), items[1..]) == Advanced(r, items)
  {
    PrefixParts(items[0].Payload(), DataBits(items[1..]), r.data, r.at);
    if r.hasJournal {
      assert Slots(items)[1..] == Slots(items[1..]);
      PrefixParts(BitsOf(items[0].slot.Token(), 6), JournalBits(Slots(items[1..])), r.journal, r.jat);
      TokenReadBack(items[0].slot);
    }
  }

  /** One call in step with the writer succeeds and yields the low bits of the word. */
  lemma {:induction false} ReadItemInStep(r: Reader, items: seq<Item>)
    requires ValidItems(items) && items != [] && InStep(r, items)
    ensures r.Ready(1)
    ensures ReadItem(r, items[0].slot) == Step(true, Words(items)[0], PastItem(r, items[0]))
  {
    NextInStep(r, items);
    WordReadBack(items[0]);
  }

  /** The run of a schedule from the run of its tail, once its first call is known to succeed. */
  lemma {:induction false} RunCons(r: Reader, items: seq<Item>)
    requires items != [] && r.Ready(1) && PastItem(r, items[0]).Ready(|items| - 1)
    requires ReadItem(r, items[0].slot) == Step(true, Words(items)[0], PastItem(r, items[0]))
    ensures r.Ready(|items|)
    ensures var rest := ReadRun(PastItem(r, items[0]), Slots(items[1..]));
      ReadRun(r, Slots(items)) == Outcome([Words(items)[0]] + rest.words, rest.failed, rest.after)
    ensures Words(items) == [Words(items)[0]] + Words(items[1..])
  {
    assert Slots(items)[1..] == Slots(items[1..]);
  }

  /**
   Round trip: a schedule read in step with the writer returns true at every call and recovers the
   low bits of every word, with or without a journal.
   */
  lemma {:induction false} ReadBack(r: Reader, items: seq<Item>)
    requires ValidItems(items) && InStep(r, items)
    ensures r.Ready(|items|)
    ensures ReadRun(r, Slots(items)) == Outcome(Words(items), false, Advanced(r, items))
    decreases |items|
  {
    if items != [] {
      ReadItemInStep(r, items);
      NextInStep(r, items);
      ReadBack(PastItem(r, items[0]), items[1..]);
      RunCons(r, items);
    }
  }

  /**
   Desynchronisation: with a journal, a reader that makes the calls of the writer and then one that
   the journal does not have next gets every earlier word, false at that call, and the data cursor
   where it was before it.
   */
  lemma {:induction false} Desync(r: Reader, items: seq<Item>, slots: seq<Slot>)
    requires ValidItems(items) && Slots(items) < slots
    requires InStep(r, items) && r.hasJournal && r.Ready(|slots|)
    requires Advanced(r, items).Ready(1) && Advanced(r, items).NextToken() != slots[|items|].Token()
    ensures ReadRun(r, slots).words == Words(items)
    ensures ReadRun(r, slots).failed
    ensures ReadRun(r, slots).after.at == r.at + |DataBits(items)|
    decreases |items|
  {
    if items == [] {
      assert !ReadItem(r, slots[0]).ok;
    } else {
      ReadItemInStep(r, items);
      NextInStep(r, items);
      assert slots[0] == Slots(items)[0];
      assert Slots(items[1..]) == Slots(items)[1..] < slots[1..];
      Desync(PastItem(r, items[0]), items[1..], slots[1..]);
      assert Words(items) == [Words(items)[0]] + Words(items[1..]);
    }
  }

  /**
   The journal of a writer that made the items `done` and `rest` has, after `done`, the token of the first of
   the rest.
   */
  lemma {:induction false} TokenAfter(r: Reader, done: seq<Item>, rest: seq<Item>)
    requires ValidItems(done) && ValidItems(rest) && rest != []
    requires r.hasJournal && InStep(r, done + rest)
    ensures Advanced(r, done).Ready(1) && Advanced(r, done).NextToken() == rest[0].slot.Token()
    decreases |done|
  {
    NextInStep(r, done + rest);
    if done == [] {
      assert done + rest == rest;
    } else {
      assert (done + rest)[1..] == done[1..] + rest;
      TokenAfter(PastItem(r, done[0]), done[1..], rest);
      assert Advanced(PastItem(r, done[0]), done[1..]) == Advanced(r, done);
    }
  }

  /** After all the writer's items the journal still has its zeroed rest, which is no token of any call. */
  lemma {:induction false} TokenAtEnd(r: Reader, items: seq<Item>)
    requires r.hasJournal && InStep(r, items) && Advanced(r, items).Ready(1)
    requires forall j :: r.jat + 6 * |items| <= j < |r.journal| ==> !r.journal[j]
    ensures Advanced(r, items).NextToken() == 0
  {
    var at := r.jat + 6 * |items|;
    forall k | 0 <= k < 6 ensures !Bit(0, k) {
      ZeroBit(k);
    }
    assert r.journal[at..at + 6] == BitsOf(0, 6);
    BitsRoundTrip(0, 6);
  }

  /**
   With a journal, a reader whose schedule first differs from the writer's at some call (another width,
   a checkpoint against data, or a call after the writer's last, with journal left) gets correct words
   for all earlier calls and false at that one, with the data cursor not moved by it.
   */
  lemma {:induction false} FirstDifference(r: Reader, done: seq<Item>, rest: seq<Item>, slots: seq<Slot>)
    requires ValidItems(done) && ValidItems(rest) && Slots(done) < slots
    requires InStep(r, done + rest) && r.hasJournal && r.Ready(|slots|)
    requires if rest == [] then forall j :: r.jat + 6 * |done| <= j < |r.journal| ==> !r.journal[j]
             else rest[0].slot != slots[|done|]
    ensures ReadRun(r, slots).words == Words(done)
    ensures ReadRun(r, slots).failed
    ensures ReadRun(r, slots).after.at == r.at + |DataBits(done)|
  {
    NotNext(r, done, rest, slots[|done|]);
    Desync(r, done, slots);
  }

  /** After the calls in common the journal has another token than the reader's next call. */
  lemma {:induction false} NotNext(r: Reader, done: seq<Item>, rest: seq<Item>, next: Slot)
    requires ValidItems(done) && ValidItems(rest)
    requires InStep(r, done + rest) && r.hasJournal && r.Ready(|done| + 1)
    requires if rest == [] then forall j :: r.jat + 6 * |done| <= j < |r.journal| ==> !r.journal[j]
             else rest[0].slot != next
    ensures InStep(r, done)
    ensures Advanced(r, done).Ready(1) && Advanced(r, done).NextToken() != next.Token()
  {
    PrefixInStep(r, done, rest);
    if rest == [] {
      TokenAtEnd(r, done);
    } else {
      TokenAfter(r, done, rest);
    }
  }

  lemma {:induction false} PrefixInStep(r: Reader, a: seq<Item>, b: seq<Item>)
    requires InStep(r, a + b)
    ensures InStep(r, a) && r.at + |DataBits(a)| <= |r.data|
  {
    DataSplit(a, b);
    PrefixParts(DataBits(a), DataBits(b), r.data, r.at);
    if r.hasJournal {
      assert Slots(a + b) == Slots(a) + Slots(b);
      JournalSplit(Slots(a), Slots(b));
      PrefixParts(JournalBits(Slots(a)), JournalBits(Slots(b)), r.journal, r.jat);
    }
  }

  // ---- writing ----

  /** One call in write mode.  A checkpoint without room still leaves its entry in the journal. */
  function WriteItem(v: Reader, item: Item): (s: Step)
    requires v.Ready(1)
    ensures |s.after.data| == |v.data| && |s.after.journal| == |v.journal| && s.after.hasJournal == v.hasJournal
    ensures s.after.at <= |v.data| && (v.hasJournal ==> s.after.jat <= v.jat + 6)
  {
    var w := item.slot.Width();
    if item.slot.Data? && |v.data| - v.at < w then Step(false, item.word, v)
    else
      var v1 :=
        if v.hasJournal then v.(journal := Spliced(v.journal, v.jat, BitsOf(item.slot.Token(), 6)), jat := v.jat + 6)
        else v;
      if |v.data| - v.at < w then Step(false, item.word, v1)
      else Step(true, item.word, v1.(data := Spliced(v.data, v.at, item.Payload()), at := v.at + w))
  }

  /** A schedule in write mode whose calls all have room. */
  function WriteRun(v: Reader, items: seq<Item>): Reader
    requires v.Ready(|items|) && ValidItems(items)
    decreases |items|
  {
    if items == [] then v else WriteRun(WriteItem(v, items[0]).after, items[1..])
  }

  predicate Fits(v: Reader, items: seq<Item>)
  {
    v.Ready(|items|) && v.at + |DataBits(items)| <= |v.data|
  }

  lemma {:induction false} SplicedTwice<A>(s: seq<A>, start: nat, a: seq<A>, b: seq<A>)
    requires start + |a| + |b| <= |s|
    ensures Spliced(Spliced(s, start, a), start + |a|, b) == Spliced(s, start, a + b)
  {
  }

  /** The buffers and cursors after some bits were appended to the one and some to the other. */
  function Appended(v: Reader, bits: seq<bool>, entries: seq<bool>): Reader
    requires v.at + |bits| <= |v.data| && (v.hasJournal ==> v.jat + |entries| <= |v.journal|)
  {
    var v1 := v.(data := Spliced(v.data, v.at, bits), at := v.at + |bits|);
    if v.hasJournal then v1.(journal := Spliced(v.journal, v.jat, entries), jat := v.jat + |entries|) else v1
  }

  lemma {:induction false} AppendedTwice(v: Reader, bits: seq<bool>, entries: seq<bool>, bits': seq<bool>,
          entries': seq<bool>)
    requires v.at + |bits + bits'| <= |v.data| && (v.hasJournal ==> v.jat + |entries + entries'| <= |v.journal|)
    ensures Appended(Appended(v, bits, entries), bits', entries') == Appended(v, bits + bits', entries + entries')
  {
    SplicedTwice(v.data, v.at, bits, bits');
    if v.hasJournal {
      SplicedTwice(v.journal, v.jat, entries, entries');
    }
  }

  lemma {:induction false} AppendedNothing(v: Reader)
    requires v.Ready(0)
    ensures Appended(v, [], []) == v
  {
    assert Spliced(v.data, v.at, []) == v.data;
    if v.hasJournal {
      assert Spliced(v.journal, v.jat, []) == v.journal;
    }
  }

  /** When a schedule fits, its first call succeeds and the rest still fits. */
  lemma {:induction false} WriteItemFits(v: Reader, items: seq<Item>)
    requires ValidItems(items) && Fits(v, items) && items != []
    ensures WriteItem(v, items[0]) ==
            Step(true, items[0].word, Appended(v, items[0].Payload(), BitsOf(items[0].slot.Token(), 6)))
    ensures Fits(WriteItem(v, items[0]).after, items[1..])
  {
  }

  /** Writing a schedule that fits succeeds at every call and appends its bits to both buffers. */
  lemma {:induction false} WriteRunBits(v: Reader, items: seq<Item>)
    requires ValidItems(items) && Fits(v, items)
    ensures WriteRun(v, items) == Appended(v, DataBits(items), JournalBits(Slots(items)))
    decreases |items|
  {
    if items == [] {
      AppendedNothing(v);
    } else {
      WriteItemFits(v, items);
      WriteRunBits(WriteItem(v, items[0]).after, items[1..]);
      assert Slots(items)[1..] == Slots(items[1..]);
      AppendedTwice(v, items[0].Payload(), BitsOf(items[0].slot.Token(), 6), DataBits(items[1..]),
                    JournalBits(Slots(items[1..])));
    }
  }

  /** A reader on the buffers that a writer produced, from their start. */
  function Rewound(v: Reader): Reader
  {
    v.(at := 0, jat := 0)
  }

  lemma {:induction false} WrittenInStep(v: Reader, items: seq<Item>)
    requires ValidItems(items) && Fits(v, items) && v.at == v.jat == 0
    ensures InStep(Rewound(WriteRun(v, items)), items)
    ensures |WriteRun(v, items).data| == |v.data|
    ensures |WriteRun(v, items).journal| >= if v.hasJournal then |v.journal| else 0
  {
    WriteRunBits(v, items);
    var w := WriteRun(v, items);
    assert w.data[0..] == DataBits(items) + v.data[|DataBits(items)|..];
    if v.hasJournal {
      assert w.journal[0..] == JournalBits(Slots(items)) + v.journal[6 * |items|..];
    }
  }

  /**
   Any schedule that fits its buffers, written from their start and then read from their start, gives
   back the low bits of every word, and reports success throughout.
   */
  lemma {:induction false} RoundTrip(v: Reader, items: seq<Item>)
    requires ValidItems(items) && Fits(v, items) && v.at == v.jat == 0
    ensures Rewound(WriteRun(v, items)).Ready(|items|)
    ensures ReadRun(Rewound(WriteRun(v, items)), Slots(items)).words == Words(items)
    ensures !ReadRun(Rewound(WriteRun(v, items)), Slots(items)).failed
  {
    WrittenInStep(v, items);
    ReadBack(Rewound(WriteRun(v, items)), items);
  }
}
