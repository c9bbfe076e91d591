/**
 Calls of the serialisation stream that return false, and programs that go on after them: what a failed
 call leaves behind, and that a reader gets the writer's answers call by call.
 */
module StreamFailures {
  import opened Bits
  import opened BitPacking
  import opened StreamItems
  import opened NetStream

  // ---- one call ----

  predicate HasRoom(r: Reader, slot: Slot)
  {
    slot.Width() <= |r.data| - r.at
  }

  /** A failed call in write mode changes nothing, unless it is a checkpoint and there is a journal. */
  lemma {:induction false} WriteFailure(v: Reader, item: Item)
    requires v.Ready(1) && !WriteItem(v, item).ok
    ensures WriteItem(v, item).after == v <==> item.slot.Data? || !v.hasJournal
    ensures WriteItem(v, item).after.data == v.data && WriteItem(v, item).after.at == v.at
  {
  }

  /**
   A failed call in read mode changes nothing exactly when its bits are not there and it is no checkpoint
   with a journal; its data cursor moves exactly when its bits are there and its journal entry is, too.
   */
  lemma {:induction false} ReadFailure(r: Reader, slot: Slot)
    requires r.Ready(1) && !ReadItem(r, slot).ok
    ensures ReadItem(r, slot).after == r <==> !HasRoom(r, slot) && (slot.Data? || !r.hasJournal)
    ensures ReadItem(r, slot).after.at == r.at
       <==> !HasRoom(r, slot) || (r.hasJournal && r.NextToken() != slot.Token())
  {
  }

  /** A call in write mode succeeds exactly when its bits fit, and then they stand at the old cursors. */
  lemma {:induction false} WriteSuccess(v: Reader, item: Item)
    requires v.Ready(1)
    ensures WriteItem(v, item).ok <==> HasRoom(v, item.slot)
    ensures WriteItem(v, item).ok ==>
              var u, w := WriteItem(v, item).after, item.slot.Width();
              && u.at == v.at + w && u.data == v.data[..v.at] + BitsOf(item.word, w) + v.data[v.at + w..]
              && (v.hasJournal ==>
                    && u.jat == v.jat + 6
                    && u.journal == v.journal[..v.jat] + BitsOf(item.slot.Token(), 6) + v.journal[v.jat + 6..])
              && (!v.hasJournal ==> u.journal == v.journal && u.jat == v.jat)
  {
  }

  /** One in read mode, when its bits are there, its journal entry is the next, and a checkpoint finds its number. */
  lemma {:induction false} ReadSuccess(r: Reader, slot: Slot)
    requires r.Ready(1)
    ensures ReadItem(r, slot).ok
       <==> && HasRoom(r, slot) && (r.hasJournal ==> r.NextToken() == slot.Token())
            && (slot.Check? ==> ValueOf(r.data[r.at..r.at + 32]) == 0x12345678)
    ensures ReadItem(r, slot).ok ==>
              var s, w := ReadItem(r, slot), slot.Width();
              s.word == ValueOf(r.data[r.at..r.at + w])
              && s.after == r.(at := r.at + w, jat := if r.hasJournal then r.jat + 6 else r.jat)
  {
  }

  // ---- programs that go on ----

  datatype Tried = Tried(oks: seq<bool>, after: Reader)

  /** A schedule in write mode, all its calls made. */
  function WriteOn(v: Reader, items: seq<Item>): (t: Tried)
    requires v.Ready(|items|)
    ensures |t.oks| == |items|
    decreases |items|
  {
    if items == [] then Tried([], v)
    else
      var s := WriteItem(v, items[0]);
      var rest := WriteOn(s.after, items[1..]);
      Tried([s.ok] + rest.oks, rest.after)
  }

  datatype Answer = Answer(ok: bool, word: nat)

  datatype Answers = Answers(list: seq<Answer>, after: Reader)

  /** A schedule in read mode, all its calls made; the word of a failed one is not used. */
  function ReadOn(r: Reader, slots: seq<Slot>): (a: Answers)
    requires r.Ready(|slots|)
    ensures |a.list| == |slots|
    decreases |slots|
  {
    if slots == [] then Answers([], r)
    else
      var s := ReadItem(r, slots[0]);
      var rest := ReadOn(s.after, slots[1..]);
      Answers([Answer(s.ok, if s.ok then s.word else 0)] + rest.list, rest.after)
  }

  /** The writer's answers, each with the low bits of its word. */
  function Expected(items: seq<Item>, oks: seq<bool>): (list: seq<Answer>)
    requires |oks| == |items|
    ensures |list| == |items|
  {
    seq(|items|, i requires 0 <= i < |items| => Answer(oks[i], if oks[i] then Words(items)[i] else 0))
  }

  lemma {:induction false} ExpectedCons(items: seq<Item>, oks: seq<bool>)
    requires |oks| == |items| && items != []
    ensures Expected(items, oks) ==
            [Answer(oks[0], if oks[0] then Words(items)[0] else 0)] + Expected(items[1..], oks[1..])
  {
  }

  /** A later state of a writer, which has what the earlier one had up to its cursors. */
  ghost predicate Later(f: Reader, v: Reader)
  {
    && |f.data| == |v.data| && v.at <= f.at <= |f.data| && f.data[..v.at] == v.data[..v.at]
    && f.hasJournal == v.hasJournal
    && (v.hasJournal ==>
          |f.journal| == |v.journal| && v.jat <= f.jat <= |f.journal| && f.journal[..v.jat] == v.journal[..v.jat])
    && (!v.hasJournal ==> f.journal == v.journal && f.jat == v.jat)
  }

  lemma {:induction false} LaterPart<A>(a: seq<A>, b: seq<A>, i: nat, j: nat)
    requires i <= j <= |a| == |b| && a[..j] == b[..j]
    ensures a[..i] == b[..i] && a[i..j] == b[i..j]
  {
    assert a[..i] == a[..j][..i] && b[..i] == b[..j][..i];
    assert a[i..j] == a[..j][i..] && b[i..j] == b[..j][i..];
  }

  lemma {:induction false} LaterTwice(f: Reader, u: Reader, v: Reader)
    requires Later(f, u) && Later(u, v)
    ensures Later(f, v)
  {
    LaterPart(f.data, u.data, v.at, u.at);
    if v.hasJournal {
      LaterPart(f.journal, u.journal, v.jat, u.jat);
    }
  }

  lemma {:induction false} ItemLater(v: Reader, item: Item)
    requires v.Ready(1)
    ensures Later(WriteItem(v, item).after, v)
  {
  }

  lemma {:induction false} WriteLater(v: Reader, items: seq<Item>)
    requires v.Ready(|items|)
    ensures Later(WriteOn(v, items).after, v)
    decreases |items|
  {
    if items != [] {
      var u := WriteItem(v, items[0]).after;
      ItemLater(v, items[0]);
      WriteLater(u, items[1..]);
      LaterTwice(WriteOn(v, items).after, u, v);
    }
  }

  /** A reader on the buffers of one writer state with the cursors of another. */
  function At(f: Reader, v: Reader): Reader
  {
    f.(at := v.at, jat := v.jat)
  }

  /** The journal's entry of a call, found again. */
  lemma {:induction false} EntryStays(v: Reader, item: Item, f: Reader)
    requires v.Ready(1) && v.hasJournal && Later(f, WriteItem(v, item).after)
    requires item.slot.Check? || HasRoom(v, item.slot)
    ensures At(f, v).Ready(1) && At(f, v).NextToken() == item.slot.Token()
  {
    var u := WriteItem(v, item).after;
    LaterPart(f.journal, u.journal, v.jat, v.jat + 6);
    assert u.journal[v.jat..v.jat + 6] == BitsOf(item.slot.Token(), 6);
    TokenReadBack(item.slot);
  }

  /** What a call wrote is what it reads, also much later. */
  lemma {:induction false} SameAnswer(v: Reader, item: Item, f: Reader)
    requires item.Valid() && v.Ready(1) && Later(f, WriteItem(v, item).after)
    ensures At(f, v).Ready(1)
    ensures var s, r := WriteItem(v, item), ReadItem(At(f, v), item.slot);
      r.ok == s.ok && r.after == At(f, s.after) && (s.ok ==> r.word == Low(item.word, item.slot.Width()))
  {
    var s := WriteItem(v, item);
    ItemLater(v, item);
    LaterTwice(f, s.after, v);
    if v.hasJournal && (item.slot.Check? || HasRoom(v, item.slot)) {
      EntryStays(v, item, f);
    }
    if s.ok {
      LaterPart(f.data, s.after.data, v.at, s.after.at);
      assert s.after.data[v.at..s.after.at] == item.Payload();
      WordReadBack(item);
    }
  }

  lemma {:induction false} AnswersFrom(v: Reader, items: seq<Item>, f: Reader)
    requires ValidItems(items) && v.Ready(|items|) && f == WriteOn(v, items).after
    ensures At(f, v).Ready(|items|)
    ensures ReadOn(At(f, v), Slots(items)) == Answers(Expected(items, WriteOn(v, items).oks), f)
    decreases |items|
  {
    WriteLater(v, items);
    if items != [] {
      var s := WriteItem(v, items[0]);
      WriteLater(s.after, items[1..]);
      SameAnswer(v, items[0], f);
      AnswersFrom(s.after, items[1..], f);
      assert Slots(items)[1..] == Slots(items[1..]);
      ExpectedCons(items, WriteOn(v, items).oks);
    }
  }

  /**
   For every schedule, whether or not it fits: a reader from the start gets at every call the answer that the
   writer got, at the successful ones the low bits of the word, and ends with the writer's cursors.
   */
  lemma {:induction false} SameAnswers(v: Reader, items: seq<Item>)
    requires ValidItems(items) && v.at == v.jat == 0 && v.Ready(|items|)
    ensures var t := WriteOn(v, items);
      && Rewound(t.after).Ready(|items|)
      && ReadOn(Rewound(t.after), Slots(items)) == Answers(Expected(items, t.oks), t.after)
  {
    WriteLater(v, items);
    AnswersFrom(v, items, WriteOn(v, items).after);
  }

  /**
   With a journal, the entry of a checkpoint that failed stands in the way of a reader that leaves it out:
   whatever data it asks for next, it gets false, and its data cursor does not move.
   */
  lemma {:induction false} StrayToken(v: Reader, rest: seq<Item>, bits: BitCount)
    requires v.hasJournal && v.Ready(1 + |rest|) && !HasRoom(v, Check)
    ensures var t := WriteOn(v, [Item(Check, MAGIC)] + rest);
      && !t.oks[0] && At(t.after, v).Ready(1)
      && !ReadItem(At(t.after, v), Data(bits)).ok && ReadItem(At(t.after, v), Data(bits)).after.at == v.at
  {
    var item := Item(Check, MAGIC);
    var items := [item] + rest;
    var f := WriteOn(v, items).after;
    assert items[0] == item && items[1..] == rest;
    WriteLater(WriteItem(v, item).after, rest);
    EntryStays(v, item, f);
  }

  // ---- typed calls ----

  /** The answers of typed calls: each successful call with the value that was sent. */
  lemma {:induction false} SameValues(v: Reader, calls: seq<Call>)
    requires ValidCalls(calls) && v.at == v.jat == 0 && v.Ready(|calls|)
    ensures ValidItems(Items(calls)) && ValidKinds(Kinds(calls))
    ensures var t := WriteOn(v, Items(calls));
      && Rewound(t.after).Ready(|calls|)
      && var a := ReadOn(Rewound(t.after), SlotsOf(Kinds(calls)));
         && a.after == t.after
         && forall i :: 0 <= i < |calls| ==>
              && a.list[i].ok == t.oks[i]
              && (t.oks[i] ==> calls[i].kind.Decode(U32(a.list[i].word)) == calls[i].Received())
  {
    ItemsValid(calls);
    SameAnswers(v, Items(calls));
    AllDecoded(calls, Kinds(calls));
  }

  // ---- the class ----

  /** A program that makes all its calls in write mode, whatever they return. */
  method WriteAll(s: Stream, calls: seq<Call>) returns (oks: seq<bool>)
    requires s.Valid() && s.mode.Write? && ValidCalls(calls) && s.View().Ready(|calls|)
    modifies s.bitpacker, s.bitpacker.buffer, s.journal, s.journal.buffer
    ensures s.Valid()
    ensures Tried(oks, s.View()) == WriteOn(old(s.View()), Items(calls))
    decreases |calls|
  {
    oks := [];
    if calls != [] {
      var ok, _ := s.Perform(calls[0].kind, calls[0].value);
      assert Items(calls)[1..] == Items(calls[1..]);
      var rest := WriteAll(s, calls[1..]);
      oks := [ok] + rest;
    }
  }

  /** What the variables of the calls hold: decoded when the call succeeded. */
  ghost predicate Got(kinds: seq<Kind>, list: seq<Answer>, oks: seq<bool>, values: seq<int>)
    requires ValidKinds(kinds) && |kinds| == |list|
  {
    && |oks| == |values| == |list|
    && forall i :: 0 <= i < |list| ==>
         oks[i] == list[i].ok && (oks[i] ==> values[i] == kinds[i].Decode(U32(list[i].word)))
  }

  /** And one that makes all its calls in read mode. */
  method ReadAll(s: Stream, kinds: seq<Kind>) returns (oks: seq<bool>, values: seq<int>)
    requires s.Valid() && s.mode.Read? && ValidKinds(kinds) && s.View().Ready(|kinds|)
    modifies s.bitpacker, s.bitpacker.buffer, s.journal, s.journal.buffer
    ensures s.Valid() && s.View() == ReadOn(old(s.View()), SlotsOf(kinds)).after
    ensures Got(kinds, ReadOn(old(s.View()), SlotsOf(kinds)).list, oks, values)
    decreases |kinds|
  {
    oks, values := [], [];
    if kinds != [] {
      ghost var before := s.View();
      var ok, value := s.Perform(kinds[0], kinds[0].Sample());
      ghost var mid := s.View();
      AnswerHead(before, kinds, ok, value, mid);
      oks, values := ReadAll(s, kinds[1..]);
      GotCons(kinds, ReadOn(before, SlotsOf(kinds)).list, ok, value, oks, values);
      oks, values := [ok] + oks, [value] + values;
    }
  }

  lemma {:induction false} GotCons(kinds: seq<Kind>, list: seq<Answer>, ok: bool, value: int, oks: seq<bool>,
          values: seq<int>)
    requires ValidKinds(kinds) && |kinds| == |list| > 0 && list[0].ok == ok
    requires ok ==> value == kinds[0].Decode(U32(list[0].word))
    requires Got(kinds[1..], list[1..], oks, values)
    ensures Got(kinds, list, [ok] + oks, [value] + values)
  {
    forall i | 0 < i < |list|
      ensures oks[i - 1] == list[i].ok && (oks[i - 1] ==> values[i - 1] == kinds[i].Decode(U32(list[i].word)))
    {
      assert list[1..][i - 1] == list[i] && kinds[1..][i - 1] == kinds[i];
    }
  }

  lemma {:induction false} AnswerHead(before: Reader, kinds: seq<Kind>, ok: bool, value: int, mid: Reader)
    requires ValidKinds(kinds) && kinds != [] && before.Ready(|kinds|)
    requires PerformEffect(Read, before, kinds[0], kinds[0].Sample(), ok, value, mid)
    ensures mid.Ready(|kinds| - 1)
    ensures var a, rest := ReadOn(before, SlotsOf(kinds)), ReadOn(mid, SlotsOf(kinds[1..]));
      && a.after == rest.after && a.list[0].ok == ok && a.list[1..] == rest.list
      && (ok ==> value == kinds[0].Decode(U32(a.list[0].word)))
  {
    U32Word(MAGIC);
    assert SlotsOf(kinds)[0] == kinds[0].Slot() && SlotsOf(kinds)[1..] == SlotsOf(kinds[1..]);
  }

  /**
   A program that writes into its buffers and reads from them, of any size: the reader's calls return what the
   writer's did, and every value that was sent comes back.
   */
  method WriteThenReadAll(calls: seq<Call>, buffer: array<Byte>, journalBuffer: array?<Byte>)
    returns (sent: seq<bool>, oks: seq<bool>, values: seq<int>)
    requires ValidCalls(calls) && journalBuffer != buffer
    requires journalBuffer != null ==> 6 * |calls| <= 8 * journalBuffer.Length
    modifies buffer, if journalBuffer == null then {} else {journalBuffer}
    ensures sent == oks && |oks| == |values| == |calls|
    ensures forall i :: 0 <= i < |calls| && oks[i] ==> values[i] == calls[i].Received()
  {
    var writer := new Stream(Write, buffer, journalBuffer);
    ghost var v := writer.View();
    sent := WriteAll(writer, calls);
    ghost var w := writer.View();
    SameValues(v, calls);
    WriteLater(v, Items(calls));
    var reader := new Stream(Read, buffer, journalBuffer);
    ghost var r := reader.View();
    SameAnswersRead(r, Rewound(w), SlotsOf(Kinds(calls)));
    oks, values := ReadAll(reader, Kinds(calls));
  }

  /** Without a journal the journal part of a reader plays no role. */
  lemma {:induction false} SameAnswersRead(a: Reader, b: Reader, slots: seq<Slot>)
    requires a.data == b.data && a.at == b.at && a.hasJournal == b.hasJournal
    requires a.hasJournal ==> a == b
    requires a.Ready(|slots|) && b.Ready(|slots|)
    ensures ReadOn(a, slots).list == ReadOn(b, slots).list
    decreases |slots|
  {
    if slots != [] {
      SameAnswersRead(ReadItem(a, slots[0]).after, ReadItem(b, slots[0]).after, slots[1..]);
    }
  }
}
