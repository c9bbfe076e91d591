# Verified model of simple-udp and its slides

A Dafny 4.11 model of the parts of this repository that carry an algorithm, with proofs of what they
keep and promise. `dafny verify dfyconfig.toml` checks all of it.

**Replication with dirty bits** (`DirtyBits.dfy`, `SyncMessage.dfy`, `KeyedArray.dfy`). A packed bit set, a
bounded ring of saved bit sets, an array that marks what it changes and a hash index beside it. The ring
answers like an unbounded log; the delta computed from it rebuilds the array exactly over every run; array
and index are a plain finite map, which a receiver gets by the same delta.

**Bit streams** (`Bits.dfy`, `BitPacker.dfy`, `StreamItems.dfy`, `NetStream.dfy`, `RangeCoding.dfy`,
`StreamFailures.dfy`, `MemoryStream.dfy`). Words are bounded natural numbers with operators defined bit by bit.
Two writers of unaligned bits append to the same bit list; every schedule of typed calls survives a write and a
read, and one that does not fit gets the same answers from both; range coding is a bijection but for two upper
limits; the journal catches the first difference between two schedules.

**Slide navigation** (`Options.dfy`, `Fragments.dfy`, `Deck.dfy`, `Presentation.dfy`, `LocationHash.dfy`,
`Reveal.dfy`). `Deck.dfy` says what each navigation step does to indices, stack memories and the number of
visible groups, and proves the tour, the way back and the progress. `Presentation.dfy` and `Reveal.dfy` hold
the classes on slides and fragments that the code reads and writes in place, and prove that the class `Reveal`
follows `Deck.dfy` through every loop over the document. `LocationHash.dfy` prints and parses the URL hash.

**Highlighted code and the chalkboard** (`CodeLines.dfy`, `SlideTable.dfy`, `BoardEvents.dfy`, `Drawing.dfy`,
`Chalkboard.dfy`). Splitting highlighted code into lines, and recording and replaying drawings.
`BoardEvents.dfy` orders and plays recorded events; `Drawing.dfy` is a state machine of pointer, timers and keys
over what one sees and what is recorded, and proves over every run when the replay shows what was seen;
`Chalkboard.dfy` is the plugin, whose methods follow that machine.

**Messages and spawning** (`Wire.dfy`, `Messages.dfy`, `GeneratedMessages.dfy`, `Spawning.dfy`,
`GameClasses.dfy`). Parsing, writing, sizes and merging of the generated messages, by the sections "Base 128
Varints", "Length-Delimited Records" and "Last One Wins" of the Protocol Buffers Encoding guide; and the
spawn protocol over a network that loses, repeats and reorders packets.

Where code that changes state in place is modelled, a class does the same on fields or arrays, and each
method is proved against a function on values; the theorems are about those functions, and beside each function
stand lemmas that say in other words, element by element or bit by bit, what it computes.

Some things turned out otherwise than names or comments say:

- `swap_dirty` does not swap: both marks are set when either is (`SwapDirty`).
- `is_dirty()` without an index sees the padding bits that `set_all_dirty` sets (`PaddingStaysDirty`).
- `BitsRequired` gives 32 bits from a distance of 0x7FFFFFF on, which is more than needed up to 2^31
  (`RangeWidthExact`).
- A call that fails in write mode leaves the stream as it was, unless it is a checkpoint and there is a
  journal: the entry of a checkpoint that does not fit stays in the journal (`WriteFailure`), and a reader that
  leaves the checkpoint out fails there (`StrayToken`).
- Chars and shorts that name no range are sent in 32 bits, as 128 and 32768 narrow to the least value of the
  type; range coding is then not onto, and word 255 or 65535 is the code of no value (`DefaultArguments`).
- A coordinate of negative zero is lost in a message (`ObjectRoundTrip`).
- `navigateNext` is called the reverse of `navigatePrev`, but going back does not undo a step that resumes a stack at a
  remembered slide (`PrevUndoesNext`).
- Code after the last line break, which is what trimmed code ends in, is not wrapped in a line and does not
  get its open spans back (`RestKept`).
- The chalkboard keeps its table in order and free of duplicates for all indices, also when `f` is undefined
  for some entries of a slide (`LocatedTidy`).
- A slide shown again is not always as it was drawn. A sponge dab in a single point is recorded but never
  replayed (`PictureComplete`); a stroke into which a clear falls is replayed before the clear
  (`ClearInStroke`); one in which the chalkboard is opened goes to the wrong board (`OpenInStroke`); one that a
  second button interrupts is lost (`PressInStroke`); one during which the timer of a touch fires is replayed as
  wiped with the sponge (`HoldInStroke`, `HoldOfOther`); one that leaves the canvas is replayed there
  (`StrokeOutside`). `ReplayFaithful` has the exact condition, and `DrawAndReturn` is the same for the plugin.
- A client that has got its session asks to enter if and only if another packet is delivered to it, it updates
  and it dispatches (`EnterIff`), as updates run only with packets pending. It never moves an object that it has
  (`FirstPositionStays`).

## Model

| member | source | states |
|---|---|---|
| `DirtyFlags.DirtyBits.constructor` | demos/simple-udp/src/game_networking/PropertyMacros.h:264-268 | a new bit set has no marks |
| `DirtyFlags.DirtyBits.Clear` | demos/simple-udp/src/game_networking/PropertyMacros.h:268 | no mark is left |
| `DirtyFlags.DirtyBits.Merge` | demos/simple-udp/src/game_networking/PropertyMacros.h:277-282 | the marks are the union of both sets |
| `DirtyFlags.DirtyBits.IsDirty` | demos/simple-udp/src/game_networking/PropertyMacros.h:283-288 | true exactly when some bit of some byte is set, padding bits included |
| `DirtyFlags.DirtyBits.SetAllDirty` | demos/simple-udp/src/game_networking/PropertyMacros.h:289-293 | every bit is set, those that pad the last byte too |
| `DirtyFlags.PaddingStaysDirty` | demos/simple-udp/src/game_networking/PropertyMacros.h:283-293 | padding bits that no index clears exist exactly when the size is no multiple of eight, so that a set marked in full and cleared index by index may still report dirty |
| `DirtyFlags.DirtyBits.IsDirtyAt` | demos/simple-udp/src/game_networking/PropertyMacros.h:294-297 | true exactly when the index is marked |
| `DirtyFlags.DirtyBits.SetDirty` | demos/simple-udp/src/game_networking/PropertyMacros.h:298-301 | that index is marked, no other mark changes |
| `DirtyFlags.DirtyBits.ClearDirty` | demos/simple-udp/src/game_networking/PropertyMacros.h:302-305 | that mark goes, no other mark changes |
| `DirtyFlags.DirtyBits.SwapDirty` | demos/simple-udp/src/game_networking/PropertyMacros.h:306-310 | both indices end up marked if either was; the marks are exchanged exactly when they were alike, which the name does not say |
| `DirtyFlags.RingPush` | demos/simple-udp/src/game_networking/PropertyMacros.h:357-365 | a ring that holds the last saves of a log holds the last saves of the longer log after a push, wrap-around included |
| `DirtyFlags.UnionLastMember` | demos/simple-udp/src/game_networking/PropertyMacros.h:372-376 | the union of the last n saves has an index exactly when one of those saves has it |
| `DirtyFlags.AnswerCoversLog` | demos/simple-udp/src/game_networking/PropertyMacros.h:366-378 | an answer for n saves misses no mark of any of them, also when n exceeds what is retained |
| `DirtyFlags.AnswerExact` | demos/simple-udp/src/game_networking/PropertyMacros.h:366-378 | a query for saves that are retained answers with an index exactly when one of them has it, one for more with every index there is room for, one for none with nothing |
| `DirtyFlags.DirtyHistory.constructor` | demos/simple-udp/src/game_networking/PropertyMacros.h:380-384 | nothing marked, nothing saved |
| `DirtyFlags.DirtyHistory.Init` | demos/simple-udp/src/game_networking/PropertyMacros.h:356 | the log starts anew |
| `DirtyFlags.DirtyHistory.MarkDirty` | demos/simple-udp/src/game_networking/PropertyMacros.h:392-394 | one more current mark |
| `DirtyFlags.DirtyHistory.Save` | demos/simple-udp/src/game_networking/PropertyMacros.h:357-365 | the unbounded log gets the current marks, which are then cleared, for every history size from 0 to 255 |
| `DirtyFlags.DirtyHistory.Push` | demos/simple-udp/src/game_networking/PropertyMacros.h:358-363 | the ring holds exactly the last saves of the log |
| `DirtyFlags.DirtyHistory.GetHistory` | demos/simple-udp/src/game_networking/PropertyMacros.h:366-378 | an index is marked afterwards exactly when it was, or one of the last n saves has it; when fewer are retained, exactly when there is room for it; nothing for n <= 0 |
| `DirtyFlags.DirtyHistory.AddHistory` | demos/simple-udp/src/game_networking/PropertyMacros.h:366-378 | the loop over the ring |
| `Replication.ArrayDelta` | demos/simple-udp/src/game_networking/PropertyMacros.h:399-434 | for every run of set, mutable, add, delete, clear and saves, taken just after a save: a receiver with the array as of k saves ago, the present length and the flagged elements rebuilds the present array exactly, also when k exceeds the history |
| `Replication.FieldDelta` | demos/simple-udp/src/game_networking/PropertyMacros.h:349-384 | for every run, a field changed since k saves ago is flagged by the answer for k saves |
| `Replication.AdvanceTracked` | demos/simple-udp/src/game_networking/PropertyMacros.h:467-491 | every operation keeps the invariant that saved and current marks cover all differences between saved and current contents |
| `Replication.PlayTracked` | demos/simple-udp/src/game_networking/PropertyMacros.h:542-635 | the invariant holds after every run |
| `Replication.ElemsCovered` | demos/simple-udp/src/game_networking/PropertyMacros.h:416-428 | elements that differ between two saves are in the union of the marks saved between them |
| `Replication.DeleteSteps` | demos/simple-udp/src/game_networking/PropertyMacros.h:606-613 | deleting is a set from the last element followed by the removal of the last, also when the element is the last one |
| `Replication.FieldWritten` | demos/simple-udp/src/game_networking/PropertyMacros.h:471-484 | a field has the value set, and is marked if and only if that is another or marking is forced; other fields are untouched |
| `Replication.ElemWritten` | demos/simple-udp/src/game_networking/PropertyMacros.h:556-621 | each element after an operation: the one written, the last in place of one deleted, or the one that was there; and how many there are |
| `Replication.ElemMarked` | demos/simple-udp/src/game_networking/PropertyMacros.h:542-635 | an element is marked exactly when it was, or its slot is written, added or freed; the array field exactly when some slot is; saves take the marks |
| `Replication.LogsKept` | demos/simple-udp/src/game_networking/PropertyMacros.h:356-365 | a save adds the marks there are to its log, an init empties it, nothing else touches it |
| `Replication.RebuildIs` | demos/simple-udp/src/game_networking/PropertyMacros.h:399-434 | only a flagged element is the one of the sender |
| `Replication.SyncMessage.constructor` | demos/simple-udp/src/game_networking/PropertyMacros.h:633-635 | fields as given, no elements, empty logs |
| `Replication.SyncMessage.SetField` | demos/simple-udp/src/game_networking/PropertyMacros.h:475-484 | a field is written and marked only when its value changes or marking is forced |
| `Replication.SyncMessage.MutableField` | demos/simple-udp/src/game_networking/PropertyMacros.h:471-474 | a field handed out is marked, whatever is written through the reference |
| `Replication.SyncMessage.SetElem` | demos/simple-udp/src/game_networking/PropertyMacros.h:562-571 | value written, element and array field marked, even when the value is the same |
| `Replication.SyncMessage.SetElemFrom` | demos/simple-udp/src/game_networking/PropertyMacros.h:562-571 | setting an element from itself changes and marks nothing |
| `Replication.SyncMessage.MutableElem` | demos/simple-udp/src/game_networking/PropertyMacros.h:556-561 | an element handed out is marked |
| `Replication.SyncMessage.AddElem` | demos/simple-udp/src/game_networking/PropertyMacros.h:572-594 | false and no change exactly when full; else the new element at the end is marked |
| `Replication.SyncMessage.DeleteLast` | demos/simple-udp/src/game_networking/PropertyMacros.h:595-605 | the last element is zeroed, marked and removed; nothing when empty |
| `Replication.SyncMessage.DeleteElem` | demos/simple-udp/src/game_networking/PropertyMacros.h:606-613 | the last element takes the place of the one deleted; both slots are marked |
| `Replication.SyncMessage.ClearElems` | demos/simple-udp/src/game_networking/PropertyMacros.h:614-621 | no elements left, all former ones marked; nothing when empty |
| `Replication.SyncMessage.SaveFields` | demos/simple-udp/src/game_networking/PropertyMacros.h:357-365 | the field marks go to the log and are cleared |
| `Replication.SyncMessage.SaveElems` | demos/simple-udp/src/game_networking/PropertyMacros.h:407-415 | the element marks go to the log and are cleared |
| `Replication.SyncMessage.InitFields` | demos/simple-udp/src/game_networking/PropertyMacros.h:356 | the log of field marks starts anew |
| `Replication.SyncMessage.InitElems` | demos/simple-udp/src/game_networking/PropertyMacros.h:406 | the log of element marks starts anew |
| `Replication.SyncMessage.ElemDelta` | demos/simple-udp/src/game_networking/PropertyMacros.h:416-428 | the flags computed from the ring rebuild the present array from the one of k saves ago |
| `KeyedArrays.IndexedSizes` | demos/simple-udp/src/game_networking/PropertyMacros.h:678-683 | when the index maps each key to exactly its slot, keys are distinct and sizes match |
| `KeyedArrays.InsertIndexed` | demos/simple-udp/src/game_networking/PropertyMacros.h:722-729 | a new key at the end keeps that, and the map gains one entry |
| `KeyedArrays.EraseIndexed` | demos/simple-udp/src/game_networking/PropertyMacros.h:730-741 | moving the last element into the hole keeps that, and the map loses exactly the erased key |
| `KeyedArrays.WriteIndexed` | demos/simple-udp/src/game_networking/PropertyMacros.h:703-721 | a payload overwritten in place keeps that |
| `KeyedArrays.RestoreIndexed` | demos/simple-udp/src/game_networking/PropertyMacros.h:759-764 | rebuilding the index makes it exact if and only if the keys in the array are distinct |
| `KeyedArrays.IndexUnique` | demos/simple-udp/src/game_networking/PropertyMacros.h:678-683 | an array has one exact index at most |
| `KeyedArrays.InsertedIs` | demos/simple-udp/src/game_networking/PropertyMacros.h:722-729 | a key is there after insert with what was written, else with what it had, else blank; other keys are untouched |
| `KeyedArrays.MapDelta` | demos/simple-udp/src/game_networking/PropertyMacros.h:759-764 | a receiver that rebuilds the array from the one of k saves ago by the flagged elements, and restores its index, has index and plain map of the sender |
| `KeyedArrays.KeyedArray.constructor` | demos/simple-udp/src/game_networking/PropertyMacros.h:759-764 | valid exactly when the array has distinct keys |
| `KeyedArrays.KeyedArray.Restore` | demos/simple-udp/src/game_networking/PropertyMacros.h:759-764 | the index maps each key to its first slot; exact exactly when keys are distinct |
| `KeyedArrays.KeyedArray.Has` | demos/simple-udp/src/game_networking/PropertyMacros.h:681-683 | membership in the plain map |
| `KeyedArrays.KeyedArray.Size` | demos/simple-udp/src/game_networking/PropertyMacros.h:679 | the size of the plain map |
| `KeyedArrays.KeyedArray.Find` | demos/simple-udp/src/game_networking/PropertyMacros.h:684-702 | the payload that the plain map has, or nothing |
| `KeyedArrays.KeyedArray.Mutable` | demos/simple-udp/src/game_networking/PropertyMacros.h:703-721 | hands out exactly a present key, marks its slot, and changes no other entry |
| `KeyedArrays.KeyedArray.Append` | demos/simple-udp/src/game_networking/PropertyMacros.h:722-729 | a new key at the end of the array, marked, and the plain map gains it |
| `KeyedArrays.KeyedArray.Insert` | demos/simple-udp/src/game_networking/PropertyMacros.h:722-729 | succeeds exactly for a present key or when there is room; the plain map gains the key with a zeroed payload, or keeps its own |
| `KeyedArrays.KeyedArray.Erase` | demos/simple-udp/src/game_networking/PropertyMacros.h:730-741 | returns 1 exactly for a present key; the plain map loses it and nothing else |
| `KeyedArrays.KeyedArray.EraseSlot` | demos/simple-udp/src/game_networking/PropertyMacros.h:732-739 | the index is repaired for the element that moved |
| `KeyedArrays.KeyedArray.Clear` | demos/simple-udp/src/game_networking/PropertyMacros.h:742-745 | the plain map is empty |
| `BitPacking.WrittenByteBit` | demos/simple-udp/playground/net_stream.h:56 | OR-ing a shifted value into a byte, bit by bit |
| `BitPacking.WritePass` | demos/simple-udp/playground/net_stream.h:53-72 | one pass of the write loop leaves the bits before the cursor alone and adds the next bits of the value |
| `BitPacking.WrittenClear` | demos/simple-udp/playground/net_stream.h:41-73 | after all passes the buffer is the old one with the low bits of the value at the cursor, and still clear above it |
| `BitPacking.ReadStep` | demos/simple-udp/playground/net_stream.h:85-105 | one pass of the read loop gathers the next bits at their places |
| `BitPacking.ReadDone` | demos/simple-udp/playground/net_stream.h:106-110 | masking leaves exactly the bits asked for |
| `BitPacking.BitPacker.constructor` | demos/simple-udp/playground/net_stream.h:29-39 | cursor at the start; a buffer to write is zeroed |
| `BitPacking.BitPacker.PutByte` | demos/simple-udp/playground/net_stream.h:56-67 | one byte is written, and the cursor moves on to the next byte exactly when it is full |
| `BitPacking.BitPacker.WriteBits` | demos/simple-udp/playground/net_stream.h:41-73 | the bit list gets the low bits of the value at the cursor, all others stay, the cursor advances |
| `BitPacking.BitPacker.WriteLow` | demos/simple-udp/playground/net_stream.h:53-72 | the loop of WriteBits for any unaligned cursor and width up to 32 |
| `BitPacking.BitPacker.ReadBits` | demos/simple-udp/playground/net_stream.h:75-111 | the value of exactly the bits from the old to the new cursor |
| `StreamItems.ReadBack` | demos/simple-udp/playground/net_stream.h:313-380 | reading a buffer in which the items stand returns every word and fails nowhere |
| `StreamItems.Desync` | demos/simple-udp/playground/net_stream.h:326-335 | a token that differs makes the call fail with the data cursor where it was |
| `StreamItems.FirstDifference` | demos/simple-udp/playground/net_stream.h:313-361 | with a journal, a reader whose schedule first differs at call n gets all words before it, then false, the data cursor unmoved by that call |
| `StreamItems.WriteRunBits` | demos/simple-udp/playground/net_stream.h:336-341 | writing a schedule appends its bits, and its tokens to the journal |
| `StreamItems.WrittenInStep` | demos/simple-udp/playground/net_stream.h:313-380 | what was written is in step with the schedule when read from the start |
| `StreamItems.RunStops` | demos/simple-udp/playground/net_stream.h:326-335 | a run that has failed stays as it is, whatever calls would have followed |
| `StreamItems.RoundTrip` | demos/simple-udp/playground/net_stream.h:313-380 | write mode and then read mode: every word comes back and no call fails |
| `StreamFailures.WriteSuccess` | demos/simple-udp/playground/net_stream.h:313-361 | a call in write mode succeeds exactly when its bits fit, and then they stand at the old cursors |
| `StreamFailures.ReadSuccess` | demos/simple-udp/playground/net_stream.h:313-361 | a call in read mode succeeds exactly when its bits are there, its journal entry is next, and a checkpoint finds its number |
| `NetStream.BitLengthExact` | demos/simple-udp/playground/net_stream.h:411-422 | the bit length is the smallest width that holds the value |
| `NetStream.RangeWidthWideEnough` | demos/simple-udp/playground/net_stream.h:402-409 | the chosen width always holds max - min |
| `NetStream.RangeWidthExact` | demos/simple-udp/playground/net_stream.h:402-409 | no smaller width would do if and only if max - min is below 0x7FFFFFF or at least 2^31; the code promises less |
| `NetStream.BitsRequiredFor` | demos/simple-udp/playground/net_stream.h:411-422 | the loop computes the bit length of one less than the number of values |
| `NetStream.BitsRequired` | demos/simple-udp/playground/net_stream.h:402-409 | 32 from 0x7FFFFFF on, the bit length below |
| `NetStream.EncodeFits` | demos/simple-udp/playground/net_stream.h:270-288 | a value in its range goes into the chosen width |
| `NetStream.DecodeEncode` | demos/simple-udp/playground/net_stream.h:213-311 | decoding what the width keeps gives back the value, for every kind of call, signed values that wrap modulo 2^32 included |
| `NetStream.PlainForm` | demos/simple-udp/playground/net_stream.h:213-219 | the bits and the journal entry of booleans (one bit, 3), floats (32, 34), raw bits and checkpoints (0x12345678 in 32 bits, 1) |
| `NetStream.RangeForm` | demos/simple-udp/playground/net_stream.h:270-288 | a range is sent as the distance from its lower limit, in the width of its limits |
| `NetStream.ShiftedIs` | demos/simple-udp/playground/net_stream.h:221-265 | the unsigned integer that stands for each char, short and int |
| `NetStream.AcceptsIs` | demos/simple-udp/playground/net_stream.h:270-288 | which values can be written |
| `NetStream.BooleanEffect` | demos/simple-udp/playground/net_stream.h:213-219 | a boolean is sent whenever a bit is left and the entry agrees: the cursor moves by one, the bit is the value, the entry is 3 |
| `NetStream.ScheduleRoundTrip` | demos/simple-udp/playground/net_stream.h:213-380 | for every schedule of typed calls and checkpoints that fits, reading after writing returns true at every call and recovers every value |
| `NetStream.ScheduleDesync` | demos/simple-udp/playground/net_stream.h:313-361 | with a journal that has an entry for every call up to that one, a reader whose schedule first differs in a width gets the values of all earlier calls and then false, whatever calls would follow |
| `RangeCoding.ShiftOnto` | demos/simple-udp/playground/net_stream.h:221-265 | which unsigned integers come back to themselves through the narrowing casts: for char and short those up to 254 or 65534 and the last of all, for int every one |
| `RangeCoding.CodesAre` | demos/simple-udp/playground/net_stream.h:270-288 | a word up to the code of the upper limit decodes to an accepted value with that code if and only if its sum with the lower limit is such an integer |
| `RangeCoding.WidthNarrowest` | demos/simple-udp/playground/net_stream.h:402-422 | no narrower width would do for the codes of a kind, unless it is a range whose largest code is from 0x7FFFFFF up to 2^31 - 1 |
| `RangeCoding.EncodeOnto` | demos/simple-udp/playground/net_stream.h:221-288 | range coding is a bijection from the values of a range to the words up to the code of its upper limit if and only if that limit is not the least char or the least short; one-to-one it always is |
| `RangeCoding.DefaultArguments` | demos/simple-udp/playground/net_stream.h:221-250 | the ranges of calls that name none: those of char and short end in the least value, as 128 and 32768 do not fit, so 32 bits are sent and word 255 or 65535 is the code of no value |
| `StreamFailures.WriteFailure` | demos/simple-udp/playground/net_stream.h:313-380 | a call that fails in write mode leaves the stream as it was if and only if it is no checkpoint or there is no journal |
| `StreamFailures.ReadFailure` | demos/simple-udp/playground/net_stream.h:313-380 | the same for read mode: unchanged exactly when the bits are not there and it is no checkpoint with a journal; the data cursor moves exactly when bits and journal entry are there |
| `StreamFailures.SameAnswers` | demos/simple-udp/playground/net_stream.h:313-380 | for every schedule, whether it fits or not, with all calls made: a reader gets at each call the answer the writer got, and the words of the successful ones |
| `StreamFailures.SameValues` | demos/simple-udp/playground/net_stream.h:213-380 | the same for typed calls and their values |
| `StreamFailures.StrayToken` | demos/simple-udp/playground/net_stream.h:344-361 | a reader that leaves out a checkpoint that failed to be written gets false for any data it asks for next, with the data cursor unmoved |
| `StreamFailures.WriteAll` | demos/simple-udp/playground/net_stream.h:313-380 | the calls made in write mode, whatever they return, have the specified answers and buffers |
| `StreamFailures.ReadAll` | demos/simple-udp/playground/net_stream.h:313-380 | the calls made in read mode, whatever they return, have the specified answers and values |
| `StreamFailures.WriteThenReadAll` | demos/simple-udp/playground/net_stream.h:197-211 | two streams over the same buffers of any size: the same answers, and every value that was sent comes back |
| `NetStream.Stream.constructor` | demos/simple-udp/playground/net_stream.h:207-211 | both cursors at the start, write buffers zeroed |
| `NetStream.Stream.Agree` | demos/simple-udp/playground/net_stream.h:319-336 | the journal part of a call: a token written, or read and compared |
| `NetStream.Stream.Transfer` | demos/simple-udp/playground/net_stream.h:337-341 | the bits written or read at the data cursor |
| `NetStream.Stream.SerializeBits` | demos/simple-udp/playground/net_stream.h:313-342 | false and no effect when the bits do not fit, false after the token when it differs, else the bits pass |
| `NetStream.Stream.Checkpoint` | demos/simple-udp/playground/net_stream.h:344-380 | the magic number passes; when it does not fit, the token has been written or read all the same |
| `NetStream.Stream.SerializeInteger` | demos/simple-udp/playground/net_stream.h:270-288 | the offset from min passes in the chosen width |
| `NetStream.Stream.SerializeSigned` | demos/simple-udp/playground/net_stream.h:221-236 | char, short and int by their offsets, narrowed before the offset is taken away |
| `NetStream.Stream.SerializeUnsigned` | demos/simple-udp/playground/net_stream.h:238-260 | unsigned char and short |
| `NetStream.Stream.SerializeBoolean` | demos/simple-udp/playground/net_stream.h:213-219 | one bit, which is the value, and the journal entry 3 |
| `NetStream.Stream.SerializeFloat` | demos/simple-udp/playground/net_stream.h:290-311 | the 32-bit pattern |
| `NetStream.Stream.Perform` | demos/simple-udp/playground/net_stream.h:213-380 | one call of a schedule, of any kind, whatever value of its type the variable holds in read mode |
| `NetStream.Stream.WriteSchedule` | demos/simple-udp/playground/net_stream.h:313-380 | a schedule that fits is written in full, and every call returns true |
| `NetStream.Stream.ReadSchedule` | demos/simple-udp/playground/net_stream.h:313-380 | reading stops at the first call that returns false |
| `NetStream.WriteThenRead` | demos/simple-udp/playground/net_stream.h:197-211 | two streams over the same buffers: every value of the schedule comes back |
| `NetStream.SameRun` | demos/simple-udp/playground/net_stream.h:313-380 | without a journal only the data buffer matters |
| `MemoryStreams.PutAppends` | demos/simple-udp/playground/memory_stream.cpp:294-310 | the bits below the new cursor are the old ones and the low bits of the value, whatever is left above |
| `MemoryStreams.OutputMemoryBitStream.constructor` | demos/simple-udp/playground/memory_stream.cpp:259-263 | nothing written |
| `MemoryStreams.OutputMemoryBitStream.WriteBits` | demos/simple-udp/playground/memory_stream.cpp:285-311 | appends the low bits of a byte |
| `MemoryStreams.OutputMemoryBitStream.WriteAll` | demos/simple-udp/playground/memory_stream.cpp:313-327 | appends the first bits of the source bytes |
| `MemoryStreams.GatheredBits` | demos/simple-udp/playground/memory_stream.cpp:382-390 | a read assembles exactly the bits at the cursor |
| `MemoryStreams.InputMemoryBitStream.constructor` | demos/simple-udp/playground/memory_stream.cpp:351-354 | the cursor is at the start |
| `MemoryStreams.InputMemoryBitStream.ReadBits` | demos/simple-udp/playground/memory_stream.cpp:376-393 | the value of the bits from the old to the new cursor |
| `MemoryStreams.WritersAgree` | demos/simple-udp/playground/memory_stream.cpp:285-311 | both writers, one of which ORs masked values into zeroed bytes while the other leaves garbage above its cursor, write the same bit list |
| `MemoryStreams.ReadChunks` | demos/simple-udp/playground/memory_stream.cpp:376-393 | reading the chunks back in order gives the low bits of each |
| `Fragments.SortFragments` | mofps_doc/export/libs/reveal.js/3.8.0/js/reveal.js:4600-4645 | the result is a stable sort of all fragments by index, those without one last, and the numbers written count the groups from 0 |
| `Fragments.Collect` | mofps_doc/export/libs/reveal.js/3.8.0/js/reveal.js:4609-4622 | the sparse array of groups, the loose fragments and the length of the array |
| `Fragments.Present` | mofps_doc/export/libs/reveal.js/3.8.0/js/reveal.js:4634-4641 | holes of the sparse array are passed over |
| `Fragments.Flatten` | mofps_doc/export/libs/reveal.js/3.8.0/js/reveal.js:4630-4641 | groups in order, one number each |
| `Fragments.KeysCompare` | mofps_doc/export/libs/reveal.js/3.8.0/js/reveal.js:4609-4632 | fragments compare by their indices, one without comes after all that have one, and those without in document order |
| `Fragments.FlattenGroup` | mofps_doc/export/libs/reveal.js/3.8.0/js/reveal.js:4634-4638 | the fragments of one group, all with its number |
| `Fragments.RanksFollowKeys` | mofps_doc/export/libs/reveal.js/3.8.0/js/reveal.js:4630-4641 | the numbers compare as the indices did |
| `Fragments.RanksDense` | mofps_doc/export/libs/reveal.js/3.8.0/js/reveal.js:4628-4641 | no gaps in the numbers |
| `Fragments.DenseKept` | mofps_doc/export/libs/reveal.js/3.8.0/js/reveal.js:4630-4641 | numbers that are dense already are not rewritten |
| `Fragments.RankedUnique` | mofps_doc/export/libs/reveal.js/3.8.0/js/reveal.js:4600-4645 | order and numbers depend on nothing but how the indices compare |
| `Fragments.SortIdempotent` | mofps_doc/export/libs/reveal.js/3.8.0/js/reveal.js:4600-4645 | sorting again changes neither order nor numbers |
| `Fragments.PrefixDense` | mofps_doc/export/libs/reveal.js/3.8.0/js/reveal.js:4671-4674 | a prefix of groups is dense again, so that sorting it alone rewrites nothing |
| `Decks.MoveTo` | mofps_doc/export/libs/reveal.js/3.8.0/js/reveal.js:2838-2861 | a slide that is there becomes current, and the stack left remembers its slide |
| `Decks.ArriveAt` | mofps_doc/export/libs/reveal.js/3.8.0/js/reveal.js:2881-2914 | the slide stays; a fragment index of the slide is shown, and without one what shows stays; memories stay unless one arrives in the first column |
| `Decks.SlidePlace` | mofps_doc/export/libs/reveal.js/3.8.0/js/reveal.js:2827-2970 | where a move leads whatever it is asked: the nearest slide there is, the nearest number of groups or that of arriving, the memories kept, set or wiped |
| `Decks.SlideToPlace` | mofps_doc/export/libs/reveal.js/3.8.0/js/reveal.js:2827-2970 | any place is reached from any other by its indices and its fragment index |
| `Decks.SlideWithout` | mofps_doc/export/libs/reveal.js/3.8.0/js/reveal.js:2827-2970 | a place on a slide without fragments is reached by its indices alone |
| `Decks.ClampIs` | mofps_doc/export/libs/reveal.js/3.8.0/js/reveal.js:3164 | the nearest index within the limits |
| `Decks.LeftPlace` | mofps_doc/export/libs/reveal.js/3.8.0/js/reveal.js:4908-4921 | to the left: a group less, or the end of the column before, at its start slide or where it was left |
| `Decks.RightPlace` | mofps_doc/export/libs/reveal.js/3.8.0/js/reveal.js:4923-4938 | to the right: a group more, or the beginning of the next column, at its start slide or where it was left |
| `Decks.UpPlace` | mofps_doc/export/libs/reveal.js/3.8.0/js/reveal.js:4940-4947 | up: a group less, or the end of the slide above |
| `Decks.DownPlace` | mofps_doc/export/libs/reveal.js/3.8.0/js/reveal.js:4949-4958 | down: a group more, or the beginning of the slide below |
| `Decks.StartShown` | mofps_doc/export/libs/reveal.js/3.8.0/js/reveal.js:2411-2422 | a stack with a start slide shows that, whatever it remembers; a column that is no stack its only slide |
| `Decks.StackResumed` | mofps_doc/export/libs/reveal.js/3.8.0/js/reveal.js:2411-2422 | a stack that was left is resumed at the slide where it was left |
| `Decks.StackRemembers` | mofps_doc/export/libs/reveal.js/3.8.0/js/reveal.js:2838-2848 | however many moves there are between, as long as none leads home or into the stack |
| `Decks.HomeForgets` | mofps_doc/export/libs/reveal.js/3.8.0/js/reveal.js:2902-2912 | after going home, stacks without a start slide begin anew |
| `Decks.RankOrder` | mofps_doc/export/libs/reveal.js/3.8.0/js/reveal.js:4997-5025 | ranks of steps follow document order |
| `Decks.RankInjective` | mofps_doc/export/libs/reveal.js/3.8.0/js/reveal.js:4997-5025 | two states of the same rank show the same slide and the same fragments |
| `Decks.NextPlace` | mofps_doc/export/libs/reveal.js/3.8.0/js/reveal.js:4997-5025 | navigateNext shows the next fragment, else the next vertical slide, else the first slide of the next column, else nothing new |
| `Decks.NextRank` | mofps_doc/export/libs/reveal.js/3.8.0/js/reveal.js:4997-5025 | it advances the rank by one, except on the last step |
| `Decks.Tour` | mofps_doc/export/libs/reveal.js/3.8.0/js/reveal.js:4997-5025 | from a freshly loaded deck n calls lead to step n in document order, and all further calls stay on the last |
| `Decks.TourVisits` | mofps_doc/export/libs/reveal.js/3.8.0/js/reveal.js:4997-5025 | so every slide with every number of visible groups is shown by exactly one number of calls |
| `Decks.PrevUndoesNext` | mofps_doc/export/libs/reveal.js/3.8.0/js/reveal.js:4966-5025 | in every state but the last, navigatePrev after navigateNext restores slide and fragments if and only if the step does not enter a stack elsewhere than at its first slide |
| `Decks.ProgressMonotone` | mofps_doc/export/libs/reveal.js/3.8.0/js/reveal.js:4236-4263 | for two slides or more the progress is within 0 and 1 and never decreases along navigateNext |
| `Decks.ProgressIs` | mofps_doc/export/libs/reveal.js/3.8.0/js/reveal.js:4236-4263 | progress is 1 on the last slide and only there; else the slides before and the share of the fragments, divided by one less than the number of slides |
| `Decks.ShareTimes` | mofps_doc/export/libs/reveal.js/3.8.0/js/reveal.js:4246-4257 | the visible fragments count for nine tenths of their part of all |
| `Decks.VisibleCountIs` | mofps_doc/export/libs/reveal.js/3.8.0/js/reveal.js:4249 | the fragments of the first groups, counted |
| `Presentations.PassedShows` | mofps_doc/export/libs/reveal.js/3.8.0/js/reveal.js:3190-3213 | a slide passed shows all its groups, one ahead none |
| `Presentations.ArrivalShown` | mofps_doc/export/libs/reveal.js/3.8.0/js/reveal.js:3166-3214 | after both passes every slide shows what its place demands: all before, none after |
| `Presentations.PassesCompose` | mofps_doc/export/libs/reveal.js/3.8.0/js/reveal.js:2860-2861 | the two passes of updateSlides together |
| `Presentations.LeaveSlide` | mofps_doc/export/libs/reveal.js/3.8.0/js/reveal.js:2896-2898 | after the slide left has lost its class, exactly the current one is present |
| `Presentations.SortKeeps` | mofps_doc/export/libs/reveal.js/3.8.0/js/reveal.js:4666 | sorting all fragments of a slide rewrites no number |
| `Presentations.VisibleSorted` | mofps_doc/export/libs/reveal.js/3.8.0/js/reveal.js:4671-4674 | sorting only the visible ones rewrites no number, and the last of them is of the last visible group |
| `Presentations.SortVisible` | mofps_doc/export/libs/reveal.js/3.8.0/js/reveal.js:4671-4674 | the slide is unchanged, and the index found is that of the last visible group, -1 for none |
| `Presentations.UpdateSlide` | mofps_doc/export/libs/reveal.js/3.8.0/js/reveal.js:4677-4704 | each fragment is visible exactly when its number is at most the index, and current exactly when equal |
| `Presentations.UpdatedShows` | mofps_doc/export/libs/reveal.js/3.8.0/js/reveal.js:4677-4704 | afterwards exactly the groups up to the index show, and something changed exactly when that number did |
| `Presentations.UpdatedMarked` | mofps_doc/export/libs/reveal.js/3.8.0/js/reveal.js:4692-4695 | when some but not all groups show, the last of them is marked current |
| `Presentations.FragmentIndex` | mofps_doc/export/libs/reveal.js/3.8.0/js/reveal.js:4410-4421 | the index reported, when shown again, shows as many groups as now |
| `RevealJs.Reveal.constructor` | mofps_doc/export/libs/reveal.js/3.8.0/js/reveal.js:643-663 | numbers are those of sortFragments, the first slide is shown, nothing is visible on it |
| `RevealJs.Reveal.UpdateHorizontal` | mofps_doc/export/libs/reveal.js/3.8.0/js/reveal.js:3143-3237 | past, present and future by column, all fragments of other columns shown or hidden |
| `RevealJs.Reveal.UpdateVertical` | mofps_doc/export/libs/reveal.js/3.8.0/js/reveal.js:3143-3237 | the same within the present column |
| `RevealJs.Reveal.SortAll` | mofps_doc/export/libs/reveal.js/3.8.0/js/reveal.js:4729 | numbers stay as they are |
| `RevealJs.Reveal.LastVisible` | mofps_doc/export/libs/reveal.js/3.8.0/js/reveal.js:4734-4741 | one less than the number of visible groups |
| `RevealJs.Reveal.UpdateTo` | mofps_doc/export/libs/reveal.js/3.8.0/js/reveal.js:4749 | the groups up to the index show; changed exactly when their number did |
| `RevealJs.Reveal.UpdateFragments` | mofps_doc/export/libs/reveal.js/3.8.0/js/reveal.js:2963 | what shows stays so |
| `RevealJs.Reveal.NavigateFragment` | mofps_doc/export/libs/reveal.js/3.8.0/js/reveal.js:4725-4774 | the index asked for or found, plus the offset, is shown, clamped to the groups there are |
| `RevealJs.Reveal.ShowNextFragment` | mofps_doc/export/libs/reveal.js/3.8.0/js/reveal.js:4782-4786 | one more group, and true exactly when there was one |
| `RevealJs.Reveal.ShowPreviousFragment` | mofps_doc/export/libs/reveal.js/3.8.0/js/reveal.js:4794-4798 | one group less, and true exactly when there was one |
| `RevealJs.Reveal.Passes` | mofps_doc/export/libs/reveal.js/3.8.0/js/reveal.js:2860-2861 | both dimensions are clamped and classed |
| `RevealJs.Reveal.Turn` | mofps_doc/export/libs/reveal.js/3.8.0/js/reveal.js:2860-2861 | classes and fragments are those of the slide arrived at |
| `RevealJs.Reveal.Move` | mofps_doc/export/libs/reveal.js/3.8.0/js/reveal.js:2838-2861 | the stack left remembers its slide |
| `RevealJs.Reveal.Arrive` | mofps_doc/export/libs/reveal.js/3.8.0/js/reveal.js:2881-2963 | fragment shown, old class removed, memories reset |
| `RevealJs.Reveal.Leave` | mofps_doc/export/libs/reveal.js/3.8.0/js/reveal.js:2896-2914 | the slide left is present no more |
| `RevealJs.Reveal.Slide` | mofps_doc/export/libs/reveal.js/3.8.0/js/reveal.js:2827-2970 | the state is that of the specified move, for any indices and any fragment index |
| `RevealJs.Reveal.ForgetAll` | mofps_doc/export/libs/reveal.js/3.8.0/js/reveal.js:2902-2912 | all memories are zero |
| `RevealJs.Reveal.GetLocationHash` | mofps_doc/export/libs/reveal.js/3.8.0/js/reveal.js:2628-2658 | the hash of the current indices, with a fragment index only when enabled and there are fragments, one that shows what shows now |
| `RevealJs.Reveal.ReadURL` | mofps_doc/export/libs/reveal.js/3.8.0/js/reveal.js:4280-4335 | goes to the place read, and nowhere when one is there |
| `RevealJs.Reveal.FollowOwnHash` | mofps_doc/export/libs/reveal.js/3.8.0/js/reveal.js:4280-4335 | following the hash of the current place shows the same slide and fragments |
| `RevealJs.Reveal.FollowHash` | mofps_doc/export/libs/reveal.js/3.8.0/js/reveal.js:4280-4335 | following the hash of any place, from wherever one is, shows that slide with those fragments, when hashes carry fragment indices |
| `RevealJs.Reveal.NavigateLeft` | mofps_doc/export/libs/reveal.js/3.8.0/js/reveal.js:4908-4921 | a group less, else the column before |
| `RevealJs.Reveal.NavigateRight` | mofps_doc/export/libs/reveal.js/3.8.0/js/reveal.js:4923-4938 | a group more, else the next column |
| `RevealJs.Reveal.NavigateUp` | mofps_doc/export/libs/reveal.js/3.8.0/js/reveal.js:4940-4947 | a group less, else the slide above |
| `RevealJs.Reveal.NavigateDown` | mofps_doc/export/libs/reveal.js/3.8.0/js/reveal.js:4949-4958 | a group more, else the slide below |
| `RevealJs.Reveal.NavigateNext` | mofps_doc/export/libs/reveal.js/3.8.0/js/reveal.js:4997-5025 | as specified by the function of the tour |
| `RevealJs.Reveal.NavigatePrev` | mofps_doc/export/libs/reveal.js/3.8.0/js/reveal.js:4966-4992 | as specified by the function that undoes it |
| `RevealJs.Reveal.NavigateNextAgain` | mofps_doc/export/libs/reveal.js/3.8.0/js/reveal.js:4997-5025 | the object follows the tour call by call |
| `RevealJs.Reveal.LastPast` | mofps_doc/export/libs/reveal.js/3.8.0/js/reveal.js:4981 | the last column with class past is the one before the present |
| `RevealJs.Reveal.GetSlidePastCount` | mofps_doc/export/libs/reveal.js/3.8.0/js/reveal.js:4190-4228 | the number of slides before the current one in document order, counted by classes |
| `RevealJs.Reveal.CountVisible` | mofps_doc/export/libs/reveal.js/3.8.0/js/reveal.js:4249 | the number of visible fragments |
| `RevealJs.Reveal.GetTotalSlides` | mofps_doc/export/libs/reveal.js/3.8.0/js/reveal.js:4430-4464 | the number of slides that are no stacks, counted over the document |
| `RevealJs.Reveal.GetProgress` | mofps_doc/export/libs/reveal.js/3.8.0/js/reveal.js:4236-4263 | the progress of the specification; with a single slide, not a number until a fragment is visible, then 1 |
| `RevealJs.SortAllFragments` | mofps_doc/export/libs/reveal.js/3.8.0/js/reveal.js:3095-3111 | every slide gets the numbers of sortFragments and shows nothing |
| `LocationHash.ParsePrinted` | mofps_doc/export/libs/reveal.js/3.8.0/js/reveal.js:4319-4325 | parseInt gives back a printed integer, negative ones too |
| `LocationHash.SplitJoin` | mofps_doc/export/libs/reveal.js/3.8.0/js/reveal.js:4285 | splitting at slashes takes joined parts apart again |
| `LocationHash.HashParts` | mofps_doc/export/libs/reveal.js/3.8.0/js/reveal.js:2648-2654 | the hash has one part for each index up to the last that is not left out |
| `LocationHash.ReadParts` | mofps_doc/export/libs/reveal.js/3.8.0/js/reveal.js:4317-4328 | parts left out read as zero, NaN as zero or as no fragment |
| `LocationHash.HashRoundTrip` | mofps_doc/export/libs/reveal.js/3.8.0/js/reveal.js:4280-4335 | reading a printed hash gives back all indices, zero- and one-based, trailing zeros left out, fragment -1 included |
| `LocationHash.HashNothing` | mofps_doc/export/libs/reveal.js/3.8.0/js/reveal.js:2648-2654 | the hash of the first slide is a slash alone |
| `LocationHash.HashText` | mofps_doc/export/libs/reveal.js/3.8.0/js/reveal.js:2648-2654 | every index up to the last that is not zero follows a slash, counted from one or from zero |
| `LocationHash.HashFragment` | mofps_doc/export/libs/reveal.js/3.8.0/js/reveal.js:2648-2654 | a fragment follows both indices |
| `LocationHash.PrintedDigits` | mofps_doc/export/libs/reveal.js/3.8.0/js/reveal.js:2648-2654 | numbers are printed in decimal digits |
| `LocationHash.ReadName` | mofps_doc/export/libs/reveal.js/3.8.0/js/reveal.js:4289-4313 | a hash that is no number names a slide |
| `LocationHash.ReadNothing` | mofps_doc/export/libs/reveal.js/3.8.0/js/reveal.js:4317-4328 | an empty hash is the first slide |
| `CodeLines.ReplaceLine` | mofps_doc/export/libs/highlight.js/9.12.0/reveal-code-focus-1.0.0-mod.js:59-88 | one line: reopened spans, text, closes for what is open then; a blank line touches no span |
| `CodeLines.SplitLines` | mofps_doc/export/libs/highlight.js/9.12.0/reveal-code-focus-1.0.0-mod.js:59-88 | every line replaced in turn, the text after the last break as it was |
| `CodeLines.WithLine` | mofps_doc/export/libs/highlight.js/9.12.0/reveal-code-focus-1.0.0-mod.js:72-79 | an unmatched close takes the line span and no more |
| `CodeLines.LineKeeps` | mofps_doc/export/libs/highlight.js/9.12.0/reveal-code-focus-1.0.0-mod.js:64-87 | a line is well nested if and only if no close in it is unmatched; its characters keep their spans in any case |
| `CodeLines.LinesNested` | mofps_doc/export/libs/highlight.js/9.12.0/reveal-code-focus-1.0.0-mod.js:57-88 | all lines are well nested if and only if no close before the last break is unmatched |
| `CodeLines.HeadKept` | mofps_doc/export/libs/highlight.js/9.12.0/reveal-code-focus-1.0.0-mod.js:57-88 | for any text, every visible character before the last break keeps its stack of spans |
| `CodeLines.SplitKeeps` | mofps_doc/export/libs/highlight.js/9.12.0/reveal-code-focus-1.0.0-mod.js:57-88 | for matched text ending in a break: lines well nested, every character in its old spans within one line span |
| `CodeLines.RestKept` | mofps_doc/export/libs/highlight.js/9.12.0/reveal-code-focus-1.0.0-mod.js:59 | text after the last break keeps its spans if and only if all spans open at that break are closed again before its first visible character |
| `CodeLines.LineCount` | mofps_doc/export/libs/highlight.js/9.12.0/reveal-code-focus-1.0.0-mod.js:59-88 | one line span for every line break |
| `CodeLines.LineIs` | mofps_doc/export/libs/highlight.js/9.12.0/reveal-code-focus-1.0.0-mod.js:60-87 | an empty line holds a blank and nothing else; a line without spans holds its text and nothing else |
| `CodeLines.BreaksGone` | mofps_doc/export/libs/highlight.js/9.12.0/reveal-code-focus-1.0.0-mod.js:59-88 | no line break is left |
| `SlideTables.StrictIffConsistent` | mofps_doc/export/libs/reveal.js/3.8.0/plugin/chalkboard/chalkboard.js:296-300 | a tidy table is strictly sorted if and only if fragment indices are consistently there or not per slide |
| `SlideTables.Place` | mofps_doc/export/libs/reveal.js/3.8.0/plugin/chalkboard/chalkboard.js:291-309 | the search stops at the slide or, unless legacy files are supported, at the first later one |
| `SlideTables.PlaceFinds` | mofps_doc/export/libs/reveal.js/3.8.0/plugin/chalkboard/chalkboard.js:291-301 | stopping early never misses a slide that is there, for all indices |
| `SlideTables.LocatedTidy` | mofps_doc/export/libs/reveal.js/3.8.0/plugin/chalkboard/chalkboard.js:287-313 | inserting keeps slides distinct and none before an earlier one, whether or not f is undefined |
| `SlideTables.LocatedAsMap` | mofps_doc/export/libs/reveal.js/3.8.0/plugin/chalkboard/chalkboard.js:287-313 | the table is a map: a slide found changes nothing, one not found gains an empty entry |
| `SlideTables.WrittenAsMap` | mofps_doc/export/libs/reveal.js/3.8.0/plugin/chalkboard/chalkboard.js:636-637 | an entry changed in place changes the map at its slide only |
| `SlideTables.LaterIs` | mofps_doc/export/libs/reveal.js/3.8.0/plugin/chalkboard/chalkboard.js:296-300 | by column, then row, then fragment where both have one |
| `BoardEvents.RecordedSorted` | mofps_doc/export/libs/reveal.js/3.8.0/plugin/chalkboard/chalkboard.js:632-636 | insertion keeps the events sorted whatever the new one, which follows those that began with it |
| `BoardEvents.RecordedInTime` | mofps_doc/export/libs/reveal.js/3.8.0/plugin/chalkboard/chalkboard.js:637 | the new duration exceeds the end of every event |
| `BoardEvents.RecordedKeeps` | mofps_doc/export/libs/reveal.js/3.8.0/plugin/chalkboard/chalkboard.js:632-636 | recording adds that event and loses none |
| `BoardEvents.DueIff` | mofps_doc/export/libs/reveal.js/3.8.0/plugin/chalkboard/chalkboard.js:731-733 | a segment is due when the share of the time that has passed is that of its end among all; a dab, that of its start |
| `BoardEvents.SegmentsDue` | mofps_doc/export/libs/reveal.js/3.8.0/plugin/chalkboard/chalkboard.js:731-733 | the last segment is due at the end of the curve, the first when the first of equal parts of its time is over |
| `BoardEvents.PlayedExactly` | mofps_doc/export/libs/reveal.js/3.8.0/plugin/chalkboard/chalkboard.js:723-776 | playing a curve draws the strokes whose time has come, and the others wait |
| `BoardEvents.PictureConcat` | mofps_doc/export/libs/reveal.js/3.8.0/plugin/chalkboard/chalkboard.js:655-662 | a picture is continued by events that are no clear |
| `BoardEvents.PictureAnew` | mofps_doc/export/libs/reveal.js/3.8.0/plugin/chalkboard/chalkboard.js:708-710 | and begun anew by a clear |
| `BoardEvents.PictureOne` | mofps_doc/export/libs/reveal.js/3.8.0/plugin/chalkboard/chalkboard.js:689-721 | a single event shows its strokes that are due and keeps the others waiting |
| `BoardEvents.WaitingConcat` | mofps_doc/export/libs/reveal.js/3.8.0/plugin/chalkboard/chalkboard.js:735-747 | the strokes that wait are those of one event after the other |
| `BoardEvents.ModeLast` | mofps_doc/export/libs/reveal.js/3.8.0/plugin/chalkboard/chalkboard.js:692-707 | the last event that opens or closes the chalkboard counts |
| `BoardEvents.DueInOrder` | mofps_doc/export/libs/reveal.js/3.8.0/plugin/chalkboard/chalkboard.js:731-733 | strokes of a curve are due one after the other, none after its end |
| `BoardEvents.PlayedSplits` | mofps_doc/export/libs/reveal.js/3.8.0/plugin/chalkboard/chalkboard.js:723-776 | an event plays its first strokes at once and leaves the others waiting; all at once when it is over |
| `BoardEvents.PictureOver` | mofps_doc/export/libs/reveal.js/3.8.0/plugin/chalkboard/chalkboard.js:646-676 | with all events over, the replay shows the strokes since the last clear of the list, in its order, but for single dabs |
| `BoardEvents.PictureComplete` | mofps_doc/export/libs/reveal.js/3.8.0/plugin/chalkboard/chalkboard.js:646-676 | of the strokes in the recorded list, which is ordered by the begin of events, the replay shows all if and only if no single dab of the sponge counts; what was seen when drawing is another matter |
| `Chalkboards.WithEventAsMap` | mofps_doc/export/libs/reveal.js/3.8.0/plugin/chalkboard/chalkboard.js:630-638 | recording is an update of the map at one slide |
| `BoardEvents.InsertEvent` | mofps_doc/export/libs/reveal.js/3.8.0/plugin/chalkboard/chalkboard.js:632-636 | the scan from the end finds the slot |
| `BoardEvents.DrawCurve` | mofps_doc/export/libs/reveal.js/3.8.0/plugin/chalkboard/chalkboard.js:723-751 | the i-th segment is drawn if and only if n times the time passed is at least i times the duration, and the others wait |
| `BoardEvents.EraseCurve` | mofps_doc/export/libs/reveal.js/3.8.0/plugin/chalkboard/chalkboard.js:753-776 | the same for dabs of the sponge, counted from zero |
| `BoardEvents.PlayEvent` | mofps_doc/export/libs/reveal.js/3.8.0/plugin/chalkboard/chalkboard.js:689-721 | a clear empties the canvas, curves add their strokes, open and close set the board |
| `BoardEvents.PlayBegun` | mofps_doc/export/libs/reveal.js/3.8.0/plugin/chalkboard/chalkboard.js:655-662 | exactly the events that have begun are played, in order, on a cleared canvas |
| `Chalkboards.EventsWith` | mofps_doc/export/libs/reveal.js/3.8.0/plugin/chalkboard/chalkboard.js:630-638 | recording adds the event to those of its slide, and no other slide has other events |
| `Chalkboards.EventsLocated` | mofps_doc/export/libs/reveal.js/3.8.0/plugin/chalkboard/chalkboard.js:287-313 | searching for a slide changes no events of any slide |
| `Chalkboards.LongestIs` | mofps_doc/export/libs/reveal.js/3.8.0/plugin/chalkboard/chalkboard.js:315-328 | the longest duration is that of a board, or zero |
| `Chalkboards.DurationGrows` | mofps_doc/export/libs/reveal.js/3.8.0/plugin/chalkboard/chalkboard.js:637 | a new duration is one more than the old one or than the time, whichever is later |
| `Chalkboards.EmptiedIs` | mofps_doc/export/libs/reveal.js/3.8.0/plugin/chalkboard/chalkboard.js:1239-1246 | a slide that was reset has no events and no duration, and others keep their events |
| `Chalkboards.ShowingIs` | mofps_doc/export/libs/reveal.js/3.8.0/plugin/chalkboard/chalkboard.js:655-668 | with playback on every event that has not begun has one timer, at its begin; without it there are none |
| `Drawings.ReplayFaithful` | mofps_doc/export/libs/reveal.js/3.8.0/plugin/chalkboard/chalkboard.js:646-676 | over all runs of pointer, timers and keys on a slide: when all events are over, replay shows what is on a canvas if and only if the account of that board is even, which is kept from the actions alone |
| `Drawings.RunSide` | mofps_doc/export/libs/reveal.js/3.8.0/plugin/chalkboard/chalkboard.js:779-844 | in every run the canvas is what the replay shows, or not, as the account says, followed by the strokes of the pending event that were drawn on this board |
| `Drawings.ActSide` | mofps_doc/export/libs/reveal.js/3.8.0/plugin/chalkboard/chalkboard.js:779-844 | every action keeps the account of a board true |
| `Drawings.ReleasedSide` | mofps_doc/export/libs/reveal.js/3.8.0/plugin/chalkboard/chalkboard.js:835-844 | an event that ends keeps replay and canvas equal exactly when all its strokes are on this canvas and on no other, no clear came after its begin, and it is no single dab |
| `Drawings.WipedSide` | mofps_doc/export/libs/reveal.js/3.8.0/plugin/chalkboard/chalkboard.js:1216-1225 | a clear makes canvas and replay equal, and puts the pending event, whose begin is earlier, before itself |
| `Drawings.ToggledSide` | mofps_doc/export/libs/reveal.js/3.8.0/plugin/chalkboard/chalkboard.js:1203-1214 | closing the chalkboard drops the pending event, opening it does not |
| `Drawings.ToggledIs` | mofps_doc/export/libs/reveal.js/3.8.0/plugin/chalkboard/chalkboard.js:1203-1214 | opening is recorded as opening and closing as closing, on the chalkboard, at its time |
| `Drawings.CanvasAfter` | mofps_doc/export/libs/reveal.js/3.8.0/plugin/chalkboard/chalkboard.js:779-833 | what one sees of each board after each action |
| `Drawings.RecordAfter` | mofps_doc/export/libs/reveal.js/3.8.0/plugin/chalkboard/chalkboard.js:835-844 | what each action records, and where |
| `Drawings.PendingAfter` | mofps_doc/export/libs/reveal.js/3.8.0/plugin/chalkboard/chalkboard.js:779-844 | what is pending after each action |
| `Drawings.ModeReplayed` | mofps_doc/export/libs/reveal.js/3.8.0/plugin/chalkboard/chalkboard.js:692-707 | over all runs: the recorded events lead to the board that was open when they were recorded |
| `Drawings.ReplayedRecorded` | mofps_doc/export/libs/reveal.js/3.8.0/plugin/chalkboard/chalkboard.js:630-638 | an event recorded among later ones without strokes shows at the end of the replay, or not at all when one of those is a clear |
| `Drawings.SplitUnique` | mofps_doc/export/libs/reveal.js/3.8.0/plugin/chalkboard/chalkboard.js:813-833 | strokes before a pointer event and those since can be told apart |
| `Drawings.CarefulFaithful` | mofps_doc/export/libs/reveal.js/3.8.0/plugin/chalkboard/chalkboard.js:853-1030 | when nothing but moves within the canvas falls into a stroke, no timer fires but on a touch that has not moved, and no sponge leaves the board after a single point, replay shows both canvases as they were left |
| `Drawings.ClearInStroke` | mofps_doc/export/libs/reveal.js/3.8.0/plugin/chalkboard/chalkboard.js:1216-1225 | a stroke begun at 0, a clear at 5, the button up at 10: the last segment is on the canvas, and the replay shows nothing |
| `Drawings.OpenInStroke` | mofps_doc/export/libs/reveal.js/3.8.0/plugin/chalkboard/chalkboard.js:487-500 | the chalkboard opened within a stroke on the notes: neither board is replayed as it was seen |
| `Drawings.HeldSide` | mofps_doc/export/libs/reveal.js/3.8.0/plugin/chalkboard/chalkboard.js:797-811 | a timer makes whatever is pending a sponge that begins now; strokes that cannot be the recorded ones any more, lines or a second dab or that of another finger, are noted |
| `Drawings.StrangeNotMarks` | mofps_doc/export/libs/reveal.js/3.8.0/plugin/chalkboard/chalkboard.js:797-811 | with such a stroke among them, what an event left on a canvas is never what is recorded of it |
| `Drawings.HoldInStroke` | mofps_doc/export/libs/reveal.js/3.8.0/plugin/chalkboard/chalkboard.js:797-811 | a touch that has moved before its timer fires: the line is on the canvas, and the replay wipes along it |
| `Drawings.HoldOfOther` | mofps_doc/export/libs/reveal.js/3.8.0/plugin/chalkboard/chalkboard.js:853-880 | two fingers, and the timer of the first: its sponge is on the canvas alone |
| `Drawings.PressInStroke` | mofps_doc/export/libs/reveal.js/3.8.0/plugin/chalkboard/chalkboard.js:779-794 | a second button within a stroke: what was drawn so far is never recorded |
| `Drawings.StrokeOutside` | mofps_doc/export/libs/reveal.js/3.8.0/plugin/chalkboard/chalkboard.js:813-833 | a point beyond the canvas is not drawn, but replayed |
| `Chalkboards.Chalkboard.constructor` | mofps_doc/export/libs/reveal.js/3.8.0/plugin/chalkboard/chalkboard.js:205-208 | empty boards |
| `Chalkboards.Chalkboard.GetSlideData` | mofps_doc/export/libs/reveal.js/3.8.0/plugin/chalkboard/chalkboard.js:287-313 | the entry of the slide, found or inserted; the other board is untouched |
| `Chalkboards.Chalkboard.GetSlideDuration` | mofps_doc/export/libs/reveal.js/3.8.0/plugin/chalkboard/chalkboard.js:315-328 | the longest duration of the slide on either board |
| `Chalkboards.Chalkboard.RecordEvent` | mofps_doc/export/libs/reveal.js/3.8.0/plugin/chalkboard/chalkboard.js:630-638 | one more event in order; events stay in time when the new one is over by now |
| `Chalkboards.Chalkboard.StartDrawing` | mofps_doc/export/libs/reveal.js/3.8.0/plugin/chalkboard/chalkboard.js:779-794 | the sketch is that of a press: an event is pending, and one that was pending is forgotten |
| `Chalkboards.Chalkboard.ShowSponge` | mofps_doc/export/libs/reveal.js/3.8.0/plugin/chalkboard/chalkboard.js:797-811 | the sketch is that of a timer that fires: any pending event is a sponge from now on, and its dab is where the finger of the timer came down |
| `Chalkboards.Chalkboard.DrawSegment` | mofps_doc/export/libs/reveal.js/3.8.0/plugin/chalkboard/chalkboard.js:813-833 | the sketch is that of a move: the curve grows, and a stroke is drawn within the canvas |
| `Chalkboards.Chalkboard.StopDrawing` | mofps_doc/export/libs/reveal.js/3.8.0/plugin/chalkboard/chalkboard.js:835-844 | the sketch is that of a release: recorded on the board open now unless it is a line of one point |
| `Chalkboards.Chalkboard.ClearBoard` | mofps_doc/export/libs/reveal.js/3.8.0/plugin/chalkboard/chalkboard.js:1216-1225 | the sketch is that of a clear: canvas empty, the clear recorded, the pending event untouched |
| `Chalkboards.Chalkboard.OpenChalkboard` | mofps_doc/export/libs/reveal.js/3.8.0/plugin/chalkboard/chalkboard.js:1210-1213 | mode and record of an open chalkboard, the pending event untouched |
| `Chalkboards.Chalkboard.CloseChalkboard` | mofps_doc/export/libs/reveal.js/3.8.0/plugin/chalkboard/chalkboard.js:1205-1209 | mode and record of a closed chalkboard, the pending event forgotten |
| `Chalkboards.Chalkboard.ToggleChalkboard` | mofps_doc/export/libs/reveal.js/3.8.0/plugin/chalkboard/chalkboard.js:1203-1214 | one of the two |
| `Chalkboards.Chalkboard.ToggleNotesCanvas` | mofps_doc/export/libs/reveal.js/3.8.0/plugin/chalkboard/chalkboard.js:1182-1201 | the sketch is that of the key: an open chalkboard is closed, else the notes canvas is put away, dropping what is pending, or taken out |
| `Chalkboards.Chalkboard.Handle` | mofps_doc/export/libs/reveal.js/3.8.0/plugin/chalkboard/chalkboard.js:853-1030 | every listener does to the sketch what its action says, keeps events in time, and leaves other slides alone |
| `Chalkboards.Chalkboard.ResetSlide` | mofps_doc/export/libs/reveal.js/3.8.0/plugin/chalkboard/chalkboard.js:1227-1254 | no events on either board for this slide, and nothing pending |
| `Chalkboards.Chalkboard.CueRest` | mofps_doc/export/libs/reveal.js/3.8.0/plugin/chalkboard/chalkboard.js:664-667 | with playback on, the events that have not begun get timers, in order |
| `Chalkboards.Chalkboard.PlayBoard` | mofps_doc/export/libs/reveal.js/3.8.0/plugin/chalkboard/chalkboard.js:654-668 | one board of startPlayback |
| `Chalkboards.Chalkboard.StartPlayback` | mofps_doc/export/libs/reveal.js/3.8.0/plugin/chalkboard/chalkboard.js:646-676 | both boards show what has begun; nothing is lost when playback is on |
| `Chalkboards.Chalkboard.ReplaySlide` | mofps_doc/export/libs/reveal.js/3.8.0/plugin/chalkboard/chalkboard.js:646-676 | replay at the slide duration or later: both boards show all that the replay ever shows |
| `Chalkboards.Chalkboard.ShowSlide` | mofps_doc/export/libs/reveal.js/3.8.0/plugin/chalkboard/chalkboard.js:1085-1099 | the same for another slide, and no slide has other events |
| `Chalkboards.Chalkboard.ReturnTo` | mofps_doc/export/libs/reveal.js/3.8.0/plugin/chalkboard/chalkboard.js:1085-1099 | a slide shown again after any run on it, with other slides in between: each canvas is as it was left if and only if the account of its board is even, and from there the same holds again |
| `Chalkboards.Chalkboard.Enter` | mofps_doc/export/libs/reveal.js/3.8.0/plugin/chalkboard/chalkboard.js:1085-1099 | a slide shown to draw on: what one sees is what its events show, and all of them are over |
| `Chalkboards.Chalkboard.HandleAll` | mofps_doc/export/libs/reveal.js/3.8.0/plugin/chalkboard/chalkboard.js:853-1030 | a run of listeners does to the sketch what the run says |
| `Chalkboards.Chalkboard.Visit` | mofps_doc/export/libs/reveal.js/3.8.0/plugin/chalkboard/chalkboard.js:1085-1099 | a slide shown and drawn on: the sketch is that of the run, and other slides keep their events |
| `Chalkboards.Chalkboard.DrawAndReturn` | mofps_doc/export/libs/reveal.js/3.8.0/plugin/chalkboard/chalkboard.js:1085-1099 | drawing on a slide, then on any others, and coming back: each canvas is as it was left if and only if the account of its board is even |
| `Wire.VarintBack` | demos/simple-udp/playground/cpp_pbtest.pb.cc:161 | reading a varint gives back the number and its length |
| `Wire.VarintIs` | demos/simple-udp/playground/cpp_pbtest.pb.cc:161 | a varint has its value in groups of seven bits, lowest first, no more than needed, and its top bits say where it ends |
| `Wire.VarintRead` | demos/simple-udp/playground/cpp_pbtest.pb.cc:161 | one is read if and only if a byte without the top bit comes within the limit |
| `Wire.VarintSizeExact` | demos/simple-udp/proto/gameplay.pb.cc:794-799 | the size computed from the highest bit is the number of bytes written |
| `Wire.ExtendedBack` | demos/simple-udp/proto/gameplay.pb.cc:720 | int32 and int64 values come back from their 64-bit extension |
| `Wire.SignedSizeExact` | demos/simple-udp/playground/cpp_pbtest.pb.cc:273-278 | ten bytes for a negative value, the varint size else |
| `Wire.FixedBack` | demos/simple-udp/proto/gameplay.pb.cc:473 | the four bytes of a float, lowest first, give back its pattern |
| `Wire.NextBack` | demos/simple-udp/proto/gameplay.pb.cc:464-488 | a field written is the field read, in all wire types |
| `Wire.NextFieldFront` | demos/simple-udp/proto/gameplay.pb.cc:464-488 | what follows a field does not change it |
| `Wire.ParseConcat` | demos/simple-udp/proto/gameplay.pb.cc:710-749 | for a byte string that parses to its end and any other: parsing their concatenation is parsing the second into the result of the first |
| `Wire.ParseEncoded` | demos/simple-udp/proto/gameplay.pb.cc:710-749 | parsing written fields applies them in order |
| `Messages.VectorParsed` | demos/simple-udp/proto/gameplay.pb.cc:462-540 | parsing a written vector merges it, zero coordinates left out |
| `Messages.ObjectParsed` | demos/simple-udp/proto/gameplay.pb.cc:710-777 | parsing a written object merges it; a position there already is merged into |
| `Messages.PacketParsed` | demos/simple-udp/playground/cpp_pbtest.pb.cc:151-256 | parsing a written packet merges it |
| `Messages.ConcatenatedParsed` | demos/simple-udp/proto/gameplay.pb.cc:710-777 | any number of objects written one behind the other merge in order |
| `Messages.PacketsParsed` | demos/simple-udp/playground/cpp_pbtest.pb.cc:151-256 | any number of packets written one behind the other merge in order |
| `Messages.ObjectRoundTrip` | demos/simple-udp/proto/gameplay.pb.cc:510-540 | an object comes back if and only if no coordinate is a negative zero |
| `Messages.PacketRoundTrip` | demos/simple-udp/playground/cpp_pbtest.pb.cc:151-256 | a packet always comes back |
| `Messages.VectorValid` | demos/simple-udp/proto/gameplay.pb.cc:542-572 | the size of a vector is the number of bytes written |
| `Messages.ObjectSizeExact` | demos/simple-udp/proto/gameplay.pb.cc:779-808 | the size of an object is the number of bytes written |
| `Messages.PacketSizeExact` | demos/simple-udp/playground/cpp_pbtest.pb.cc:258-308 | the size of a packet is the number of bytes written |
| `Messages.ZeroIs` | demos/simple-udp/proto/gameplay.pb.cc:517 | the two zeros of a float |
| `Messages.Tags` | demos/simple-udp/proto/gameplay.pb.cc:464-488 | the first bytes of fields |
| `Messages.VectorBytes` | demos/simple-udp/proto/gameplay.pb.cc:510-540 | the bytes of a vector: coordinates behind 13, 21 and 29, zeros left out |
| `Messages.ObjectBytes` | demos/simple-udp/proto/gameplay.pb.cc:751-777 | the bytes of an object: the id behind 8, the position behind 18 and its length |
| `Messages.PacketBytes` | demos/simple-udp/playground/cpp_pbtest.pb.cc:214-256 | the bytes of a packet: numbers behind 8, 16, 24 and 32, the payload behind 42 and its length |
| `GeneratedMessages.PBVector3.InternalParse` | demos/simple-udp/proto/gameplay.pb.cc:462-508 | fields are assigned as the specified parse does, up to where it stops, and it stops as that does |
| `GeneratedMessages.PBVector3.ParseField` | demos/simple-udp/proto/gameplay.pb.cc:464-499 | one round of the loop: the field at the position is applied, the position moves behind it |
| `GeneratedMessages.PBVector3.InternalSerialize` | demos/simple-udp/proto/gameplay.pb.cc:510-540 | the fields that are not zero, in order |
| `GeneratedMessages.PBVector3.ByteSizeLong` | demos/simple-udp/proto/gameplay.pb.cc:542-572 | the number of bytes that will be written |
| `GeneratedMessages.PBVector3.MergeFrom` | demos/simple-udp/proto/gameplay.pb.cc:589-604 | what is not zero or absent in the other message is taken |
| `GeneratedMessages.PBGameObject.InternalParse` | demos/simple-udp/proto/gameplay.pb.cc:710-749 | fields are assigned as the specified parse does, up to where it stops, and it stops as that does |
| `GeneratedMessages.PBGameObject.ParseField` | demos/simple-udp/proto/gameplay.pb.cc:712-740 | one round of the loop: the field at the position is applied, the position moves behind it |
| `GeneratedMessages.PBGameObject.InternalSerialize` | demos/simple-udp/proto/gameplay.pb.cc:751-777 | the fields that are not zero, in order |
| `GeneratedMessages.PBGameObject.ByteSizeLong` | demos/simple-udp/proto/gameplay.pb.cc:779-808 | the number of bytes that will be written |
| `GeneratedMessages.PBGameObject.MergeFrom` | demos/simple-udp/proto/gameplay.pb.cc:825-838 | what is not zero or absent in the other message is taken |
| `GeneratedMessages.NetPacket.InternalParse` | demos/simple-udp/playground/cpp_pbtest.pb.cc:151-212 | fields are assigned as the specified parse does, up to where it stops, and it stops as that does |
| `GeneratedMessages.NetPacket.ParseField` | demos/simple-udp/playground/cpp_pbtest.pb.cc:153-203 | one round of the loop: the field at the position is applied, the position moves behind it |
| `GeneratedMessages.NetPacket.InternalSerialize` | demos/simple-udp/playground/cpp_pbtest.pb.cc:214-256 | the fields that are not zero, in order |
| `GeneratedMessages.NetPacket.ByteSizeLong` | demos/simple-udp/playground/cpp_pbtest.pb.cc:258-308 | the number of bytes that will be written |
| `GeneratedMessages.NetPacket.MergeFrom` | demos/simple-udp/playground/cpp_pbtest.pb.cc:325-348 | what is not zero or absent in the other message is taken |
| `GeneratedMessages.PBGameObject.MutablePosition` | demos/simple-udp/proto/gameplay.pb.cc:727 | the position that is there, or a new zero one |
| `GeneratedMessages.PBGameObject.ParsePosition` | demos/simple-udp/proto/gameplay.pb.cc:723-729 | the nested message is parsed into the position up to its length |
| `GeneratedMessages.NetPacket.ParsePayload` | demos/simple-udp/playground/cpp_pbtest.pb.cc:187-193 | the payload is replaced by the bytes |
| `Spawning.FirstWins` | demos/simple-udp/src/game_networking/GameClient.cpp:64-83 | of packets with the same id the one before which there is no other is the first |
| `Spawning.FirstHas` | demos/simple-udp/src/game_networking/GameClient.cpp:64-83 | there is a first packet exactly for the ids in a list, and it is one of the list |
| `Spawning.ResolvedTable` | demos/simple-udp/src/game_networking/GameClient.cpp:64-83 | resolving packets adds exactly the ids not yet there, each with the object of the first packet that has it, and changes no entry |
| `Spawning.UpdatedGenuine` | demos/simple-udp/src/game_networking/GameClient.cpp:22-62 | an update stores only objects that the world has had |
| `Spawning.AnswersGenuine` | demos/simple-udp/src/game_networking/World.cpp:48-60 | the server sends only objects of its world |
| `Spawning.StartServed` | demos/simple-udp/src/game_networking/RUDPServer.cpp:91-123 | a START gives the next session id to whoever asks and tells it, and nothing else changes |
| `Spawning.QuitServed` | demos/simple-udp/src/game_networking/Session.cpp:68-90 | a QUIT ends the session that its body names and no other; the answer goes to the session that asked |
| `Spawning.EnterServed` | demos/simple-udp/src/game_networking/RUDPServer.cpp:91-123 | an ENTER changes nothing and is answered by one packet of every object, for session zero to everyone |
| `Spawning.StrangerIgnored` | demos/simple-udp/src/game_networking/RUDPServer.cpp:57-93 | a request without a known session, other than START, or without a body does nothing |
| `Spawning.OthersIgnored` | demos/simple-udp/src/game_networking/Session.cpp:45-66 | other commands do nothing |
| `Spawning.QuitIsFinal` | demos/simple-udp/src/game_networking/Session.cpp:162-168 | after a QUIT, in every run until its id is given out again, no request under that id does anything, unless it is a START |
| `Spawning.ResolvedIs` | demos/simple-udp/src/game_networking/GameClient.cpp:40-58 | what each packet does to a client |
| `Spawning.UpdatedIs` | demos/simple-udp/src/game_networking/GameClient.cpp:22-62 | an update leaves nothing pending, and adds the command to enter exactly for a client that has started |
| `Spawning.RequestsAre` | demos/simple-udp/src/game_networking/RUDPClient.cpp:230-259 | the requests of a list of commands |
| `Spawning.TickIs` | demos/simple-udp/src/game_networking/World.cpp:158-199 | a tick moves objects, keeps all else, and tells every session |
| `Spawning.StepKeeps` | demos/simple-udp/src/game_networking/RUDPServer.cpp:91-123 | every step of server, client and network keeps the invariant, and tables only grow |
| `Spawning.RunKeeps` | demos/simple-udp/src/game_networking/GameClient.cpp:64-83 | in every run, under loss, repetition, reordering and forged requests, a table grows by exactly the ids resolved, each with the object of the first packet resolved |
| `Spawning.TableIsPartOfWorld` | demos/simple-udp/src/game_networking/GameClient.cpp:64-83 | while nothing moves a table is always part of the world, and equals it if and only if a packet of every object has been resolved |
| `Spawning.FirstPositionStays` | demos/simple-udp/src/game_networking/GameClient.cpp:67-82 | in a world that moves: once packets were resolved of which the first with an id has some object, the client has that object for good |
| `Spawning.CanStart` | demos/simple-udp/src/game_networking/Session.cpp:104-124 | from any state a client can get a session |
| `Spawning.EnterIff` | demos/simple-udp/src/game_networking/RUDPClient.cpp:394-407 | in every run a client that has a session and nothing pending asks to enter if and only if a further packet is delivered to it, then it updates, then it dispatches |
| `Spawning.NoPacketNoEnter` | demos/simple-udp/src/game_networking/RUDPClient.cpp:394-407 | with nothing pending, no command to enter and nothing delivered, no run asks to enter |
| `Spawning.CanEnter` | demos/simple-udp/src/game_networking/GameClient.cpp:22-34 | a connected client is brought to enter by one more packet, honestly, and all objects are sent to it |
| `Spawning.CanDeliver` | demos/simple-udp/src/game_networking/World.cpp:62-95 | every object sent can be delivered |
| `Spawning.CanComplete` | demos/simple-udp/src/game_networking/RUDPServer.cpp:91-123 | from every state of every run there are honest steps after which the client has all objects |
| `GameClasses.GridHas` | demos/simple-udp/src/game_networking/World.cpp:30-43 | the ids are 0 to 24, each object found under its own |
| `GameClasses.GridApart` | demos/simple-udp/src/game_networking/World.cpp:36 | no two objects start at the same place |
| `GameClasses.GridPlaces` | demos/simple-udp/src/game_networking/World.cpp:30-43 | five rows of five, two apart, the first at minus sixteen in both directions |
| `GameClasses.World.Initialize` | demos/simple-udp/src/game_networking/World.cpp:30-43 | the world is that grid and the id generator is behind it |
| `GameClasses.SessionManager.CreateSession` | demos/simple-udp/src/game_networking/Session.cpp:170-183 | the next session id, modulo 2^32 |
| `GameClasses.SessionManager.RemoveSession` | demos/simple-udp/src/game_networking/Session.cpp:162-168 | that session goes, no other |
| `GameClasses.RUDPServer.OnRecvBytes` | demos/simple-udp/src/game_networking/RUDPServer.cpp:91-123 | state and answers are those of the server step; QUIT removes the session of its body and START adds the next, and neither another |
| `GameClasses.RUDPServer.ReplicateAllGameObjects` | demos/simple-udp/src/game_networking/World.cpp:48-60 | one packet of every object to the session, in any order; session zero stands for all |
| `GameClasses.RUDPServer.SpawnObject` | demos/simple-udp/src/game_networking/World.cpp:62-95 | one packet to the session, or to every session for zero |
| `GameClasses.GameClient.OnUpdate` | demos/simple-udp/src/game_networking/GameClient.cpp:22-62 | status, session id and table are those of the client step |
| `GameClasses.GameClient.ResolveGameObject` | demos/simple-udp/src/game_networking/GameClient.cpp:64-83 | an object is stored only when its id is new |
| `GameClasses.GameClient.OnCommandDispatch` | demos/simple-udp/src/game_networking/RUDPClient.cpp:230-259 | the packets of all commands, with the session id of that moment |
| `GameClasses.GameClient.PushCommandLine` | demos/simple-udp/src/game_networking/GameClient.cpp:29 | one more command |
| `GameClasses.GameClient.OnRecv` | demos/simple-udp/src/game_networking/RUDPClient.cpp:326-392 | one more pending packet |

## Left out

- Replication: string fields and struct fields, which mark when they are set, filter bits, logging. A
  reference handed out by `mutable_*` is written before the next save. The copy that `set_*` makes of an
  element is taken as atomic.
- The rest of keyed arrays: the error paths for an index that disagrees with its array, which the proved
  invariant rules out.
- Bit streams: `ArithmeticCoder`, `DumpJournal`, the growth of `OutputMemoryBitStream` (enough room is
  required), the empty `ReadBits(void*)`. The value that `InputMemoryBitStream::ReadBits` takes by value is
  returned. Assertions are those of a build without them when reading, and requirements when writing. Signed
  overflow and narrowing wrap around. A read buffer long enough for the tokens of the calls is required, as
  the code does not check.
- MemoryStreams.OutputMemoryBitStream.WriteBits: a count that reaches beyond the byte after the current one is
  excluded, as the code writes two bytes at most.
- Navigation: the default configuration only, that is no loop, right-to-left, grid, overview or print mode;
  DOM, events, media and styling. The reset of stack memories on arriving at home, which the code defers to a
  timer, is part of the step. Slides with an id and named links; start-up from a hash is `ReadURL` after the
  constructor. Fragments stand in leaf slides, not in a stack beside its slides. Fragment attributes that are
  negative or not numbers; `parseInt` of leading space or hexadecimal, which no printed hash has.
- Code lines: finding tags with the regular expression; a text is a sequence of recognised tags, characters
  and line breaks, and other markup counts as characters. The other line terminators of JavaScript, which `.`
  does not match: a carriage return that is not part of a line break, U+2028 and U+2029.
- Fragments.SortFragments: index attributes that are negative, no numbers, or 2^32 - 1 and more, which are no
  array indices.
- RevealJs.Reveal.ReadURL: hashes that name a slide by its id.
- Chalkboard: drawing on a canvas, scale and offset, printing, broadcast. Read-only mode, which is the default for
  a slide that has drawings when it is shown, as `readOnly` is not configured; drawing on after a return
  (`ReturnTo`, `DrawAndReturn`) takes `readOnly: false`. A reset and a resize end a run, and another begins. A
  stroke is a value, told from others by the event of pointer or timer that made it. The clock stands still within
  a listener, and during one call of startPlayback. What timers of playback do when they fire; stopPlayback does not
  cancel those of single strokes, as they are put into the outer list. What is drawn between a change of slide and
  its delayed replay. Pointer events that miss the open board. Which timers of touches are still running: one may
  fire at any time.
- Messages: unknown fields (parsing stops at one and says so), groups, arenas, reflection, `PBRotation`. A
  message of 2 GiB or more. The buffering of the parse context.
- Spawning: sockets, threads, the byte layout of headers, physics (a tick moves objects anywhere), the
  replication packet, which the client does not decode, heartbeat and data commands, which have no effect at
  the server. Receiving, updating and ticking are atomic. The answer to QUIT is computed from the request and
  the address of the session, as the session is gone by then.
- DirtyFlags.DirtyHistory.constructor: histories of more than 255 saves, as position and length are `uint8_t`.
- Replication.SyncMessage.MutableField: a reference that is kept and written after the next save.
- Replication.SyncMessage.MutableElem: a reference that is kept and written after the next save.
- KeyedArrays.KeyedArray.Mutable: the pointer handed out lets the key be overwritten, too; here only the payload.
- MemoryStreams.OutputMemoryBitStream.WriteAll: writes that make the buffer grow.
- GeneratedMessages.PBVector3.InternalParse: an unknown field ends the parse, where the code stores it and goes on.
- GeneratedMessages.PBGameObject.InternalParse: an unknown field ends the parse, where the code stores it and goes
  on.
- GeneratedMessages.NetPacket.InternalParse: an unknown field ends the parse, where the code stores it and goes on.
- GeneratedMessages.PBVector3.ParseField: an unknown field is reported, where the code stores it and goes on.
- GeneratedMessages.PBGameObject.ParseField: an unknown field is reported, where the code stores it and goes on.
- GeneratedMessages.NetPacket.ParseField: an unknown field is reported, where the code stores it and goes on.
- GeneratedMessages.PBGameObject.ParsePosition: on a length that cannot be read, or is greater than what
  follows, the message stays as it was, where the code has created the position and parsed what there is.
- GameClasses.GameClient.OnCommandDispatch: the packets of heartbeat and data commands.
- GameClasses.GameClient.OnRecv: decoding and validation of the header, as `OnValidate` accepts every one.
- `RawBuffer`, `BufferReader`, `BufferWriter`, `PacketBuffer`, the remaining slide plugins and the experiments
  in the playground are not part of this model.
