/**
 A replicated message: scalar fields (GETSETVAR_SYNC) and one bounded array (GETSETARRAY_SYNC)
 whose every change marks dirty flags, the flags being saved in bounded rings.  A receiver that
 has the state as of some earlier save rebuilds the present state from the flagged parts alone.

 The class does what the macros do; each of its methods is one Step of the value-level Model, and
 the replication theorems are about all runs of steps.
 */
module Replication {
  import opened DirtyFlags

  /** What is configured once for a message type. */
  datatype Shape<T> = Shape(size: nat, arrayTag: nat, capacity: nat, blank: T)

  /** A message at one moment: its values, the flags raised since the last saves, and the saves since the last init. */
  datatype Model<T> = Model(
    fields: seq<T>, elems: seq<T>,
    fieldMarks: set<nat>, elemMarks: set<nat>,
    fieldLog: seq<set<nat>>, elemLog: seq<set<nat>>)

  datatype Op<T> =
    | SetField(tag: nat, value: T, force: bool)
    | MutableField(tag: nat, value: T)      // mutable_<name>() and a write through the reference
    | SetElem(index: nat, value: T)
    | SetElemToItself(index: nat)           // set_<name>(i, name(i)): the argument is the very slot
    | MutableElem(index: nat, value: T)
    | AddElem(value: T)
    | DeleteLast
    | DeleteElem(index: nat)
    | ClearElems
    | SaveFields
    | SaveElems
    | InitFields
    | InitElems

  /** What the macros assert of their callers. */
  predicate Allowed<T>(sh: Shape<T>, m: Model<T>, op: Op<T>)
  {
    match op
    case SetField(t, _, _) => t < |m.fields| && t != sh.arrayTag
    case MutableField(t, _) => t < |m.fields| && t != sh.arrayTag
    case SetElem(i, _) => i < |m.elems|
    case SetElemToItself(i) => i < |m.elems|
    case MutableElem(i, _) => i < |m.elems|
    case DeleteElem(i) => i < |m.elems|
    case _ => true
  }

  /** The array after its element at pos was replaced by the last one and the last one dropped. */
  function SwapDelete<T>(s: seq<T>, pos: nat): seq<T>
    requires pos < |s|
  {
    s[pos := s[|s| - 1]][..|s| - 1]
  }

  ghost function Written<T>(sh: Shape<T>, m: Model<T>, elems: seq<T>, touched: set<nat>): Model<T>
  {
    m.(elems := elems, fieldMarks := m.fieldMarks + {sh.arrayTag}, elemMarks := m.elemMarks + touched)
  }

  ghost function Step<T>(sh: Shape<T>, m: Model<T>, op: Op<T>): Model<T>
    requires Allowed(sh, m, op)
  {
    match op
    case SetField(t, v, force) =>
      if v == m.fields[t] && !force then m
      else m.(fields := m.fields[t := v], fieldMarks := m.fieldMarks + {t})
    case MutableField(t, v) => m.(fields := m.fields[t := v], fieldMarks := m.fieldMarks + {t})
    case SetElem(i, v) => Written(sh, m, m.elems[i := v], {i})
    case SetElemToItself(i) => m
    case MutableElem(i, v) => Written(sh, m, m.elems[i := v], {i})
    case AddElem(v) => if |m.elems| >= sh.capacity then m else Written(sh, m, m.elems + [v], {|m.elems|})
    case DeleteLast =>
      if |m.elems| == 0 then m else Written(sh, m, m.elems[..|m.elems| - 1], {|m.elems| - 1})
    case DeleteElem(i) => Written(sh, m, SwapDelete(m.elems, i), {i, |m.elems| - 1})
    case ClearElems => if |m.elems| == 0 then m else Written(sh, m, [], Below(|m.elems|))
    case SaveFields => m.(fieldMarks := {}, fieldLog := m.fieldLog + [m.fieldMarks])
    case SaveElems => m.(elemMarks := {}, elemLog := m.elemLog + [m.elemMarks])
    case InitFields => m.(fieldLog := [])
    case InitElems => m.(elemLog := [])
  }

  /** Setting a field writes it, and marks it if and only if the value is another or marking is forced. */
  lemma {:induction false} FieldWritten<T>(sh: Shape<T>, m: Model<T>, t: nat, v: T, force: bool, u: nat)
    requires t < |m.fields| && t != sh.arrayTag && u < |m.fields|
    ensures var n := Step(sh, m, SetField(t, v, force));
      && |n.fields| == |m.fields| && n.fields[u] == (if u == t then v else m.fields[u])
      && (u in n.fieldMarks <==> u in m.fieldMarks || (u == t && (force || v != m.fields[t])))
      && n == m.(fields := n.fields, fieldMarks := n.fieldMarks)
    ensures var n := Step(sh, m, MutableField(t, v));
      && |n.fields| == |m.fields| && n.fields[u] == (if u == t then v else m.fields[u])
      && (u in n.fieldMarks <==> u in m.fieldMarks || u == t)
      && n == m.(fields := n.fields, fieldMarks := n.fieldMarks)
  {
  }

  /** How long the array is after an operation. */
  function LengthAfter<T>(sh: Shape<T>, n: nat, op: Op<T>): int
  {
    match op
    case AddElem(_) => if n < sh.capacity then n + 1 else n
    case DeleteLast => if n > 0 then n - 1 else 0
    case DeleteElem(_) => n - 1
    case ClearElems => 0
    case _ => n
  }

  /** Each element is the one written, the last one in place of one deleted, or the one that was there. */
  lemma {:induction false} ElemWritten<T>(sh: Shape<T>, m: Model<T>, op: Op<T>, j: nat)
    requires Allowed(sh, m, op)
    ensures var n := Step(sh, m, op);
      && |n.elems| == LengthAfter(sh, |m.elems|, op)
      && (j < |n.elems| ==>
            n.elems[j] ==
            if (op.SetElem? || op.MutableElem?) && op.index == j then op.value
            else if op.AddElem? && j == |m.elems| then op.value
            else if op.DeleteElem? && op.index == j then m.elems[|m.elems| - 1]
            else m.elems[j])
  {
  }

  /** Whether an operation writes, adds or frees the slot j of an array of length n. */
  predicate Touches<T>(sh: Shape<T>, n: nat, op: Op<T>, j: nat)
  {
    match op
    case SetElem(i, _) => j == i
    case MutableElem(i, _) => j == i
    case AddElem(_) => j == n < sh.capacity
    case DeleteLast => n > 0 && j == n - 1
    case DeleteElem(i) => j == i || (n > 0 && j == n - 1)
    case ClearElems => j < n
    case _ => false
  }

  /** An element is marked exactly when it was, or is touched; the array field exactly when some element is touched. */
  lemma {:induction false} ElemMarked<T>(sh: Shape<T>, m: Model<T>, op: Op<T>, j: nat)
    requires Allowed(sh, m, op)
    ensures var n := Step(sh, m, op);
      && (j in n.elemMarks <==> !op.SaveElems? && (j in m.elemMarks || Touches(sh, |m.elems|, op, j)))
      && (!op.SetField? && !op.MutableField? ==>
            (j in n.fieldMarks <==>
             !op.SaveFields? && (j in m.fieldMarks
                                 || (j == sh.arrayTag && exists i :: Touches(sh, |m.elems|, op, i)))))
  {
    var n := |m.elems|;
    assert IsBelow(j, n) <==> j < n;
    assert op.SetElem? || op.MutableElem? || op.DeleteElem? ==> Touches(sh, n, op, op.index);
    assert op.AddElem? && n < sh.capacity ==> Touches(sh, n, op, n);
    assert (op.DeleteLast? || op.ClearElems?) && n > 0 ==> Touches(sh, n, op, n - 1);
  }

  /** Only saves and inits change the logs: a save adds the marks there are, an init starts anew. */
  lemma {:induction false} LogsKept<T>(sh: Shape<T>, m: Model<T>, op: Op<T>)
    requires Allowed(sh, m, op)
    ensures Step(sh, m, op).elemLog ==
            if op.SaveElems? then m.elemLog + [m.elemMarks] else if op.InitElems? then [] else m.elemLog
    ensures Step(sh, m, op).fieldLog ==
            if op.SaveFields? then m.fieldLog + [m.fieldMarks] else if op.InitFields? then [] else m.fieldLog
    ensures !op.SetField? && !op.MutableField? ==> Step(sh, m, op).fields == m.fields
  {
  }

  // ---- runs ----

  /** A run so far: the message now, and what it was after the last init and after each save since. */
  datatype Run<T> = Run(now: Model<T>, fieldSnaps: seq<Model<T>>, elemSnaps: seq<seq<T>>)

  ghost function Advance<T>(sh: Shape<T>, r: Run<T>, op: Op<T>): Run<T>
    requires Allowed(sh, r.now, op)
  {
    var now := Step(sh, r.now, op);
    match op
    case SaveFields => Run(now, r.fieldSnaps + [now], r.elemSnaps)
    case SaveElems => Run(now, r.fieldSnaps, r.elemSnaps + [now.elems])
    case InitFields => Run(now, [now], r.elemSnaps)
    case InitElems => Run(now, r.fieldSnaps, [now.elems])
    case _ => r.(now := now)
  }

  ghost function Start<T>(fields: seq<T>): Run<T>
  {
    var m := Model(fields, [], {}, {}, [], []);
    Run(m, [m], [[]])
  }

  ghost predicate AllAllowed<T>(sh: Shape<T>, r: Run<T>, ops: seq<Op<T>>)
    decreases |ops|
  {
    ops == [] || (Allowed(sh, r.now, ops[0]) && AllAllowed(sh, Advance(sh, r, ops[0]), ops[1..]))
  }

  ghost function Play<T>(sh: Shape<T>, r: Run<T>, ops: seq<Op<T>>): Run<T>
    requires AllAllowed(sh, r, ops)
    decreases |ops|
  {
    if ops == [] then r else Play(sh, Advance(sh, r, ops[0]), ops[1..])
  }

  // ---- what the flags promise ----

  /** Every element of b whose flag is down is the element that a had at that place. */
  ghost predicate Covers<T>(a: seq<T>, b: seq<T>, flags: set<nat>)
  {
    forall i: nat :: i < |b| && i !in flags ==> i < |a| && a[i] == b[i]
  }

  /** Every field whose tag is down is unchanged from a to b, the whole array counting as one field. */
  ghost predicate FieldsCovered<T>(sh: Shape<T>, a: Model<T>, b: Model<T>, flags: set<nat>)
  {
    && |a.fields| == |b.fields|
    && (forall t: nat :: t < |b.fields| && t != sh.arrayTag && t !in flags ==> a.fields[t] == b.fields[t])
    && (sh.arrayTag !in flags ==> a.elems == b.elems)
  }

  ghost predicate Tracked<T>(sh: Shape<T>, r: Run<T>)
  {
    && |r.now.fields| == sh.size > sh.arrayTag && |r.now.elems| <= sh.capacity
    && |r.elemSnaps| == |r.now.elemLog| + 1
    && (forall j: nat :: j < |r.now.elemLog| ==> Covers(r.elemSnaps[j], r.elemSnaps[j + 1], r.now.elemLog[j]))
    && Covers(r.elemSnaps[|r.now.elemLog|], r.now.elems, r.now.elemMarks)
    && |r.fieldSnaps| == |r.now.fieldLog| + 1
    && (forall j: nat :: j < |r.now.fieldLog| ==>
          FieldsCovered(sh, r.fieldSnaps[j], r.fieldSnaps[j + 1], r.now.fieldLog[j]))
    && FieldsCovered(sh, r.fieldSnaps[|r.now.fieldLog|], r.now, r.now.fieldMarks)
  }

  lemma {:induction false} AdvanceTracked<T>(sh: Shape<T>, r: Run<T>, op: Op<T>)
    requires Tracked(sh, r) && Allowed(sh, r.now, op)
    ensures Tracked(sh, Advance(sh, r, op))
  {
    var r' := Advance(sh, r, op);
    if op.ClearElems? {
    } else {
      assert Covers(r'.elemSnaps[|r'.now.elemLog|], r'.now.elems, r'.now.elemMarks);
    }
    assert FieldsCovered(sh, r'.fieldSnaps[|r'.now.fieldLog|], r'.now, r'.now.fieldMarks);
  }

  /** Every run keeps the promise. */
  lemma {:induction false} PlayTracked<T>(sh: Shape<T>, r: Run<T>, ops: seq<Op<T>>)
    requires Tracked(sh, r) && AllAllowed(sh, r, ops)
    ensures Tracked(sh, Play(sh, r, ops))
    decreases |ops|
  {
    if ops != [] {
      AdvanceTracked(sh, r, ops[0]);
      PlayTracked(sh, Advance(sh, r, ops[0]), ops[1..]);
    }
  }

  lemma {:induction false} ElemsCovered<T>(sh: Shape<T>, r: Run<T>, k: nat)
    requires Tracked(sh, r) && k <= |r.now.elemLog|
    ensures Covers(r.elemSnaps[|r.now.elemLog| - k], r.elemSnaps[|r.now.elemLog|], UnionLast(r.now.elemLog, k))
  {
    if k > 0 {
      ElemsCovered(sh, r, k - 1);
      var a := |r.now.elemLog| - k;
      assert Covers(r.elemSnaps[a], r.elemSnaps[a + 1], r.now.elemLog[a]);
    }
  }

  lemma {:induction false} SnapsCovered<T>(sh: Shape<T>, r: Run<T>, k: nat)
    requires Tracked(sh, r) && k <= |r.now.fieldLog|
    ensures var n := |r.now.fieldLog|;
      FieldsCovered(sh, r.fieldSnaps[n - k], r.fieldSnaps[n], UnionLast(r.now.fieldLog, k))
  {
    if k > 0 {
      SnapsCovered(sh, r, k - 1);
      var a := |r.now.fieldLog| - k;
      assert FieldsCovered(sh, r.fieldSnaps[a], r.fieldSnaps[a + 1], r.now.fieldLog[a]);
    }
  }

  /** What the receiver ends with: its own element where the flag is down, the sent one where it is up. */
  function Rebuild<T>(have: seq<T>, length: nat, flags: set<nat>, sent: seq<T>, blank: T): seq<T>
    requires length <= |sent|
  {
    seq(length, i requires 0 <= i < length =>
      if i in flags then sent[i] else if i < |have| then have[i] else blank)
  }

  /** Only a flagged element is the sender's; another is what the receiver had there, or blank when it had nothing. */
  lemma {:induction false} RebuildIs<T>(have: seq<T>, length: nat, flags: set<nat>, sent: seq<T>, blank: T, i: nat)
    requires length <= |sent| && i < length
    ensures var r := Rebuild(have, length, flags, sent, blank);
      |r| == length && r[i] == if i in flags then sent[i] else if i < |have| then have[i] else blank
  {
  }

  /**
   Delta replication of the array.  After any run whose last step was a save, a receiver that holds the
   array as of k saves ago (or, when that lies before the last init, anything at all) and gets the
   present length and the elements flagged by a query for k saves, has the present array exactly,
   whatever number of saves the ring retains.
   */
  lemma {:induction false} ArrayDelta<T>(sh: Shape<T>, fields: seq<T>, ops: seq<Op<T>>, historySize: nat,
          k: nat, have: seq<T>)
    requires |fields| == sh.size > sh.arrayTag
    requires AllAllowed(sh, Start(fields), ops + [SaveElems]) && k >= 1
    requires var r := Play(sh, Start(fields), ops + [SaveElems]);
      k <= |r.now.elemLog| && |r.elemSnaps| == |r.now.elemLog| + 1 ==> have == r.elemSnaps[|r.now.elemLog| - k]
    ensures var now := Play(sh, Start(fields), ops + [SaveElems]).now;
      Rebuild(have, |now.elems|, Answer(now.elemLog, historySize, sh.capacity, k), now.elems, sh.blank) == now.elems
  {
    var r := Play(sh, Start(fields), ops + [SaveElems]);
    PlayTracked(sh, Start(fields), ops + [SaveElems]);
    PlayLast(sh, Start(fields), ops, SaveElems);
    var n := |r.now.elemLog|;
    var flags := Answer(r.now.elemLog, historySize, sh.capacity, k);
    if k <= n && k <= historySize {
      ElemsCovered(sh, r, k);
      assert Covers(have, r.now.elems, flags);
    } else {
      AllMarksHas(sh.capacity);
    }
  }

  /**
   The same for the message: after any run ending in a save, a scalar field, or the array as a whole,
   that changed within the last k saves has its tag in the answer to a query for k.
   */
  lemma {:induction false} FieldDelta<T>(sh: Shape<T>, fields: seq<T>, ops: seq<Op<T>>, historySize: nat, k: nat)
    requires |fields| == sh.size > sh.arrayTag
    requires AllAllowed(sh, Start(fields), ops + [SaveFields])
    ensures var r := Play(sh, Start(fields), ops + [SaveFields]);
      && |r.fieldSnaps| == |r.now.fieldLog| + 1
      && (k <= |r.now.fieldLog| ==>
            FieldsCovered(sh, r.fieldSnaps[|r.now.fieldLog| - k], r.now,
                          Answer(r.now.fieldLog, historySize, sh.size, k)))
  {
    var r := Play(sh, Start(fields), ops + [SaveFields]);
    PlayTracked(sh, Start(fields), ops + [SaveFields]);
    PlayLast(sh, Start(fields), ops, SaveFields);
    if k <= |r.now.fieldLog| {
      SnapsCovered(sh, r, k);
      AllMarksHas(sh.size);
    }
  }

  /** A run that ends in a save ends in a state that the last snapshot shows. */
  lemma {:induction false} PlayLast<T>(sh: Shape<T>, r: Run<T>, ops: seq<Op<T>>, op: Op<T>)
    requires AllAllowed(sh, r, ops + [op])
    requires |r.elemSnaps| > 0 && |r.fieldSnaps| > 0
    ensures AllAllowed(sh, r, ops)
    ensures var before := Play(sh, r, ops);
      Allowed(sh, before.now, op) && Play(sh, r, ops + [op]) == Advance(sh, before, op)
    decreases |ops|
  {
    if ops == [] {
      assert ops + [op] == [op];
      var s := Advance(sh, r, op);
      assert Play(sh, s, []) == s;
    } else {
      assert (ops + [op])[1..] == ops[1..] + [op];
      PlayLast(sh, Advance(sh, r, ops[0]), ops[1..], op);
    }
  }

  /** delete_<name> as the macro composes it: the last element is written over the hole, then dropped. */
  lemma {:induction false} DeleteSteps<T>(sh: Shape<T>, m: Model<T>, i: nat)
    requires i < |m.elems|
    ensures var last := |m.elems| - 1;
      var set1 := if i == last then SetElemToItself(i) else Op.SetElem(i, m.elems[last]);
      Step(sh, Step(sh, m, set1), DeleteLast) == Step(sh, m, Op.DeleteElem(i))
  {
    var last := |m.elems| - 1;
    if i == last {
      assert m.elems[i := m.elems[last]] == m.elems;
      assert {i, last} == {last};
    } else {
      assert m.elemMarks + {i} + {last} == m.elemMarks + {i, last};
      assert m.fieldMarks + {sh.arrayTag} + {sh.arrayTag} == m.fieldMarks + {sh.arrayTag};
    }
  }

  // ---- the class ----

  class SyncMessage<T(==)> {
    const shape: Shape<T>
    const bits: DirtyHistory       // one flag per field tag
    const elemBits: DirtyHistory   // one flag per array element
    const data: array<T>
    var fields: seq<T>             // the scalar fields by tag (the entry at the array's tag is not used)
    var len: nat

    /** The array as its users see it. */
    ghost function Elems(): seq<T>
      reads this, data
      requires len <= data.Length
    {
      data[..len]
    }

    ghost function Value(): Model<T>
      reads this, data, bits, bits.dirty.data, elemBits, elemBits.dirty.data
      requires len <= data.Length
    {
      Model(fields, Elems(), bits.dirty.Marks(), elemBits.dirty.Marks(), bits.log, elemBits.log)
    }

    ghost predicate Valid()
      reads this, data, bits, bits.dirty.data, elemBits, elemBits.dirty.data
    {
      && bits != elemBits && bits.dirty.data != elemBits.dirty.data
      && data as object != bits.dirty.data && data as object != elemBits.dirty.data
      && bits.Valid() && elemBits.Valid()
      && elemBits.dirty.size == data.Length == shape.capacity
      && shape.arrayTag < bits.dirty.size == |fields| == shape.size
      && len <= data.Length
    }

    constructor (shape: Shape<T>, fields: seq<T>, historySize: nat)
      requires shape.arrayTag < |fields| == shape.size && shape.capacity > 0 && historySize <= 255
      ensures Valid() && Value() == Start(fields).now && this.shape == shape
      ensures Value() == Model(fields, [], {}, {}, [], [])
      ensures fresh(data) && fresh(bits) && fresh(bits.dirty.data) && fresh(elemBits) && fresh(elemBits.dirty.data)
      ensures bits.historySize == elemBits.historySize == historySize
    {
      this.shape := shape;
      bits := new DirtyHistory(shape.size, historySize);
      elemBits := new DirtyHistory(shape.capacity, historySize);
      data := new T[shape.capacity](_ => shape.blank);
      this.fields, len := fields, 0;
    }

    predicate InRange(index: int)
      reads this
    {
      0 <= index < len && index < data.Length
    }

    // ---- scalar fields ----

    method SetField(tag: nat, newval: T, force: bool)
      requires Valid() && tag < |fields| && tag != shape.arrayTag
      modifies this, bits.dirty.data
      ensures Valid() && Value() == Step(shape, old(Value()), Op.SetField(tag, newval, force))
    {
      if newval == fields[tag] {
        if force {
          bits.MarkDirty(tag);
        }
        return;
      }
      fields := fields[tag := newval];
      bits.MarkDirty(tag);
    }

    method MutableField(tag: nat, newval: T)
      requires Valid() && tag < |fields| && tag != shape.arrayTag
      modifies this, bits.dirty.data
      ensures Valid() && Value() == Step(shape, old(Value()), Op.MutableField(tag, newval))
    {
      bits.MarkDirty(tag);
      fields := fields[tag := newval];
    }

    // ---- the array ----

    /** The set_dirty_<name>() and set_dirty_<name>(index) calls that go with every write of an element. */
    method Touch(index: nat)
      requires Valid() && index < data.Length
      modifies bits.dirty.data, elemBits.dirty.data
      ensures Valid()
      ensures Value() == Written(shape, old(Value()), Elems(), {index})
    {
      bits.MarkDirty(shape.arrayTag);
      elemBits.MarkDirty(index);
    }

    /** set_<name>(index, newval) for an argument that is not a reference to the slot itself. */
    method SetElem(index: nat, newval: T)
      requires Valid() && InRange(index)
      modifies data, bits.dirty.data, elemBits.dirty.data
      ensures Valid() && Value() == Step(shape, old(Value()), Op.SetElem(index, newval))
    {
      Touch(index);
      data[index] := newval;
      assert Elems() == old(Elems())[index := newval];
    }

    /** set_<name>(index, name(source)): nothing happens when the reference is to the slot itself. */
    method SetElemFrom(index: nat, source: nat)
      requires Valid() && InRange(index) && InRange(source)
      modifies data, bits.dirty.data, elemBits.dirty.data
      ensures Valid()
      ensures Value() == Step(shape, old(Value()),
                if index == source then Op.SetElemToItself(index) else Op.SetElem(index, old(Elems())[source]))
    {
      if index == source {
        return;
      }
      SetElem(index, data[source]);
    }

    method MutableElem(index: nat, newval: T)
      requires Valid() && InRange(index)
      modifies data, bits.dirty.data, elemBits.dirty.data
      ensures Valid() && Value() == Step(shape, old(Value()), Op.MutableElem(index, newval))
    {
      Touch(index);
      data[index] := newval;
      assert Elems() == old(Elems())[index := newval];
    }

    /** Either add_<name>: the new slot is zeroed, then filled from the argument or through the pointer handed out. */
    method AddElem(newval: T) returns (ok: bool)
      requires Valid()
      modifies this, data, bits.dirty.data, elemBits.dirty.data
      ensures Valid() && Value() == Step(shape, old(Value()), Op.AddElem(newval))
      ensures ok <==> old(len) < data.Length
    {
      if len >= data.Length {
        return false;
      }
      var index := len;
      len := len + 1;
      Touch(index);
      data[index] := shape.blank;
      data[index] := newval;
      assert Elems() == old(Elems()) + [newval];
      return true;
    }

    method DeleteLast()
      requires Valid()
      modifies this, data, bits.dirty.data, elemBits.dirty.data
      ensures Valid() && Value() == Step(shape, old(Value()), Op.DeleteLast)
      ensures old(len) > 0 ==> len < data.Length && data[len] == shape.blank
    {
      if len <= 0 {
        return;
      }
      Touch(len - 1);
      data[len - 1] := shape.blank;
      len := len - 1;
      assert Elems() == old(Elems())[..len];
    }

    /** The last element moves into the hole. */
    method DeleteElem(index: nat)
      requires Valid() && InRange(index)
      modifies this, data, bits.dirty.data, elemBits.dirty.data
      ensures Valid() && Value() == Step(shape, old(Value()), Op.DeleteElem(index))
      ensures len < data.Length && data[len] == shape.blank
    {
      DeleteSteps(shape, Value(), index);
      SetElemFrom(index, len - 1);
      assert len == |old(Elems())|;
      DeleteLast();
    }

    method ClearElems()
      requires Valid()
      modifies this, bits.dirty.data, elemBits.dirty.data
      ensures Valid() && Value() == Step(shape, old(Value()), Op.ClearElems)
    {
      if len <= 0 {
        return;
      }
      bits.MarkDirty(shape.arrayTag);
      for i := 0 to len
        invariant Valid() && len == old(len)
        invariant Value() == Written(shape, old(Value()), old(Elems()), Below(i))
      {
        elemBits.MarkDirty(i);
        BelowNext(i);
      }
      len := 0;
    }

    // ---- saves and queries ----

    method SaveFields()
      requires Valid()
      modifies bits, bits.dirty.data
      ensures Valid() && Value() == Step(shape, old(Value()), Op.SaveFields)
    {
      bits.Save();
    }

    method SaveElems()
      requires Valid()
      modifies elemBits, elemBits.dirty.data
      ensures Valid() && Value() == Step(shape, old(Value()), Op.SaveElems)
    {
      elemBits.Save();
    }

    method InitFields()
      requires Valid()
      modifies bits
      ensures Valid() && Value() == Step(shape, old(Value()), Op.InitFields)
    {
      bits.Init();
    }

    method InitElems()
      requires Valid()
      modifies elemBits
      ensures Valid() && Value() == Step(shape, old(Value()), Op.InitElems)
    {
      elemBits.Init();
    }

    /**
     The sender's half of delta replication: just after a save that ends the run ops, the flags that
     get_dirty_bits_history computes let a receiver with the array as of k saves ago rebuild it.
     */
    method ElemDelta(k: nat, flags: DirtyBits, ghost start: seq<T>, ghost ops: seq<Op<T>>, ghost have: seq<T>)
      requires Valid() && k >= 1
      requires |start| == shape.size && AllAllowed(shape, Start(start), ops + [Op.SaveElems])
      requires Value() == Play(shape, Start(start), ops + [Op.SaveElems]).now
      requires var r := Play(shape, Start(start), ops + [Op.SaveElems]);
        k <= |r.now.elemLog| && |r.elemSnaps| == |r.now.elemLog| + 1 ==> have == r.elemSnaps[|r.now.elemLog| - k]
      requires flags.Valid() && flags.size == data.Length && flags.Marks() == {}
      requires flags.data as object != data && flags.data != bits.dirty.data && flags.data != elemBits.dirty.data
      modifies flags.data
      ensures Valid() && Value() == old(Value())
      ensures Rebuild(have, len, flags.Marks(), Elems(), shape.blank) == Elems()
    {
      elemBits.GetHistory(k, flags);
      ArrayDelta(shape, start, ops, elemBits.historySize, k, have);
    }
  }
}
