/**
 A replicated array of keyed elements with a hash index beside it (GETSET_PBPMAP): the index maps
 a key to the slot of its element, and erasing moves the last element into the hole.
 */
module KeyedArrays {
  import opened Options
  import opened DirtyFlags
  import opened Replication

  datatype Elem<K, V> = Elem(key: K, payload: V)

  /** The index maps each key to exactly the slot whose element carries that key. */
  ghost predicate Indexed<K, V>(elems: seq<Elem<K, V>>, index: map<K, int>)
  {
    && (forall k :: k in index ==> 0 <= index[k] < |elems| && elems[index[k]].key == k)
    && (forall i :: 0 <= i < |elems| ==> elems[i].key in index && index[elems[i].key] == i)
  }

  ghost predicate DistinctKeys<K, V>(elems: seq<Elem<K, V>>)
  {
    forall i, j :: 0 <= i < j < |elems| ==> elems[i].key != elems[j].key
  }

  /** The plain finite map that array and index represent together. */
  ghost function AsMap<K, V>(elems: seq<Elem<K, V>>, index: map<K, int>): map<K, V>
    requires Indexed(elems, index)
  {
    map k | k in index :: elems[index[k]].payload
  }

  /** Keys are distinct, and index and array have the same size. */
  lemma {:induction false} IndexedSizes<K, V>(elems: seq<Elem<K, V>>, index: map<K, int>)
    requires Indexed(elems, index)
    ensures DistinctKeys(elems) && |index| == |elems|
  {
    if elems == [] {
      assert index.Keys == {};
    } else {
      var n := |elems| - 1;
      var k := elems[n].key;
      var rest := index - {k};
      assert Indexed(elems[..n], rest) by {
        assert forall x :: x in rest ==> index[x] != n;
      }
      IndexedSizes(elems[..n], rest);
      assert index.Keys == rest.Keys + {k};
    }
  }

  /** A new key at the end of the array. */
  lemma {:induction false} InsertIndexed<K, V>(elems: seq<Elem<K, V>>, index: map<K, int>, e: Elem<K, V>)
    requires Indexed(elems, index) && e.key !in index
    ensures Indexed(elems + [e], index[e.key := |elems|])
    ensures AsMap(elems + [e], index[e.key := |elems|]) == AsMap(elems, index)[e.key := e.payload]
  {
  }

  /** A payload overwritten in place. */
  lemma {:induction false} WriteIndexed<K, V>(elems: seq<Elem<K, V>>, index: map<K, int>, key: K, payload: V)
    requires Indexed(elems, index) && key in index
    ensures Indexed(elems[index[key] := Elem(key, payload)], index)
    ensures AsMap(elems[index[key] := Elem(key, payload)], index) == AsMap(elems, index)[key := payload]
  {
  }

  /** The index after an erase: the element now at pos, if any, is re-pointed before the key goes. */
  function EraseIndex<K, V>(elems: seq<Elem<K, V>>, index: map<K, int>, pos: nat, key: K): map<K, int>
  {
    (if pos < |elems| then index[elems[pos].key := pos] else index) - {key}
  }

  lemma {:induction false} EraseIndexed<K, V>(elems: seq<Elem<K, V>>, elems': seq<Elem<K, V>>, index: map<K,
          int>, pos: nat)
    requires Indexed(elems, index) && pos < |elems| && elems' == SwapDelete(elems, pos)
    ensures Indexed(elems', EraseIndex(elems', index, pos, elems[pos].key))
    ensures AsMap(elems', EraseIndex(elems', index, pos, elems[pos].key)) == AsMap(elems, index) - {elems[pos].key}
  {
    var key, last := elems[pos].key, |elems| - 1;
    var index' := EraseIndex(elems', index, pos, key);
    assert index[elems[last].key] == last;
    forall k | k in index' ensures 0 <= index'[k] < |elems'| && elems'[index'[k]] == elems[index[k]] {
      if pos < last && k == elems[last].key {
      } else {
        assert index[k] != pos && index[k] != last;
      }
    }
    forall i | 0 <= i < |elems'| ensures elems'[i].key in index' && index'[elems'[i].key] == i {
      if i != pos {
        assert elems'[i] == elems[i] && elems[i].key != elems[last].key;
      }
    }
  }

  /** The index that restore builds from the first n elements: insert never overwrites. */
  function RestoredIndex<K(==), V>(elems: seq<Elem<K, V>>, n: nat): map<K, int>
    requires n <= |elems|
  {
    if n == 0 then map[]
    else
      var m := RestoredIndex(elems, n - 1);
      if elems[n - 1].key in m then m else m[elems[n - 1].key := n - 1]
  }

  lemma {:induction false} RestoredFirst<K, V>(elems: seq<Elem<K, V>>, n: nat)
    requires n <= |elems|
    ensures var m := RestoredIndex(elems, n);
      && (forall k :: k in m ==> 0 <= m[k] < n && elems[m[k]].key == k)
      && (forall i :: 0 <= i < n ==> elems[i].key in m && m[elems[i].key] <= i)
  {
    if n > 0 {
      RestoredFirst(elems, n - 1);
    }
  }

  /** Rebuilding the index from an array works exactly when the keys of the array are distinct. */
  lemma {:induction false} RestoreIndexed<K, V>(elems: seq<Elem<K, V>>)
    ensures Indexed(elems, RestoredIndex(elems, |elems|)) <==> DistinctKeys(elems)
  {
    var m := RestoredIndex(elems, |elems|);
    RestoredFirst(elems, |elems|);
    if Indexed(elems, m) {
      IndexedSizes(elems, m);
    }
    if DistinctKeys(elems) {
      forall i | 0 <= i < |elems| ensures m[elems[i].key] == i {
        assert elems[m[elems[i].key]].key == elems[i].key;
      }
    }
  }

  /** An array has one exact index at most. */
  lemma {:induction false} IndexUnique<K, V>(elems: seq<Elem<K, V>>, a: map<K, int>, b: map<K, int>)
    requires Indexed(elems, a) && Indexed(elems, b)
    ensures a == b
  {
    assert forall k :: k in a ==> elems[a[k]].key == k;
    assert forall k :: k in b ==> elems[b[k]].key == k;
    assert a.Keys == b.Keys;
  }

  /**
   Replication of the map: a receiver that rebuilds the array from the one of k saves ago, by the elements that
   are flagged, and then restores its index, has the sender's index and plain map exactly.
   */
  lemma {:induction false} MapDelta<K, V>(sh: Shape<Elem<K, V>>, fields: seq<Elem<K, V>>, ops: seq<Op<Elem<K, V>>>,
          historySize: nat, k: nat, have: seq<Elem<K, V>>, index: map<K, int>)
    requires |fields| == sh.size > sh.arrayTag
    requires AllAllowed(sh, Start(fields), ops + [SaveElems]) && k >= 1
    requires var r := Play(sh, Start(fields), ops + [SaveElems]);
      k <= |r.now.elemLog| && |r.elemSnaps| == |r.now.elemLog| + 1 ==> have == r.elemSnaps[|r.now.elemLog| - k]
    requires Indexed(Play(sh, Start(fields), ops + [SaveElems]).now.elems, index)
    ensures var now := Play(sh, Start(fields), ops + [SaveElems]).now;
      var got := Rebuild(have, |now.elems|, Answer(now.elemLog, historySize, sh.capacity, k), now.elems, sh.blank);
      var restored := RestoredIndex(got, |got|);
      restored == index && Indexed(got, restored) && AsMap(got, restored) == AsMap(now.elems, index)
  {
    var elems := Play(sh, Start(fields), ops + [SaveElems]).now.elems;
    ArrayDelta(sh, fields, ops, historySize, k, have);
    IndexedSizes(elems, index);
    RestoreIndexed(elems);
    IndexUnique(elems, RestoredIndex(elems, |elems|), index);
  }

  /** A plain map after insert and, if the caller writes through the pointer, the write. */
  function Inserted<K, V>(m: map<K, V>, key: K, write: Option<V>, blank: V): map<K, V>
  {
    match write
    case Some(v) => m[key := v]
    case None => if key in m then m else m[key := blank]
  }

  /**
   The key is there afterwards, with what was written, else with what it had, else blank; other keys are
   untouched.
   */
  lemma {:induction false} InsertedIs<K, V>(m: map<K, V>, key: K, write: Option<V>, blank: V)
    ensures var n := Inserted(m, key, write, blank);
      && n.Keys == m.Keys + {key} && n - {key} == m - {key}
      && n[key] == if write.Some? then write.value else if key in m then m[key] else blank
  {
  }

  class KeyedArray<K(==), V(==)> {
    const pbp: SyncMessage<Elem<K, V>>
    var index: map<K, int>
    ghost var contents: map<K, V>   // the plain map that the pair stands for

    ghost predicate Valid()
      reads this, pbp, pbp.data, pbp.bits, pbp.bits.dirty.data, pbp.elemBits, pbp.elemBits.dirty.data
    {
      && pbp.Valid()
      && Indexed(pbp.Elems(), index)
      && contents == AsMap(pbp.Elems(), index)
    }

    /** OnRestore: the index is rebuilt from whatever array is there. */
    constructor (pbp: SyncMessage<Elem<K, V>>)
      requires pbp.Valid()
      ensures this.pbp == pbp && pbp.Valid()
      ensures Valid() <==> DistinctKeys(pbp.Elems())
    {
      this.pbp := pbp;
      index, contents := map[], map[];
      new;
      Restore();
    }

    method Restore()
      requires pbp.Valid()
      modifies this
      ensures index == RestoredIndex(pbp.Elems(), pbp.len)
      ensures Valid() <==> DistinctKeys(pbp.Elems())
    {
      index := map[];
      for i := 0 to pbp.len
        invariant index == RestoredIndex(pbp.Elems(), i)
      {
        if pbp.data[i].key !in index {
          index := index[pbp.data[i].key := i];
        }
      }
      RestoreIndexed(pbp.Elems());
      contents := if Indexed(pbp.Elems(), index) then AsMap(pbp.Elems(), index) else map[];
    }

    method Has(key: K) returns (b: bool)
      requires Valid()
      ensures b <==> key in contents
    {
      b := key in index;
    }

    method Size() returns (n: int)
      requires Valid()
      ensures n == |contents| == pbp.len <= pbp.data.Length
    {
      n := |index|;
      IndexedSizes(pbp.Elems(), index);
      assert contents.Keys == index.Keys;
    }

    method Find(key: K) returns (r: Option<V>)
      requires Valid()
      ensures r == if key in contents then Some(contents[key]) else None
    {
      if key !in index {
        return None;
      }
      if !pbp.InRange(index[key]) {
        return None;
      }
      return Some(pbp.data[index[key]].payload);
    }

    /** mutable_<field>(key) and, when it yields a pointer, a write of the payload through it. */
    method Mutable(key: K, write: Option<V>) returns (ok: bool)
      requires Valid()
      modifies this`contents, pbp.data, pbp.bits.dirty.data, pbp.elemBits.dirty.data
      ensures Valid() && index == old(index)
      ensures ok <==> key in old(contents)
      ensures contents == if ok && write.Some? then old(contents)[key := write.value] else old(contents)
      ensures ok ==> key in index && index[key] in pbp.elemBits.dirty.Marks()
    {
      if key !in index {
        return false;
      }
      if !pbp.InRange(index[key]) {
        return false;
      }
      var payload := match write case Some(v) => v case None => pbp.data[index[key]].payload;
      WriteIndexed(pbp.Elems(), index, key, payload);
      contents := contents[key := payload];
      pbp.MutableElem(index[key], Elem(key, payload));
      return true;
    }

    /** insert_<field>(key) and, when it yields a pointer, a write of the payload through it. */
    method Insert(key: K, write: Option<V>) returns (ok: bool)
      requires Valid()
      modifies this, pbp, pbp.data, pbp.bits.dirty.data, pbp.elemBits.dirty.data
      ensures Valid()
      ensures ok <==> key in old(contents) || |old(contents)| < pbp.data.Length
      ensures contents == if ok then Inserted(old(contents), key, write, pbp.shape.blank.payload) else old(contents)
      ensures ok ==> key in index && index[key] in pbp.elemBits.dirty.Marks()
    {
      var has := Has(key);
      if has {
        ok := Mutable(key, write);
        return;
      }
      ghost var n := Size();
      if pbp.len >= pbp.data.Length {
        return false;
      }
      Append(Elem(key, match write case Some(v) => v case None => pbp.shape.blank.payload));
      ok := true;
    }

    /** A new key, with room for it. */
    method Append(e: Elem<K, V>)
      requires Valid() && e.key !in contents && pbp.len < pbp.data.Length
      modifies this, pbp, pbp.data, pbp.bits.dirty.data, pbp.elemBits.dirty.data
      ensures Valid() && contents == old(contents)[e.key := e.payload]
      ensures e.key in index && index[e.key] in pbp.elemBits.dirty.Marks()
    {
      InsertIndexed(pbp.Elems(), index, e);
      index := index[e.key := pbp.len];
      contents := contents[e.key := e.payload];
      var _ := pbp.AddElem(e);
    }

    method Erase(key: K) returns (n: int)
      requires Valid()
      modifies this, pbp, pbp.data, pbp.bits.dirty.data, pbp.elemBits.dirty.data
      ensures Valid()
      ensures n == if key in old(contents) then 1 else 0
      ensures contents == old(contents) - {key}
    {
      if key !in index {
        return 0;
      }
      var pos := index[key];
      if pbp.InRange(pos) {
        EraseSlot(pos);
      }
      // checked again, because the slot is gone when it was the last one
      if pbp.InRange(pos) {
        index := index[pbp.data[pos].key := pos];
      }
      index := index - {key};
      contents := contents - {key};
      return 1;
    }

    /** The delete_<field>(pos) of an erase, before the index follows. */
    method EraseSlot(pos: nat)
      requires Valid() && pbp.InRange(pos)
      modifies pbp, pbp.data, pbp.bits.dirty.data, pbp.elemBits.dirty.data
      ensures pbp.Valid() && pbp.len == old(pbp.len) - 1
      ensures var key := old(pbp.Elems())[pos].key;
        && Indexed(pbp.Elems(), EraseIndex(pbp.Elems(), index, pos, key))
        && AsMap(pbp.Elems(), EraseIndex(pbp.Elems(), index, pos, key)) == contents - {key}
    {
      ghost var elems := pbp.Elems();
      pbp.DeleteElem(pos);
      EraseIndexed(elems, pbp.Elems(), index, pos);
    }

    method Clear()
      requires Valid()
      modifies this, pbp, pbp.bits.dirty.data, pbp.elemBits.dirty.data
      ensures Valid() && contents == map[]
    {
      pbp.ClearElems();
      Restore();
      assert pbp.Elems() == [];
    }
  }
}
