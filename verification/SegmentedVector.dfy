/** Vectors that grow without moving their elements (src/search/segmented_vector.h). */
module SegmentedVector {

  // ---------- Index arithmetic ----------

  lemma {:induction false} MulMono(a: nat, b: nat, n: nat)
    requires a <= b
    ensures a * n <= b * n
  {
  }

  lemma {:induction false} Split(i: nat, n: nat)
    requires n > 0
    ensures i == (i / n) * n + i % n && i % n < n
  {
  }

  lemma {:induction false} SegmentInBounds(i: nat, n: nat, segments: nat)
    requires n > 0 && i < segments * n
    ensures i / n < segments
  {
    Split(i, n);
    if segments <= i / n {
      MulMono(segments, i / n, n);
    }
  }

  lemma {:induction false} NextSegment(size: nat, n: nat, segments: nat)
    requires n > 0 && size <= segments * n
    ensures size / n <= segments
    ensures size / n == segments ==> size % n == 0
  {
    Split(size, n);
    if segments < size / n {
      MulMono(segments + 1, size / n, n);
    }
  }

  lemma {:induction false} RoomForOneMore(size: nat, n: nat, segments: nat)
    requires n > 0 && size / n < segments
    ensures size + 1 <= segments * n
  {
    Split(size, n);
    MulMono(size / n + 1, segments, n);
  }

  lemma {:induction false} SlotsDiffer(i: nat, j: nat, n: nat)
    requires n > 0 && i != j
    ensures i / n != j / n || i % n != j % n
  {
    Split(i, n);
    Split(j, n);
  }

  // ---------- Single entries ----------

  class SegmentedVector<T(0)> {
    const elementsPerSegment: nat
    var segments: seq<array<T>>
    var theSize: nat
    /** The entries in index order, and the segments. */
    ghost var contents: seq<T>
    ghost var repr: set<array<T>>

    ghost predicate Shaped()
      reads this
    {
      && elementsPerSegment > 0 && theSize == |contents| <= |segments| * elementsPerSegment
      && (forall s :: 0 <= s < |segments| ==> segments[s] in repr && segments[s].Length == elementsPerSegment)
      && (forall s, t :: 0 <= s < t < |segments| ==> segments[s] != segments[t])
    }

    /** The slot of an index: its segment by division, its offset by remainder. */
    ghost predicate Stored(i: nat)
      requires Shaped() && i < theSize
      reads this, repr
    {
      SegmentInBounds(i, elementsPerSegment, |segments|);
      segments[i / elementsPerSegment][i % elementsPerSegment] == contents[i]
    }

    ghost predicate Valid()
      reads this, repr
    {
      Shaped() && forall i :: 0 <= i < theSize ==> Stored(i)
    }

    /** As many elements per segment as fit into 8192 bytes, but at least one. */
    constructor (entryBytes: nat)
      requires entryBytes > 0
      ensures Valid() && contents == [] && repr == {}
    {
      elementsPerSegment := if 8192 / entryBytes >= 1 then 8192 / entryBytes else 1;
      segments := [];
      theSize := 0;
      contents, repr := [], {};
    }

    method Get(index: nat) returns (entry: T)
      requires Valid() && index < theSize
      ensures entry == contents[index]
    {
      assert Stored(index);
      SegmentInBounds(index, elementsPerSegment, |segments|);
      entry := segments[index / elementsPerSegment][index % elementsPerSegment];
    }

    /** Writes one slot and leaves all others. */
    method Store(index: nat, entry: T)
      requires Shaped() && index < |segments| * elementsPerSegment
      modifies repr
      ensures index / elementsPerSegment < |segments|
      ensures segments[index / elementsPerSegment][index % elementsPerSegment] == entry
      ensures forall i :: 0 <= i < theSize && i != index && old(Stored(i)) ==> Stored(i)
    {
      SegmentInBounds(index, elementsPerSegment, |segments|);
      segments[index / elementsPerSegment][index % elementsPerSegment] := entry;
      forall i | 0 <= i < theSize && i != index && old(Stored(i)) ensures Stored(i) {
        SegmentInBounds(i, elementsPerSegment, |segments|);
        SlotsDiffer(i, index, elementsPerSegment);
      }
    }

    method Set(index: nat, entry: T)
      requires Valid() && index < theSize
      modifies this`contents, repr
      ensures Valid() && contents == old(contents)[index := entry]
    {
      Store(index, entry);
      label stored:
      contents := contents[index := entry];
      forall i | 0 <= i < theSize ensures Stored(i) {
        if i != index {
          assert old@stored(Stored(i));
        }
      }
    }

    /** No segment is ever moved, so references to entries stay valid. */
    method PushBack(entry: T)
      requires Valid()
      modifies this, repr
      ensures Valid() && contents == old(contents) + [entry]
      ensures old(segments) <= segments && fresh(repr - old(repr)) && old(repr) <= repr
    {
      var segment := theSize / elementsPerSegment;
      NextSegment(theSize, elementsPerSegment, |segments|);
      if segment == |segments| {
        assert theSize % elementsPerSegment == 0;
        AddSegment();
      }
      RoomForOneMore(theSize, elementsPerSegment, |segments|);
      Store(theSize, entry);
      label stored:
      contents := contents + [entry];
      theSize := theSize + 1;
      forall i | 0 <= i < theSize ensures Stored(i) {
        if i < theSize - 1 {
          assert old@stored(Stored(i));
        }
      }
    }

    method AddSegment()
      requires Valid()
      modifies this`segments, this`repr
      ensures Valid() && |segments| == |old(segments)| + 1 && old(segments) <= segments
      ensures fresh(repr - old(repr)) && old(repr) <= repr
    {
      var newSegment := new T[elementsPerSegment];
      segments := segments + [newSegment];
      repr := repr + {newSegment};
      MulMono(|old(segments)|, |segments|, elementsPerSegment);
      forall i | 0 <= i < theSize ensures Stored(i) {
        assert old(Stored(i));
        SegmentInBounds(i, elementsPerSegment, |old(segments)|);
      }
    }

    /** The segment of a removed element is kept for the next one. */
    method PopBack()
      requires Valid() && theSize > 0
      modifies this`theSize, this`contents
      ensures Valid() && contents == old(contents)[..|old(contents)| - 1]
    {
      contents := contents[..theSize - 1];
      theSize := theSize - 1;
      forall i | 0 <= i < theSize ensures Stored(i) {
        assert old(Stored(i));
      }
    }

    method Resize(newSize: nat, entry: T)
      requires Valid()
      modifies this, repr
      ensures Valid() && |contents| == newSize
      ensures forall i :: 0 <= i < newSize ==> contents[i] == if i < |old(contents)| then old(contents)[i] else entry
      ensures old(segments) <= segments && fresh(repr - old(repr)) && old(repr) <= repr
    {
      hide Stored;
      while newSize < theSize
        invariant Valid() && segments == old(segments) && repr == old(repr) && contents <= old(contents)
        invariant |contents| >= newSize || contents == old(contents)
      {
        PopBack();
      }
      while newSize > theSize
        invariant Valid() && theSize <= newSize
        invariant forall i :: 0 <= i < theSize ==> contents[i] == if i < |old(contents)| then old(contents)[i] else entry
        invariant old(segments) <= segments && fresh(repr - old(repr)) && old(repr) <= repr
        invariant theSize < |old(contents)| ==> theSize == newSize
        decreases newSize - theSize
      {
        PushBack(entry);
      }
    }
  }

  // ---------- Arrays of a fixed length ----------

  lemma {:induction false} ArrayInSegment(k: nat, arrays: nat, length: nat)
    requires k < arrays
    ensures k * length + length <= length * arrays
  {
    MulMono(k + 1, arrays, length);
  }

  lemma {:induction false} ArraysApart(j: nat, k: nat, length: nat)
    requires j < k
    ensures j * length + length <= k * length
  {
    MulMono(j + 1, k, length);
  }

  class SegmentedArrayVector<T(0)> {
    const elementsPerArray: nat
    const arraysPerSegment: nat
    const elementsPerSegment: nat
    var segments: seq<array<T>>
    var theSize: nat
    ghost var contents: seq<seq<T>>
    ghost var repr: set<array<T>>

    ghost predicate Shaped()
      reads this
    {
      && elementsPerArray > 0 && arraysPerSegment > 0 && elementsPerSegment == elementsPerArray * arraysPerSegment
      && theSize == |contents| <= |segments| * arraysPerSegment
      && (forall s :: 0 <= s < |segments| ==> segments[s] in repr && segments[s].Length == elementsPerSegment)
      && (forall s, t :: 0 <= s < t < |segments| ==> segments[s] != segments[t])
      && (forall a :: a in repr ==> a in segments)
    }

    function GetSegment(index: nat): nat
      requires arraysPerSegment > 0
    {
      index / arraysPerSegment
    }

    function GetOffset(index: nat): nat
      requires arraysPerSegment > 0
    {
      (index % arraysPerSegment) * elementsPerArray
    }

    lemma {:induction false} SlotInBounds(index: nat)
      requires Shaped() && index < |segments| * arraysPerSegment
      ensures GetSegment(index) < |segments| && GetOffset(index) + elementsPerArray <= segments[GetSegment(index)].Length
    {
      SegmentInBounds(index, arraysPerSegment, |segments|);
      ArrayInSegment(index % arraysPerSegment, arraysPerSegment, elementsPerArray);
    }

    /** Different indices have slots that do not overlap. */
    lemma {:induction false} SlotsApart(i: nat, j: nat)
      requires arraysPerSegment > 0 && i != j && GetSegment(i) == GetSegment(j)
      ensures GetOffset(i) + elementsPerArray <= GetOffset(j) || GetOffset(j) + elementsPerArray <= GetOffset(i)
    {
      SlotsDiffer(i, j, arraysPerSegment);
      if i % arraysPerSegment < j % arraysPerSegment {
        ArraysApart(i % arraysPerSegment, j % arraysPerSegment, elementsPerArray);
      } else {
        ArraysApart(j % arraysPerSegment, i % arraysPerSegment, elementsPerArray);
      }
    }

    ghost predicate Stored(i: nat)
      requires Shaped() && i < theSize
      reads this, repr
    {
      SlotInBounds(i);
      segments[GetSegment(i)][GetOffset(i)..GetOffset(i) + elementsPerArray] == contents[i]
    }

    lemma {:induction false} StoredAt(i: nat)
      requires Shaped() && i < theSize && GetSegment(i) < |segments|
      requires GetOffset(i) + elementsPerArray <= segments[GetSegment(i)].Length
      requires segments[GetSegment(i)][GetOffset(i)..GetOffset(i) + elementsPerArray] == contents[i]
      ensures Stored(i)
    {
    }

    ghost predicate Valid()
      reads this, repr
    {
      Shaped() && forall i :: 0 <= i < theSize ==> Stored(i)
    }

    constructor (elementsPerArray: nat, elementBytes: nat)
      requires elementsPerArray > 0 && elementBytes > 0
      ensures Valid() && contents == [] && repr == {} && this.elementsPerArray == elementsPerArray
    {
      var bytes := elementsPerArray * elementBytes;
      var arrays := if bytes > 0 && 8192 / bytes >= 1 then 8192 / bytes else 1;
      this.elementsPerArray := elementsPerArray;
      arraysPerSegment := arrays;
      elementsPerSegment := elementsPerArray * arrays;
      segments := [];
      theSize := 0;
      contents, repr := [], {};
    }

    /** A pointer to the elements of one array. */
    method At(index: nat) returns (segment: array<T>, offset: nat)
      requires Valid() && index < theSize
      ensures segment in repr && IsAt(segment, offset, index) && offset + elementsPerArray <= segment.Length
      ensures segment[offset..offset + elementsPerArray] == contents[index]
    {
      SlotInBounds(index);
      assert Stored(index);
      segment := segments[GetSegment(index)];
      offset := GetOffset(index);
    }

    ghost predicate IsAt(segment: array<T>, offset: nat, index: nat)
      reads this
    {
      Shaped() && GetSegment(index) < |segments| && segment == segments[GetSegment(index)] && offset == GetOffset(index)
    }

    /** Copies an array to the end; the pointer may lead to an array that is already stored here. */
    method PushBack(entry: array<T>, start: nat)
      requires Valid() && start + elementsPerArray <= entry.Length
      requires entry in repr ==> exists i :: 0 <= i < theSize && IsAt(entry, start, i)
      modifies this, repr
      ensures Valid() && contents == old(contents) + [old(entry[start..start + elementsPerArray])]
      ensures old(segments) <= segments && fresh(repr - old(repr)) && old(repr) <= repr
    {
      var segment := GetSegment(theSize);
      NextSegment(theSize, arraysPerSegment, |segments|);
      if segment == |segments| {
        AddSegment();
      }
      Append(entry, start);
    }

    method Append(entry: array<T>, start: nat)
      requires Valid() && GetSegment(theSize) < |segments| && start + elementsPerArray <= entry.Length
      requires entry in repr && entry == segments[GetSegment(theSize)] ==> exists i :: 0 <= i < theSize && IsAt(entry, start, i)
      modifies this`theSize, this`contents, repr
      ensures Valid() && contents == old(contents) + [old(entry[start..start + elementsPerArray])]
    {
      ghost var data := entry[start..start + elementsPerArray];
      RoomForOneMore(theSize, arraysPerSegment, |segments|);
      CopyIn(entry, start);
      label copied:
      hide GetSegment, GetOffset;
      contents := contents + [data];
      theSize := theSize + 1;
      var last := theSize - 1;
      assert segments[GetSegment(last)][GetOffset(last)..GetOffset(last) + elementsPerArray] == contents[last];
      StoredAt(last);
      forall i | 0 <= i < last ensures Stored(i) {
        assert old@copied(Stored(i));
        SlotInBounds(i);
        var a, o := segments[GetSegment(i)], GetOffset(i);
        assert a[o..o + elementsPerArray] == old@copied(a[o..o + elementsPerArray]);
      }
    }

    /** Copies into the slot behind the last array. */
    method CopyIn(entry: array<T>, start: nat)
      requires Valid() && theSize + 1 <= |segments| * arraysPerSegment && start + elementsPerArray <= entry.Length
      requires GetSegment(theSize) < |segments|
      requires entry == segments[GetSegment(theSize)] ==> exists i :: 0 <= i < theSize && IsAt(entry, start, i)
      modifies repr
      ensures Valid() && GetOffset(theSize) + elementsPerArray <= segments[GetSegment(theSize)].Length
      ensures segments[GetSegment(theSize)][GetOffset(theSize)..GetOffset(theSize) + elementsPerArray] ==
        old(entry[start..start + elementsPerArray])
    {
      SlotInBounds(theSize);
      SourceApart(entry, start);
      hide GetSegment, GetOffset;
      var dest, offset := segments[GetSegment(theSize)], GetOffset(theSize);
      Copy(entry, start, dest, offset);
      forall i | 0 <= i < theSize ensures Stored(i) {
        assert old(Stored(i));
        OtherSlot(i, theSize, dest, offset);
        var a, o := segments[GetSegment(i)], GetOffset(i);
        assert a[o..o + elementsPerArray] == old(a[o..o + elementsPerArray]);
      }
    }

    lemma {:induction false} SourceApart(entry: array<T>, start: nat)
      requires Shaped() && theSize < |segments| * arraysPerSegment
      requires GetSegment(theSize) < |segments|
      requires entry == segments[GetSegment(theSize)] ==> exists i :: 0 <= i < theSize && IsAt(entry, start, i)
      ensures entry == segments[GetSegment(theSize)] ==>
        start + elementsPerArray <= GetOffset(theSize) || GetOffset(theSize) + elementsPerArray <= start
    {
      if entry == segments[GetSegment(theSize)] {
        var i :| 0 <= i < theSize && IsAt(entry, start, i);
        SlotsApart(i, theSize);
      }
    }

    /** Another index reads outside the bytes that belong to this one. */
    lemma {:induction false} OtherSlot(i: nat, index: nat, segment: array<T>, offset: nat)
      requires Shaped() && i < theSize && i != index && IsAt(segment, offset, index)
      ensures GetSegment(i) < |segments|
      ensures var a := segments[GetSegment(i)];
        a in repr && GetOffset(i) + elementsPerArray <= a.Length
        && (a == segment ==> GetOffset(i) + elementsPerArray <= offset || offset + elementsPerArray <= GetOffset(i))
    {
      SlotInBounds(i);
      if segments[GetSegment(i)] == segment {
        assert GetSegment(i) == GetSegment(index);
        SlotsApart(i, index);
      }
    }

    /** Takes note of a write through the pointer to one stored array. */
    ghost method RecordWrite(index: nat, data: seq<T>)
      requires Shaped() && index < theSize && forall i :: 0 <= i < theSize && i != index ==> Stored(i)
      requires GetSegment(index) < |segments| && GetOffset(index) + elementsPerArray <= segments[GetSegment(index)].Length
      requires data == segments[GetSegment(index)][GetOffset(index)..GetOffset(index) + elementsPerArray]
      modifies this`contents
      ensures Valid() && contents == old(contents)[index := data]
    {
      hide GetSegment, GetOffset;
      contents := contents[index := data];
      forall i | 0 <= i < theSize ensures Stored(i) {
        SlotInBounds(i);
        assert i != index ==> old(Stored(i));
        StoredAt(i);
      }
    }

    method Copy(entry: array<T>, start: nat, dest: array<T>, offset: nat)
      requires start + elementsPerArray <= entry.Length && offset + elementsPerArray <= dest.Length
      requires entry == dest ==> start + elementsPerArray <= offset || offset + elementsPerArray <= start
      modifies dest
      ensures dest[offset..offset + elementsPerArray] == old(entry[start..start + elementsPerArray])
      ensures forall k :: 0 <= k < dest.Length && !(offset <= k < offset + elementsPerArray) ==> dest[k] == old(dest[k])
    {
      for i := 0 to elementsPerArray
        invariant forall k :: offset <= k < offset + i ==> dest[k] == old(entry[start + (k - offset)])
        invariant forall k :: 0 <= k < dest.Length && !(offset <= k < offset + i) ==> dest[k] == old(dest[k])
      {
        dest[offset + i] := entry[start + i];
      }
    }

    method AddSegment()
      requires Valid()
      modifies this`segments, this`repr
      ensures Valid() && |segments| == |old(segments)| + 1 && old(segments) <= segments && fresh(segments[|old(segments)|])
      ensures fresh(repr - old(repr)) && old(repr) <= repr
    {
      var newSegment := new T[elementsPerSegment];
      segments := segments + [newSegment];
      repr := repr + {newSegment};
      MulMono(|old(segments)|, |segments|, arraysPerSegment);
      forall i | 0 <= i < theSize ensures Stored(i) {
        assert old(Stored(i));
        SegmentInBounds(i, arraysPerSegment, |old(segments)|);
      }
    }

    method PopBack()
      requires Valid() && theSize > 0
      modifies this`theSize, this`contents
      ensures Valid() && contents == old(contents)[..|old(contents)| - 1]
    {
      contents := contents[..theSize - 1];
      theSize := theSize - 1;
      forall i | 0 <= i < theSize ensures Stored(i) {
        assert old(Stored(i));
      }
    }
  }
}
