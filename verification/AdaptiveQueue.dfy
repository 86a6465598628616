/** A priority queue that starts out with buckets and may switch to a heap (src/search/priority_queue.h). */
module AdaptiveQueue {

  datatype Entry<V> = Entry(key: nat, value: V)

  /** What every queue pops: an entry whose key no other entry undercuts. */
  ghost predicate IsLeast<V>(e: Entry<V>, contents: multiset<Entry<V>>) {
    e in contents && forall f :: f in contents ==> e.key <= f.key
  }

  // ---------- Heap ----------

  function Parent(i: nat): nat
    requires i > 0
  {
    (i - 1) / 2
  }

  ghost predicate IsHeap<V>(heap: seq<Entry<V>>) {
    forall i :: 0 < i < |heap| ==> heap[Parent(i)].key <= heap[i].key
  }

  lemma {:induction false} RootIsLeast<V>(heap: seq<Entry<V>>, i: nat)
    requires IsHeap(heap) && i < |heap|
    ensures heap[0].key <= heap[i].key
  {
    if i > 0 {
      RootIsLeast(heap, Parent(i));
    }
  }

  ghost predicate SortedByKey<V>(entries: seq<Entry<V>>) {
    forall i, j :: 0 <= i < j < |entries| ==> entries[i].key <= entries[j].key
  }

  /** Sorted entries need no heapifying. */
  lemma {:induction false} SortedIsHeap<V>(entries: seq<Entry<V>>)
    requires SortedByKey(entries)
    ensures IsHeap(entries)
  {
    forall i | 0 < i < |entries| ensures entries[Parent(i)].key <= entries[i].key {
      assert Parent(i) < i;
    }
  }

  function Swap<V>(s: seq<Entry<V>>, i: nat, j: nat): (r: seq<Entry<V>>)
    requires i < |s| && j < |s|
    ensures |r| == |s| && multiset(r) == multiset(s)
  {
    s[i := s[j]][j := s[i]]
  }

  /** A heap but for the element at i, which may be smaller than its parent. */
  ghost predicate HeapButUp<V>(heap: seq<Entry<V>>, i: nat) {
    && (forall j :: 0 < j < |heap| && j != i ==> heap[Parent(j)].key <= heap[j].key)
    && (forall j :: 0 < j < |heap| && 0 < i && Parent(j) == i ==> heap[Parent(i)].key <= heap[j].key)
  }

  /** A heap but for the element at i, which may be larger than its children. */
  ghost predicate HeapButDown<V>(heap: seq<Entry<V>>, i: nat) {
    && (forall j :: 0 < j < |heap| && Parent(j) != i ==> heap[Parent(j)].key <= heap[j].key)
    && (forall j :: 0 < j < |heap| && 0 < i && Parent(j) == i ==> heap[Parent(i)].key <= heap[j].key)
  }

  lemma {:induction false} Risen<V>(heap: seq<Entry<V>>, i: nat)
    requires HeapButUp(heap, i) && 0 < i < |heap| && heap[i].key < heap[Parent(i)].key
    ensures HeapButUp(Swap(heap, i, Parent(i)), Parent(i))
  {
    var p := Parent(i);
    var heap' := Swap(heap, i, p);
    assert p < i;
    forall j | 0 < j < |heap| && j != p ensures heap'[Parent(j)].key <= heap'[j].key {
      if Parent(j) == i {
        assert heap[p].key <= heap[j].key;
      }
    }
    forall j | 0 < j < |heap| && 0 < p && Parent(j) == p ensures heap'[Parent(p)].key <= heap'[j].key {
      assert heap[Parent(p)].key <= heap[p].key;
      assert Parent(p) != p && Parent(p) != i;
    }
  }

  lemma {:induction false} Sunk<V>(heap: seq<Entry<V>>, i: nat, c: nat)
    requires HeapButDown(heap, i) && 0 < c < |heap| && Parent(c) == i && heap[c].key < heap[i].key
    requires forall j :: 0 < j < |heap| && Parent(j) == i ==> heap[c].key <= heap[j].key
    ensures HeapButDown(Swap(heap, i, c), c)
  {
    var heap' := Swap(heap, i, c);
    forall j | 0 < j < |heap| && Parent(j) != c ensures heap'[Parent(j)].key <= heap'[j].key {
      if j == i {
        assert heap[Parent(i)].key <= heap[c].key;
      }
    }
    forall j | 0 < j < |heap| && Parent(j) == c ensures heap'[i].key <= heap'[j].key {
      assert j != c && j != i;
    }
  }

  lemma {:induction false} Settled<V>(heap: seq<Entry<V>>, i: nat)
    requires HeapButDown(heap, i) && i < |heap|
    requires forall j :: 0 < j < |heap| && Parent(j) == i ==> heap[i].key <= heap[j].key
    ensures IsHeap(heap)
  {
  }

  class HeapQueue<V> {
    var heap: seq<Entry<V>>

    ghost predicate Valid()
      reads this
    {
      IsHeap(heap)
    }

    ghost function Contents(): multiset<Entry<V>>
      reads this
    {
      multiset(heap)
    }

    constructor ()
      ensures Valid() && Contents() == multiset{}
    {
      heap := [];
    }

    /** Takes over entries that are sorted already. */
    constructor FromSortedEntries(entries: seq<Entry<V>>)
      requires SortedByKey(entries)
      ensures Valid() && Contents() == multiset(entries)
    {
      SortedIsHeap(entries);
      heap := entries;
    }

    method Push(key: nat, value: V)
      requires Valid()
      modifies this
      ensures Valid() && Contents() == old(Contents()) + multiset{Entry(key, value)}
    {
      heap := heap + [Entry(key, value)];
      var i: nat := |heap| - 1;
      while i > 0 && heap[i].key < heap[Parent(i)].key
        invariant i < |heap| && HeapButUp(heap, i) && multiset(heap) == old(multiset(heap)) + multiset{Entry(key, value)}
        decreases i
      {
        Risen(heap, i);
        heap := Swap(heap, i, Parent(i));
        i := Parent(i);
      }
    }

    method Pop() returns (result: Entry<V>)
      requires Valid() && heap != []
      modifies this
      ensures Valid() && IsLeast(result, old(Contents())) && Contents() == old(Contents()) - multiset{result}
    {
      result := heap[0];
      forall i | 0 <= i < |heap| ensures heap[0].key <= heap[i].key {
        RootIsLeast(heap, i);
      }
      var last := heap[|heap| - 1];
      assert heap == heap[..|heap| - 1] + [last];
      heap := heap[..|heap| - 1];
      if heap != [] {
        ghost var tail := heap[1..];
        assert heap == [result] + tail;
        heap := heap[0 := last];
        assert heap == [last] + tail;
        SiftDown();
      }
    }

    method SiftDown()
      requires heap != [] && HeapButDown(heap, 0)
      modifies this
      ensures Valid() && multiset(heap) == old(multiset(heap))
    {
      hide HeapButDown, IsHeap;
      var i := 0;
      while true
        invariant i < |heap| && HeapButDown(heap, i) && multiset(heap) == old(multiset(heap))
        decreases |heap| - i
      {
        var c := 2 * i + 1;
        if c >= |heap| {
          Settled(heap, i);
          return;
        }
        if c + 1 < |heap| && heap[c + 1].key < heap[c].key {
          c := c + 1;
        }
        if heap[i].key <= heap[c].key {
          Settled(heap, i);
          return;
        }
        Sunk(heap, i, c);
        heap := Swap(heap, i, c);
        i := c;
      }
    }

    method Clear()
      modifies this
      ensures Valid() && Contents() == multiset{}
    {
      heap := [];
    }
  }

  // ---------- Buckets ----------

  const MIN_BUCKETS_BEFORE_SWITCH: nat := 100

  function Tagged<V>(key: nat, bucket: seq<V>): (r: seq<Entry<V>>)
    ensures |r| == |bucket|
  {
    seq(|bucket|, i requires 0 <= i < |bucket| => Entry(key, bucket[i]))
  }

  /** The entries of the buckets from a key on. */
  ghost function EntriesFrom<V>(buckets: seq<seq<V>>, key: nat): multiset<Entry<V>>
    decreases |buckets| - key
  {
    if key >= |buckets| then multiset{} else multiset(Tagged(key, buckets[key])) + EntriesFrom(buckets, key + 1)
  }

  lemma {:induction false} EntryInBucket<V>(buckets: seq<seq<V>>, from: nat, e: Entry<V>)
    ensures e in EntriesFrom(buckets, from) <==> from <= e.key < |buckets| && e.value in buckets[e.key]
    decreases |buckets| - from
  {
    if from < |buckets| {
      EntryInBucket(buckets, from + 1, e);
      var tagged := Tagged(from, buckets[from]);
      assert e in multiset(tagged) <==> e in tagged;
      if e.key == from && e.value in buckets[from] {
        var i :| 0 <= i < |buckets[from]| && buckets[from][i] == e.value;
        assert tagged[i] == e;
      }
    }
  }

  lemma {:induction false} AddBoth<T>(x: multiset<T>, a: multiset<T>, b: multiset<T>, c: multiset<T>, d: multiset<T>)
    requires a + b == c + d
    ensures (x + a) + b == (x + c) + d
  {
    assert (x + a) + b == x + (a + b);
    assert (x + c) + d == x + (c + d);
  }

  lemma {:induction false} Cancel<T>(a: multiset<T>, t: multiset<T>, b: multiset<T>, s: multiset<T>)
    requires a + t == b + (t + s)
    ensures a == b + s
  {
    forall x ensures a[x] == (b + s)[x] {
      assert (a + t)[x] == (b + (t + s))[x];
    }
  }

  lemma {:induction false} UpdateBucket<V>(buckets: seq<seq<V>>, from: nat, key: nat, bucket: seq<V>)
    requires from <= key < |buckets|
    ensures EntriesFrom(buckets[key := bucket], from) + multiset(Tagged(key, buckets[key])) ==
      EntriesFrom(buckets, from) + multiset(Tagged(key, bucket))
    decreases |buckets| - from
  {
    hide Tagged;
    var buckets' := buckets[key := bucket];
    assert EntriesFrom(buckets', from) == multiset(Tagged(from, buckets'[from])) + EntriesFrom(buckets', from + 1);
    if from < key {
      UpdateBucket(buckets, from + 1, key, bucket);
      AddBoth(multiset(Tagged(from, buckets[from])), EntriesFrom(buckets', from + 1), multiset(Tagged(key, buckets[key])),
              EntriesFrom(buckets, from + 1), multiset(Tagged(key, bucket)));
    } else {
      SameFrom(buckets, buckets', from + 1);
      var e := EntriesFrom(buckets, from + 1);
      assert multiset(Tagged(key, bucket)) + e + multiset(Tagged(key, buckets[key])) ==
        multiset(Tagged(key, buckets[key])) + e + multiset(Tagged(key, bucket));
    }
  }

  lemma {:induction false} SameFrom<V>(a: seq<seq<V>>, b: seq<seq<V>>, from: nat)
    requires |a| == |b| && forall k :: from <= k < |a| ==> a[k] == b[k]
    ensures EntriesFrom(a, from) == EntriesFrom(b, from)
    decreases |a| - from
  {
    hide Tagged;
    if from < |a| {
      assert a[from] == b[from];
      SameFrom(a, b, from + 1);
    }
  }

  lemma {:induction false} MoreBuckets<V>(buckets: seq<seq<V>>, n: nat, from: nat)
    ensures EntriesFrom(buckets + seq(n, _ => []), from) == EntriesFrom(buckets, from)
    decreases |buckets| + n - from
  {
    if from < |buckets| + n {
      MoreBuckets(buckets, n, from + 1);
      assert from >= |buckets| ==> (buckets + seq(n, _ => []))[from] == [];
    }
  }

  lemma {:induction false} TaggedSnoc<V>(key: nat, bucket: seq<V>, v: V)
    ensures Tagged(key, bucket + [v]) == Tagged(key, bucket) + [Entry(key, v)]
  {
  }

  lemma {:induction false} AddToBucket<V>(buckets: seq<seq<V>>, key: nat, v: V)
    requires key < |buckets|
    ensures EntriesFrom(buckets[key := buckets[key] + [v]], 0) == EntriesFrom(buckets, 0) + multiset{Entry(key, v)}
  {
    UpdateBucket(buckets, 0, key, buckets[key] + [v]);
    TaggedSnoc(key, buckets[key], v);
    hide EntriesFrom, Tagged;
    assert multiset(Tagged(key, buckets[key] + [v])) == multiset(Tagged(key, buckets[key])) + multiset{Entry(key, v)};
    Cancel(EntriesFrom(buckets[key := buckets[key] + [v]], 0), multiset(Tagged(key, buckets[key])), EntriesFrom(buckets, 0),
           multiset{Entry(key, v)});
  }

  lemma {:induction false} DropFromBucket<V>(buckets: seq<seq<V>>, key: nat)
    requires key < |buckets| && buckets[key] != []
    ensures var b := buckets[key];
      EntriesFrom(buckets[key := b[..|b| - 1]], 0) + multiset{Entry(key, b[|b| - 1])} == EntriesFrom(buckets, 0)
  {
    var b := buckets[key];
    var rest := buckets[key := b[..|b| - 1]];
    AddToBucket(rest, key, b[|b| - 1]);
    assert b[..|b| - 1] + [b[|b| - 1]] == b;
    assert rest[key := b] == buckets;
  }

  /** All buckets below the key are empty. */
  ghost predicate EmptyBelow<V>(buckets: seq<seq<V>>, key: nat) {
    forall k :: 0 <= k < key && k < |buckets| ==> buckets[k] == []
  }

  lemma {:induction false} NothingBelow<V>(buckets: seq<seq<V>>, from: nat, key: nat)
    requires EmptyBelow(buckets, key) && from <= key
    ensures EntriesFrom(buckets, from) == EntriesFrom(buckets, key)
    decreases key - from
  {
    if from < key {
      NothingBelow(buckets, from + 1, key);
      assert from < |buckets| ==> buckets[from] == [];
    }
  }

  /** The last entry of the first bucket that is not empty. */
  lemma {:induction false} TopIsLeast<V>(buckets: seq<seq<V>>, key: nat)
    requires key < |buckets| && buckets[key] != [] && EmptyBelow(buckets, key)
    ensures IsLeast(Entry(key, buckets[key][|buckets[key]| - 1]), EntriesFrom(buckets, 0))
  {
    hide EntriesFrom;
    var top := Entry(key, buckets[key][|buckets[key]| - 1]);
    EntryInBucket(buckets, 0, top);
    forall e | e in EntriesFrom(buckets, 0) ensures key <= e.key {
      EntryInBucket(buckets, 0, e);
    }
  }

  /** Taking out the first bucket. */
  lemma {:induction false} FirstBucket<V>(buckets: seq<seq<V>>, key: nat)
    requires |EntriesFrom(buckets, key)| > 0
    ensures key < |buckets| && EntriesFrom(buckets, key) == multiset(Tagged(key, buckets[key])) + EntriesFrom(buckets, key + 1)
    ensures |EntriesFrom(buckets, key)| == |buckets[key]| + |EntriesFrom(buckets, key + 1)|
    ensures EntriesFrom(buckets[key := []], key + 1) == EntriesFrom(buckets, key + 1)
  {
    SameFrom(buckets, buckets[key := []], key + 1);
    assert |multiset(Tagged(key, buckets[key]))| == |buckets[key]|;
  }

  lemma {:induction false} SortedAppend<V>(result: seq<Entry<V>>, key: nat, bucket: seq<V>)
    requires SortedByKey(result) && forall i :: 0 <= i < |result| ==> result[i].key < key
    ensures SortedByKey(result + Tagged(key, bucket))
    ensures forall i :: 0 <= i < |result + Tagged(key, bucket)| ==> (result + Tagged(key, bucket))[i].key < key + 1
  {
  }

  class BucketQueue<V> {
    var buckets: seq<seq<V>>
    var currentBucketNo: nat
    var numEntries: nat
    var numPushes: nat

    ghost function Contents(): multiset<Entry<V>>
      reads this`buckets
    {
      EntriesFrom(buckets, 0)
    }

    ghost predicate Valid()
      reads this
    {
      EmptyBelow(buckets, currentBucketNo) && currentBucketNo <= |buckets| && numEntries == |Contents()|
    }

    /** Conversion keeps the buckets from outnumbering the pushes. */
    ghost predicate Compact()
      reads this
    {
      |buckets| <= MIN_BUCKETS_BEFORE_SWITCH || |buckets| <= numPushes
    }

    constructor ()
      ensures Valid() && Contents() == multiset{} && Compact()
    {
      buckets, currentBucketNo, numEntries, numPushes := [], 0, 0, 0;
    }

    method Push(key: nat, value: V)
      requires Valid()
      modifies this
      ensures Valid() && Contents() == old(Contents()) + multiset{Entry(key, value)}
      ensures numPushes == old(numPushes) + 1 && |buckets| == if key < |old(buckets)| then |old(buckets)| else key + 1
    {
      hide EntriesFrom, Tagged;
      numEntries := numEntries + 1;
      numPushes := numPushes + 1;
      if key >= |buckets| {
        MoreBuckets(buckets, key + 1 - |buckets|, 0);
        buckets := buckets + seq(key + 1 - |buckets|, _ => []);
      } else if key < currentBucketNo {
        currentBucketNo := key;
      }
      AddToBucket(buckets, key, value);
      buckets := buckets[key := buckets[key] + [value]];
    }

    method UpdateCurrentBucketNo()
      requires Valid()
      modifies this`currentBucketNo
      ensures Valid() && EmptyBelow(buckets, currentBucketNo)
      ensures currentBucketNo < |buckets| ==> buckets[currentBucketNo] != []
    {
      while currentBucketNo < |buckets| && buckets[currentBucketNo] == []
        invariant Valid()
        decreases |buckets| - currentBucketNo
      {
        currentBucketNo := currentBucketNo + 1;
      }
    }

    method Pop() returns (result: Entry<V>)
      requires Valid() && numEntries > 0
      modifies this
      ensures Valid() && IsLeast(result, old(Contents())) && Contents() == old(Contents()) - multiset{result}
      ensures |buckets| == |old(buckets)| && numPushes == old(numPushes)
    {
      hide EntriesFrom, Tagged, IsLeast;
      UpdateCurrentBucketNo();
      SomeBucket();
      var bucket := buckets[currentBucketNo];
      result := Entry(currentBucketNo, bucket[|bucket| - 1]);
      TopIsLeast(buckets, currentBucketNo);
      DropFromBucket(buckets, currentBucketNo);
      numEntries := numEntries - 1;
      buckets := buckets[currentBucketNo := bucket[..|bucket| - 1]];
      assert Contents() + multiset{result} == old(Contents());
    }

    /** While there are entries, the search for a bucket ends inside the table. */
    lemma {:induction false} SomeBucket()
      requires Valid() && numEntries > 0
      ensures currentBucketNo < |buckets|
    {
      if currentBucketNo == |buckets| {
        NothingBelow(buckets, 0, currentBucketNo);
      }
    }

    method Clear()
      requires Valid()
      modifies this
      ensures Valid() && Contents() == multiset{} && numPushes == 0 && |buckets| == |old(buckets)|
    {
      hide Tagged;
      ghost var buckets0 := buckets;
      NothingBelow(buckets, 0, currentBucketNo);
      var i := currentBucketNo;
      while numEntries != 0
        invariant |buckets| == |buckets0| && numEntries == |EntriesFrom(buckets, i)|
        invariant EmptyBelow(buckets, i)
        decreases |buckets| - i
      {
        var bucketSize := |buckets[i]|;
        numEntries := numEntries - bucketSize;
        ghost var before := buckets;
        buckets := buckets[i := []];
        SameFrom(before, buckets, i + 1);
        i := i + 1;
      }
      NothingBelow(buckets, 0, i);
      currentBucketNo := 0;
      numPushes := 0;
    }

    /** Moves the entries, in key order, into a list. */
    method ExtractSortedEntries() returns (result: seq<Entry<V>>)
      requires Valid()
      modifies this
      ensures SortedByKey(result) && multiset(result) == old(Contents())
    {
      result := [];
      NothingBelow(buckets, 0, currentBucketNo);
      hide EntriesFrom, Tagged, SortedByKey;
      assert SortedByKey(result) by {
        NothingSorted();
      }
      var key: nat := currentBucketNo;
      while numEntries != 0
        invariant numEntries == |EntriesFrom(buckets, key)| && multiset(result) + EntriesFrom(buckets, key) == old(Contents())
        invariant SortedByKey(result) && forall i :: 0 <= i < |result| ==> result[i].key < key
        decreases |buckets| - key
      {
        FirstBucket(buckets, key);
        SortedAppend(result, key, buckets[key]);
        var tagged := TagAll(key, buckets[key]);
        result := result + tagged;
        numEntries := numEntries - |buckets[key]|;
        buckets := buckets[key := []];
        key := key + 1;
      }
      currentBucketNo := 0;
    }

    lemma {:induction false} NothingSorted()
      ensures SortedByKey<V>([])
    {
    }

    method TagAll(key: nat, bucket: seq<V>) returns (tagged: seq<Entry<V>>)
      ensures tagged == Tagged(key, bucket)
    {
      tagged := [];
      for i := 0 to |bucket|
        invariant tagged == Tagged(key, bucket[..i])
      {
        TaggedSnoc(key, bucket[..i], bucket[i]);
        assert bucket[..i + 1] == bucket[..i] + [bucket[i]];
        tagged := tagged + [Entry(key, bucket[i])];
      }
      assert bucket[..|bucket|] == bucket;
    }
  }

  // ---------- The queue that adapts ----------

  class AdaptiveQueue<V> {
    /** The wrapped queue: one of the two. */
    var bucketQueue: BucketQueue?<V>
    var heapQueue: HeapQueue?<V>
    ghost var cleared: bool

    ghost predicate Valid()
      reads this, bucketQueue, heapQueue
    {
      && (bucketQueue == null <==> heapQueue != null)
      && (bucketQueue != null ==> bucketQueue.Valid() && (!cleared ==> bucketQueue.Compact()))
      && (heapQueue != null ==> heapQueue.Valid())
    }

    ghost function Contents(): multiset<Entry<V>>
      reads this, bucketQueue, heapQueue
    {
      if bucketQueue != null then bucketQueue.Contents() else if heapQueue != null then heapQueue.Contents() else multiset{}
    }

    constructor ()
      ensures Valid() && Contents() == multiset{} && !cleared && fresh(bucketQueue)
    {
      bucketQueue := new BucketQueue<V>();
      heapQueue := null;
      cleared := false;
    }

    /** Switches to a heap when the key asks for more buckets than there are pushes. */
    method ConvertIfNecessary(key: nat)
      requires Valid()
      modifies this, bucketQueue
      ensures Valid() && Contents() == old(Contents()) && cleared == old(cleared)
      ensures bucketQueue == old(bucketQueue) || bucketQueue == null
      ensures heapQueue == old(heapQueue) || fresh(heapQueue)
      ensures bucketQueue != null <==>
        old(bucketQueue) != null && (key < MIN_BUCKETS_BEFORE_SWITCH || key <= old(if bucketQueue == null then 0 else bucketQueue.numPushes))
      ensures bucketQueue != null ==> bucketQueue.numPushes == old(if bucketQueue == null then 0 else bucketQueue.numPushes)
    {
      if bucketQueue != null && key >= MIN_BUCKETS_BEFORE_SWITCH && key > bucketQueue.numPushes {
        var entries := bucketQueue.ExtractSortedEntries();
        heapQueue := new HeapQueue<V>.FromSortedEntries(entries);
        bucketQueue := null;
      }
    }

    method Push(key: nat, value: V)
      requires Valid()
      modifies this, bucketQueue, heapQueue
      ensures Valid() && Contents() == old(Contents()) + multiset{Entry(key, value)} && cleared == old(cleared)
      ensures bucketQueue == old(bucketQueue) || bucketQueue == null
      ensures heapQueue == old(heapQueue) || fresh(heapQueue)
    {
      ConvertIfNecessary(key);
      if bucketQueue != null {
        bucketQueue.Push(key, value);
      } else {
        heapQueue.Push(key, value);
      }
    }

    method Pop() returns (result: Entry<V>)
      requires Valid() && Contents() != multiset{}
      modifies bucketQueue, heapQueue
      ensures Valid() && IsLeast(result, old(Contents())) && Contents() == old(Contents()) - multiset{result}
    {
      if bucketQueue != null {
        result := bucketQueue.Pop();
      } else {
        result := heapQueue.Pop();
      }
    }

    method Empty() returns (empty: bool)
      requires Valid()
      ensures empty <==> Contents() == multiset{}
    {
      if bucketQueue != null {
        empty := bucketQueue.numEntries == 0;
      } else {
        empty := heapQueue.heap == [];
      }
    }

    method Clear()
      requires Valid()
      modifies this`cleared, bucketQueue, heapQueue
      ensures Valid() && Contents() == multiset{} && cleared
    {
      cleared := true;
      if bucketQueue != null {
        bucketQueue.Clear();
      } else {
        heapQueue.Clear();
      }
    }

    method AddVirtualPushes(numExtraPushes: nat)
      requires Valid()
      modifies bucketQueue
      ensures Valid() && Contents() == old(Contents())
      ensures bucketQueue != null ==>
        bucketQueue.numPushes == old(if bucketQueue == null then 0 else bucketQueue.numPushes) + numExtraPushes
    {
      if bucketQueue != null {
        bucketQueue.numPushes := bucketQueue.numPushes + numExtraPushes;
      }
    }

    /** Before any clear, a bucket-based queue has at most as many buckets as pushes, or a hundred. */
    lemma {:induction false} FewBuckets()
      requires Valid() && bucketQueue != null && !cleared
      ensures |bucketQueue.buckets| <= if bucketQueue.numPushes > 100 then bucketQueue.numPushes else 100
    {
    }
  }
}
