/** The binary min-heap (src/util/priority_queue.c). */
module PriorityQueue {
  import opened Bytes

  datatype Entry<+V> = Entry(key: nat, value: V)

  function Parent(i: nat): (p: nat)
    requires i > 0
    ensures p < i
  {
    (i - 1) / 2
  }

  ghost function Bag<V>(s: seq<Entry<V>>): (m: multiset<Entry<V>>)
  {
    multiset(s)
  }

  // ---------- Heap order on sequences ----------

  ghost predicate Below<V>(s: seq<Entry<V>>, i: nat)
    requires 0 < i < |s|
  {
    s[Parent(i)].key <= s[i].key
  }

  ghost predicate IsHeap<V>(s: seq<Entry<V>>)
  {
    forall i {:trigger Below(s, i)} :: 0 < i < |s| ==> Below(s, i)
  }

  /** A heap except that the entry at `k` may be smaller than its parent. */
  ghost predicate HeapBut<V>(s: seq<Entry<V>>, k: nat)
  {
    && k < |s|
    && (forall i {:trigger Below(s, i)} :: 0 < i < |s| && i != k ==> Below(s, i))
    && (forall i {:trigger Parent(i)} :: 0 < i < |s| && Parent(i) == k && k > 0 ==> s[Parent(k)].key <= s[i].key)
  }

  /** A heap except that the entry at `k` may be larger than its children. */
  ghost predicate HeapAbove<V>(s: seq<Entry<V>>, k: nat)
  {
    && k < |s|
    && (forall i {:trigger Below(s, i)} :: 0 < i < |s| && Parent(i) != k ==> Below(s, i))
    && (forall i {:trigger Parent(i)} :: 0 < i < |s| && Parent(i) == k && k > 0 ==> s[Parent(k)].key <= s[i].key)
  }

  function Swap<V>(s: seq<Entry<V>>, i: nat, j: nat): (r: seq<Entry<V>>)
    requires i < |s| && j < |s|
    ensures |r| == |s|
  {
    s[i := s[j]][j := s[i]]
  }

  lemma SwapKeepsContents<V>(s: seq<Entry<V>>, i: nat, j: nat)
    requires i < |s| && j < |s|
    ensures Bag(Swap(s, i, j)) == Bag(s)
  {
  }

  lemma SiftUpStep<V>(s: seq<Entry<V>>, k: nat)
    requires HeapBut(s, k) && k > 0 && s[Parent(k)].key > s[k].key
    ensures HeapBut(Swap(s, Parent(k), k), Parent(k))
  {
    var p, s' := Parent(k), Swap(s, Parent(k), k);
    forall i | 0 < i < |s| && i != p ensures Below(s', i) {
      assert i != k ==> Below(s, i);
      assert p > 0 ==> Below(s, p);
    }
    forall i | 0 < i < |s| && Parent(i) == p && p > 0 ensures s'[Parent(p)].key <= s'[i].key {
      assert Below(s, p);
      assert i != k ==> Below(s, i);
    }
  }

  lemma SiftUpDone<V>(s: seq<Entry<V>>, k: nat)
    requires HeapBut(s, k) && (k == 0 || s[Parent(k)].key <= s[k].key)
    ensures IsHeap(s)
  {
    forall i | 0 < i < |s| ensures Below(s, i) {
    }
  }

  /** The smallest of an entry and its children. */
  ghost predicate IsSmallest<V>(s: seq<Entry<V>>, k: nat, m: nat)
  {
    && k < |s| && m < |s| && (m == k || (m > 0 && Parent(m) == k))
    && s[m].key <= s[k].key
    && forall i {:trigger Parent(i)} :: 0 < i < |s| && Parent(i) == k ==> s[m].key <= s[i].key
  }

  lemma SiftDownStep<V>(s: seq<Entry<V>>, k: nat, m: nat)
    requires HeapAbove(s, k) && IsSmallest(s, k, m) && m != k
    ensures HeapAbove(Swap(s, k, m), m)
  {
    var s' := Swap(s, k, m);
    forall i | 0 < i < |s| && Parent(i) != m ensures Below(s', i) {
      assert Parent(i) != k ==> Below(s, i);
    }
    forall i | 0 < i < |s| && Parent(i) == m ensures s'[Parent(m)].key <= s'[i].key {
      assert Below(s, i);
    }
  }

  lemma SiftDownDone<V>(s: seq<Entry<V>>, k: nat)
    requires HeapAbove(s, k) && IsSmallest(s, k, k)
    ensures IsHeap(s)
  {
    forall i | 0 < i < |s| ensures Below(s, i) {
      assert Parent(i) != k ==> Below(s, i);
    }
  }

  /** The root of a heap is a minimum. */
  lemma {:induction false} RootIsMinimum<V>(s: seq<Entry<V>>, i: nat)
    requires IsHeap(s) && i < |s|
    ensures s[0].key <= s[i].key
  {
    if i > 0 {
      RootIsMinimum(s, Parent(i));
      assert Below(s, i);
    }
  }

  class Heap<V> {
    var entries: array<Entry<V>>
    var count: nat

    ghost predicate Valid()
      reads this, entries
    {
      0 < entries.Length && count <= entries.Length && IsHeap(entries[..count])
    }

    ghost function Contents(): (m: multiset<Entry<V>>)
      reads this, entries
      requires Valid()
    {
      Bag(entries[..count])
    }

    /** `filler` stands for the uninitialised memory of a new array. */
    constructor (initialCapacity: nat, filler: V)
      ensures Valid() && fresh(entries) && Contents() == multiset{}
    {
      var capacity := if initialCapacity < 16 then 16 else initialCapacity;
      entries := new Entry<V>[capacity](_ => Entry(0, filler));
      count := 0;
    }

    /** `sift_up` over the first `n` entries. */
    method SiftUp(start: nat, n: nat)
      requires n <= entries.Length && HeapBut(entries[..n], start)
      modifies entries
      ensures IsHeap(entries[..n]) && Bag(entries[..n]) == old(Bag(entries[..n]))
      ensures entries[n..] == old(entries[n..])
    {
      hide HeapBut, IsHeap, Bag;
      var idx: nat := start;
      Bound(entries[..n], idx);
      while idx > 0 && entries[Parent(idx)].key > entries[idx].key
        invariant idx < n && HeapBut(entries[..n], idx)
        invariant Bag(entries[..n]) == old(Bag(entries[..n])) && entries[n..] == old(entries[n..])
      {
        ghost var s := entries[..n];
        var parent := Parent(idx);
        SiftUpStep(s, idx);
        SwapKeepsContents(s, parent, idx);
        entries[parent], entries[idx] := entries[idx], entries[parent];
        assert entries[..n] == Swap(s, parent, idx);
        idx := parent;
      }
      SiftUpDone(entries[..n], idx);
    }

    /** The smallest of an entry and its children among the first `count`. */
    method Smallest(idx: nat) returns (m: nat)
      requires idx < count <= entries.Length
      ensures m < count && IsSmallest(entries[..count], idx, m)
    {
      var left, right := 2 * idx + 1, 2 * idx + 2;
      m := idx;
      if left < count && entries[left].key < entries[m].key {
        m := left;
      }
      if right < count && entries[right].key < entries[m].key {
        m := right;
      }
      assert forall i {:trigger Parent(i)} :: i > 0 && Parent(i) == idx ==> i == left || i == right;
    }

    /** `sift_down`. */
    method SiftDown(start: nat)
      requires count <= entries.Length && HeapAbove(entries[..count], start)
      modifies entries
      ensures IsHeap(entries[..count]) && Bag(entries[..count]) == old(Bag(entries[..count]))
    {
      hide HeapAbove, IsHeap, Bag;
      var idx: nat := start;
      BoundAbove(entries[..count], idx);
      while true
        invariant idx < count && HeapAbove(entries[..count], idx)
        invariant Bag(entries[..count]) == old(Bag(entries[..count]))
        decreases count - idx
      {
        ghost var s := entries[..count];
        var m := Smallest(idx);
        if m == idx {
          SiftDownDone(s, idx);
          return;
        }
        SiftDownStep(s, idx, m);
        SwapKeepsContents(s, idx, m);
        entries[idx], entries[m] := entries[m], entries[idx];
        assert entries[..count] == Swap(s, idx, m);
        idx := m;
      }
    }

    /** The realloc of `nxp_pq_push`. */
    method Grow(filler: V)
      requires 0 < entries.Length && count <= entries.Length
      modifies this`entries
      ensures fresh(entries) && entries.Length > count && entries[..count] == old(entries[..count])
    {
      var bigger := new Entry<V>[2 * entries.Length](_ => Entry(0, filler));
      forall i | 0 <= i < count {
        bigger[i] := entries[i];
      }
      entries := bigger;
    }

    /** `nxp_pq_push`. */
    method Push(key: nat, value: V)
      requires Valid()
      modifies this, entries
      ensures Valid() && (entries == old(entries) || fresh(entries))
      ensures Contents() == old(Contents()) + multiset{Entry(key, value)}
    {
      hide IsHeap, HeapBut, Bag;
      ghost var s := entries[..count];
      if count >= entries.Length {
        Grow(value);
      }
      AppendLeaf(s, Entry(key, value));
      entries[count] := Entry(key, value);
      assert entries[..count + 1] == s + [Entry(key, value)];
      SiftUp(count, count + 1);
      count := count + 1;
    }

    /** `nxp_pq_peek`; None stands for the return value false. */
    method Peek() returns (r: Option<Entry<V>>)
      requires Valid()
      ensures r.None? <==> count == 0
      ensures r.Some? ==> Least(r.value, Contents())
      ensures r.Some? ==> count > 0 && r.value == entries[0]
    {
      hide IsHeap, Least, Bag;
      if count == 0 {
        return None;
      }
      RootIsLeast(entries[..count]);
      assert entries[..count][0] == entries[0];
      r := Some(entries[0]);
    }

    /** `nxp_pq_pop`: removes and returns a minimum; None stands for the return value false. */
    method Pop() returns (r: Option<Entry<V>>)
      requires Valid()
      modifies this`count, entries
      ensures Valid()
      ensures r.None? <==> old(count) == 0
      ensures r.None? ==> Contents() == old(Contents())
      ensures r.Some? ==> count == old(count) - 1
      ensures r.Some? ==> Least(r.value, old(Contents())) && Contents() == old(Contents()) - multiset{r.value}
      ensures r.Some? && old(count) > 0 ==> r.value == old(entries[0])
    {
      hide IsHeap, Least, Bag;
      if count == 0 {
        return None;
      }
      ghost var s := entries[..count];
      RootIsLeast(s);
      r := Some(entries[0]);
      DropRoot();
    }

    method DropRoot()
      requires Valid() && count > 0
      modifies this`count, entries
      ensures Valid() && count == old(count) - 1 && Contents() == old(Contents()) - multiset{old(entries[0])}
    {
      hide IsHeap, HeapAbove, Bag;
      ghost var s := entries[..count];
      RemoveRoot(s);
      count := count - 1;
      if count > 0 {
        entries[0] := entries[count];
        assert entries[..count] == LastToRoot(s);
        SiftDown(0);
      } else {
        EmptyHeap(entries[..count]);
      }
    }
  }

  lemma Bound<V>(s: seq<Entry<V>>, k: nat)
    requires HeapBut(s, k)
    ensures k < |s|
  {
  }

  lemma BoundAbove<V>(s: seq<Entry<V>>, k: nat)
    requires HeapAbove(s, k)
    ensures k < |s|
  {
  }

  lemma EmptyHeap<V>(s: seq<Entry<V>>)
    requires s == []
    ensures IsHeap(s) && Bag(s) == multiset{}
  {
  }

  lemma AppendLeaf<V>(s: seq<Entry<V>>, e: Entry<V>)
    requires IsHeap(s)
    ensures HeapBut(s + [e], |s|)
    ensures Bag(s + [e]) == Bag(s) + multiset{e}
  {
    var s' := s + [e];
    forall i | 0 < i < |s'| && i != |s| ensures Below(s', i) {
      assert Below(s, i);
    }
  }

  /** A minimum of a multiset of entries. */
  ghost predicate Least<V>(e: Entry<V>, m: multiset<Entry<V>>)
  {
    e in m && forall x :: x in m ==> e.key <= x.key
  }

  lemma RootIsLeast<V>(s: seq<Entry<V>>)
    requires IsHeap(s) && s != []
    ensures Least(s[0], Bag(s))
  {
    forall x | x in Bag(s) ensures s[0].key <= x.key {
      var i :| 0 <= i < |s| && s[i] == x;
      RootIsMinimum(s, i);
    }
  }

  /** The entries once the last one has taken the root's place. */
  function LastToRoot<V>(s: seq<Entry<V>>): (r: seq<Entry<V>>)
    requires |s| > 1
    ensures |r| == |s| - 1
  {
    s[..|s| - 1][0 := s[|s| - 1]]
  }

  /** That leaves a heap but for the root, with the old root gone. */
  lemma RemoveRoot<V>(s: seq<Entry<V>>)
    requires IsHeap(s) && s != []
    ensures |s| == 1 ==> Bag(s) - multiset{s[0]} == multiset{}
    ensures |s| > 1 ==> HeapAbove(LastToRoot(s), 0) && Bag(LastToRoot(s)) == Bag(s) - multiset{s[0]}
  {
    var n := |s| - 1;
    assert s == s[..n] + [s[n]];
    if n > 0 {
      var s' := LastToRoot(s);
      forall i | 0 < i < n && Parent(i) != 0 ensures Below(s', i) {
        assert Below(s, i);
      }
      assert s[..n] == [s[0]] + s[1..n];
      assert s' == [s[n]] + s[1..n];
    }
  }
}
