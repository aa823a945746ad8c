/**
 * `FixedSizeQueue<T, N>`: the earlier binary max-heap over `[Option<T>; N]` plus a `size`
 * counter, used by the first LED component. A push on a full heap does not fail: it replaces
 * the root when the new item is larger and otherwise drops the item. Slots are compared as
 * Rust compares `Option<T>`: `None` is below every `Some`, and two `Some`s compare by `key`.
 *
 * `pop` takes the root out of the heap, leaving `None` there, and sifts that `None` down
 * without moving the last occupied slot into the root; the slot just beyond the new `size`
 * then falls out of the heap. The model keeps this behaviour (`Pop`, `PoppedSlots`) and adds
 * the evidently intended pop (`RepairedPop`, `RepairedPopSlots`), which moves the last
 * occupied slot to the root first.
 */
module EvictingQueue {
  import opened Optional
  import opened Slots

  /** `a < b` on `Option<T>`, as derived by Rust: `None < Some(_)`, `Some`s by key. */
  predicate Less<T>(a: Option<T>, b: Option<T>, key: T -> int)
    ensures Less(a, b, key) ==> b.Some?
    ensures a.None? && b.Some? ==> Less(a, b, key)
    ensures a == b ==> !Less(a, b, key)
    ensures a.Some? && b.Some? ==> (Less(a, b, key) <==> key(a.value) < key(b.value))
  {
    (a.None? && b.Some?) || (a.Some? && b.Some? && key(a.value) < key(b.value))
  }

  /** `a >= b` on `Option<T>`. */
  predicate AtLeast<T>(a: Option<T>, b: Option<T>, key: T -> int)
    ensures b.None? ==> AtLeast(a, b, key)
    ensures a == b ==> AtLeast(a, b, key)
    ensures a.None? ==> (AtLeast(a, b, key) <==> b.None?)
    ensures a.Some? && b.Some? ==> (AtLeast(a, b, key) <==> key(a.value) >= key(b.value))
  {
    !Less(a, b, key)
  }

  /** The first `n` slots form a max-heap under the `Option` order. */
  ghost predicate MaxHeapOrdered<T>(s: seq<Option<T>>, n: nat, key: T -> int) {
    n <= |s| && forall c :: 0 < c < n ==> AtLeast(s[ParentIndex(c)], s[c], key)
  }

  /** `heapify_up(index)`: swap the slot with its parent `(index - 1) / 2` while strictly greater. */
  function SiftUpMax<T>(s: seq<Option<T>>, index: nat, key: T -> int): (r: seq<Option<T>>)
    requires index < |s|
    ensures |r| == |s| && multiset(r) == multiset(s)
    ensures forall k :: index < k < |s| ==> r[k] == s[k]
    decreases index
  {
    if index == 0 then s
    else
      var parent := ParentIndex(index);
      if Less(s[parent], s[index], key) then SiftUpMax(Swap(s, index, parent), parent, key) else s
  }

  /** The child `heapify_down` compares with: the right one only when it is strictly greater. */
  function LargestChild<T>(s: seq<Option<T>>, size: nat, index: nat, key: T -> int): (m: nat)
    requires size <= |s| && 2 * index + 1 < size
    ensures (m == 2 * index + 1 || m == 2 * index + 2) && m < size
    ensures AtLeast(s[m], s[2 * index + 1], key)
    ensures 2 * index + 2 < size ==> AtLeast(s[m], s[2 * index + 2], key)
  {
    if 2 * index + 2 < size && Less(s[2 * index + 1], s[2 * index + 2], key) then 2 * index + 2
    else 2 * index + 1
  }

  /**
   * `heapify_down(index)` against a heap of `size` slots: swap the slot with its larger
   * child while that child is strictly greater.
   */
  function SiftDownMax<T>(s: seq<Option<T>>, size: nat, index: nat, key: T -> int): (r: seq<Option<T>>)
    requires size <= |s|
    ensures |r| == |s| && multiset(r) == multiset(s)
    ensures forall k :: size <= k < |s| ==> r[k] == s[k]
    decreases size - index
  {
    if 2 * index + 1 < size then
      var largest := LargestChild(s, size, index, key);
      if Less(s[index], s[largest], key) then SiftDownMax(Swap(s, index, largest), size, largest, key)
      else s
    else s
  }

  /** One round of `heapify_down`: a swap with the larger child and on from there, or a stop. */
  lemma SiftDownMaxStepsTo<T>(s: seq<Option<T>>, size: nat, index: nat, key: T -> int)
    requires size <= |s| && 2 * index + 1 < size
    ensures var m := LargestChild(s, size, index, key);
            SiftDownMax(s, size, index, key) ==
              if Less(s[index], s[m], key) then SiftDownMax(Swap(s, index, m), size, m, key) else s
  {
  }

  /** The size after `push`: one more below capacity, unchanged at capacity. */
  function PushedSize(size: nat, capacity: nat): nat {
    if size < capacity then size + 1 else size
  }

  /** Whether a push at capacity overwrites the root: the root is occupied and below the item. */
  predicate Evicts<T>(s: seq<Option<T>>, item: T, key: T -> int) {
    |s| > 0 && s[0].Some? && key(s[0].value) < key(item)
  }

  /** The slots after `push(item)` on a heap of `size` slots. */
  function PushedSlots<T>(s: seq<Option<T>>, size: nat, item: T, key: T -> int): (r: seq<Option<T>>)
    requires size <= |s|
    ensures |r| == |s|
  {
    if size < |s| then SiftUpMax(s[size := Some(item)], size, key)
    else if Evicts(s, item, key) then SiftDownMax(s[0 := Some(item)], size, 0, key)
    else s
  }

  /** The slots after `pop()` as written: the root is taken, and the `None` left there sinks. */
  function PoppedSlots<T>(s: seq<Option<T>>, size: nat, key: T -> int): (r: seq<Option<T>>)
    requires size <= |s|
    ensures |r| == |s|
    ensures size > 1 ==> r[size - 1] == s[size - 1]
  {
    if size > 0 then SiftDownMax(s[0 := None], size - 1, 0, key) else s
  }

  /** The slots after the repaired pop: the last occupied slot moves to the root and sinks. */
  function RepairedPopSlots<T>(s: seq<Option<T>>, size: nat, key: T -> int): (r: seq<Option<T>>)
    requires size <= |s|
    ensures |r| == |s|
    ensures size > 0 ==> r[size - 1] == None
  {
    if size > 0 then SiftDownMax(Swap(s[0 := None], 0, size - 1), size - 1, 0, key) else s
  }

  /** Equal multisets and equal tails give equal multisets of the prefixes. */
  lemma PrefixPermutation<T>(s: seq<T>, r: seq<T>, n: nat)
    requires n <= |s| == |r| && multiset(r) == multiset(s)
    requires forall k :: n <= k < |s| ==> r[k] == s[k]
    ensures multiset(r[..n]) == multiset(s[..n])
  {
    assert s == s[..n] + s[n..];
    assert r == r[..n] + r[n..];
    assert r[n..] == s[n..];
    assert multiset(s) == multiset(s[..n]) + multiset(s[n..]);
    assert multiset(r) == multiset(r[..n]) + multiset(r[n..]);
    forall x: T ensures multiset(r[..n])[x] == multiset(s[..n])[x] {
      assert multiset(r)[x] == multiset(r[..n])[x] + multiset(r[n..])[x];
      assert multiset(s)[x] == multiset(s[..n])[x] + multiset(s[n..])[x];
    }
    MultisetExtensionality(multiset(r[..n]), multiset(s[..n]));
  }

  /** Sifting up a slot that may be greater than its parent restores the max-heap order. */
  lemma {:induction false} SiftUpMaxRestoresOrder<T>(s: seq<Option<T>>, n: nat, index: nat, key: T -> int)
    requires n <= |s| && index < n
    requires forall c :: 0 < c < n && c != index ==> AtLeast(s[ParentIndex(c)], s[c], key)
    requires index > 0 ==>
               forall c :: 0 < c < n && ParentIndex(c) == index ==> AtLeast(s[ParentIndex(index)], s[c], key)
    ensures MaxHeapOrdered(SiftUpMax(s, index, key), n, key)
    decreases index
  {
    if index > 0 {
      var pi := ParentIndex(index);
      if Less(s[pi], s[index], key) {
        var t := Swap(s, index, pi);
        forall c | 0 < c < n && c != pi
          ensures AtLeast(t[ParentIndex(c)], t[c], key)
        {
          var p := ParentIndex(c);
          if c == index {
          } else if p == index {
          } else if p == pi {
            assert AtLeast(s[pi], s[c], key);
          } else {
            assert AtLeast(s[p], s[c], key);
          }
        }
        if pi > 0 {
          var g := ParentIndex(pi);
          forall c | 0 < c < n && ParentIndex(c) == pi
            ensures AtLeast(t[g], t[c], key)
          {
            assert AtLeast(s[g], s[pi], key);
            if c != index {
              assert AtLeast(s[pi], s[c], key);
            }
          }
        }
        SiftUpMaxRestoresOrder(t, n, pi, key);
      }
    }
  }

  /** One swap of `heapify_down` moves the defect from slot `i` to the child `m` it swapped with. */
  lemma SiftDownMaxStep<T>(s: seq<Option<T>>, size: nat, i: nat, m: nat, key: T -> int)
    requires size <= |s| && 2 * i + 1 < size && m == LargestChild(s, size, i, key)
    requires Less(s[i], s[m], key)
    requires forall c :: 0 < c < size && ParentIndex(c) != i ==> AtLeast(s[ParentIndex(c)], s[c], key)
    requires i > 0 ==>
               forall c :: 0 < c < size && ParentIndex(c) == i ==> AtLeast(s[ParentIndex(i)], s[c], key)
    ensures forall c :: 0 < c < size && ParentIndex(c) != m ==>
                        AtLeast(Swap(s, i, m)[ParentIndex(c)], Swap(s, i, m)[c], key)
    ensures forall c :: 0 < c < size && ParentIndex(c) == m ==>
                        AtLeast(Swap(s, i, m)[ParentIndex(m)], Swap(s, i, m)[c], key)
  {
    var t := Swap(s, i, m);
    ParentOfChild(i);
    ParentOfChild(m);
    forall c | 0 < c < size && ParentIndex(c) != m
      ensures AtLeast(t[ParentIndex(c)], t[c], key)
    {
      var p := ParentIndex(c);
      if c == m {
      } else if p == i {
      } else if c == i {
        assert AtLeast(s[p], s[m], key);
      } else {
        assert AtLeast(s[p], s[c], key);
      }
    }
    forall c | 0 < c < size && ParentIndex(c) == m
      ensures AtLeast(t[ParentIndex(m)], t[c], key)
    {
      assert AtLeast(s[m], s[c], key);
    }
  }

  /** Where `heapify_down` stops, the slots already form a max-heap. */
  lemma SiftDownMaxSettled<T>(s: seq<Option<T>>, size: nat, i: nat, key: T -> int)
    requires size <= |s|
    requires 2 * i + 1 < size ==> !Less(s[i], s[LargestChild(s, size, i, key)], key)
    requires forall c :: 0 < c < size && ParentIndex(c) != i ==> AtLeast(s[ParentIndex(c)], s[c], key)
    ensures MaxHeapOrdered(s, size, key)
  {
    ParentOfChild(i);
    forall c | 0 < c < size && ParentIndex(c) == i ensures AtLeast(s[i], s[c], key) {
      var m := LargestChild(s, size, i, key);
      assert AtLeast(s[m], s[c], key);
    }
  }

  /** Sifting down a slot that may be smaller than its children restores the max-heap order. */
  lemma {:induction false} SiftDownMaxRestoresOrder<T>(s: seq<Option<T>>, size: nat, i: nat, key: T -> int)
    requires size <= |s|
    requires forall c :: 0 < c < size && ParentIndex(c) != i ==> AtLeast(s[ParentIndex(c)], s[c], key)
    requires i > 0 ==>
               forall c :: 0 < c < size && ParentIndex(c) == i ==> AtLeast(s[ParentIndex(i)], s[c], key)
    ensures MaxHeapOrdered(SiftDownMax(s, size, i, key), size, key)
    decreases size - i
  {
    if 2 * i + 1 < size && Less(s[i], s[LargestChild(s, size, i, key)], key) {
      var m := LargestChild(s, size, i, key);
      SiftDownMaxStep(s, size, i, m, key);
      SiftDownMaxRestoresOrder(Swap(s, i, m), size, m, key);
    } else {
      SiftDownMaxSettled(s, size, i, key);
    }
  }

  /** In a max-heap no slot of the first `n` is above the root. */
  lemma {:induction false} RootIsLargest<T>(s: seq<Option<T>>, n: nat, key: T -> int, k: nat)
    requires MaxHeapOrdered(s, n, key) && k < n
    ensures AtLeast(s[0], s[k], key)
    decreases k
  {
    if k > 0 {
      RootIsLargest(s, n, key, ParentIndex(k));
    }
  }

  /** `push`, in both of its branches, keeps the first `size` slots a max-heap. */
  lemma PushKeepsOrder<T>(s: seq<Option<T>>, size: nat, item: T, key: T -> int)
    requires MaxHeapOrdered(s, size, key)
    ensures MaxHeapOrdered(PushedSlots(s, size, item, key), PushedSize(size, |s|), key)
  {
    if size < |s| {
      var u := s[size := Some(item)];
      forall c | 0 < c < size + 1 && c != size ensures AtLeast(u[ParentIndex(c)], u[c], key) {
        assert u[c] == s[c] && u[ParentIndex(c)] == s[ParentIndex(c)];
      }
      SiftUpMaxRestoresOrder(u, size + 1, size, key);
    } else if Evicts(s, item, key) {
      var u := s[0 := Some(item)];
      forall c | 0 < c < size && ParentIndex(c) != 0 ensures AtLeast(u[ParentIndex(c)], u[c], key) {
        assert u[c] == s[c] && u[ParentIndex(c)] == s[ParentIndex(c)];
      }
      SiftDownMaxRestoresOrder(u, size, 0, key);
    }
  }

  /**
   * What `push` holds afterwards: below capacity the old slots plus the item; at capacity
   * either the old slots with the root traded for the item, or the old slots unchanged.
   * Slots beyond the new size are untouched.
   */
  lemma PushContents<T>(s: seq<Option<T>>, size: nat, item: T, key: T -> int)
    requires size <= |s|
    ensures var r := PushedSlots(s, size, item, key);
            |r| == |s| &&
            (forall k :: PushedSize(size, |s|) <= k < |s| ==> r[k] == s[k]) &&
            (size < |s| ==> multiset(r[..size + 1]) == multiset(s[..size]) + multiset{Some(item)}) &&
            (size == |s| && Evicts(s, item, key) ==>
               multiset(r[..size]) == multiset(s[..size][0 := Some(item)])) &&
            (size == |s| && !Evicts(s, item, key) ==> r == s)
  {
    var r := PushedSlots(s, size, item, key);
    if size < |s| {
      var u := s[size := Some(item)];
      PrefixPermutation(u, r, size + 1);
      assert u[..size + 1] == s[..size] + [Some(item)];
    } else if Evicts(s, item, key) {
      var u := s[0 := Some(item)];
      PrefixPermutation(u, r, size);
      assert u[..size] == s[..size][0 := Some(item)];
    }
  }

  /** `pop` as written keeps the first `size - 1` slots a max-heap. */
  lemma PopKeepsOrder<T>(s: seq<Option<T>>, size: nat, key: T -> int)
    requires MaxHeapOrdered(s, size, key)
    ensures size > 0 ==> MaxHeapOrdered(PoppedSlots(s, size, key), size - 1, key)
  {
    if size > 0 {
      var u := s[0 := None];
      forall c | 0 < c < size - 1 && ParentIndex(c) != 0 ensures AtLeast(u[ParentIndex(c)], u[c], key) {
        assert u[c] == s[c] && u[ParentIndex(c)] == s[ParentIndex(c)];
      }
      SiftDownMaxRestoresOrder(u, size - 1, 0, key);
    }
  }

  /**
   * What `pop` as written holds afterwards: the first `size - 1` old slots, with the root
   * replaced by `None`. The old slot `size - 1` is no longer among them.
   */
  lemma PopContents<T>(s: seq<Option<T>>, size: nat, key: T -> int)
    requires 0 < size <= |s|
    ensures var r := PoppedSlots(s, size, key);
            |r| == |s| && multiset(r[..size - 1]) == multiset(s[0 := None][..size - 1]) &&
            forall k :: size - 1 <= k < |s| ==> r[k] == s[0 := None][k]
  {
    var u := s[0 := None];
    PrefixPermutation(u, PoppedSlots(s, size, key), size - 1);
  }

  /** The repaired pop keeps the slot invariant and the heap order. */
  lemma RepairedPopKeepsHeap<T>(s: seq<Option<T>>, size: nat, key: T -> int)
    requires Occupancy(s, size) && MaxHeapOrdered(s, size, key) && size > 0
    ensures Occupancy(RepairedPopSlots(s, size, key), size - 1)
    ensures MaxHeapOrdered(RepairedPopSlots(s, size, key), size - 1, key)
  {
    var li := size - 1;
    var u := Swap(s[0 := None], 0, li);
    forall c | 0 < c < li && ParentIndex(c) != 0 ensures AtLeast(u[ParentIndex(c)], u[c], key) {
      assert u[c] == s[c] && u[ParentIndex(c)] == s[ParentIndex(c)];
    }
    SiftDownMaxRestoresOrder(u, li, 0, key);
    assert Occupancy(u, li);
    PermutedOccupancy(u, RepairedPopSlots(s, size, key), li);
  }

  /** The repaired pop removes exactly the root item. */
  lemma RepairedPopRemovesRoot<T>(s: seq<Option<T>>, size: nat, key: T -> int)
    requires Occupancy(s, size) && size > 0
    ensures multiset(Live(RepairedPopSlots(s, size, key))) == multiset(Live(s)) - multiset{s[0].value}
  {
    LiveUpdate(s, 0, None);
    var u := Swap(s[0 := None], 0, size - 1);
    LivePermutation(RepairedPopSlots(s, size, key), u);
    LivePermutation(u, s[0 := None]);
  }

  /** Permuting the first `n` slots of a sequence with occupancy `n` keeps that occupancy. */
  lemma PermutedOccupancy<T>(u: seq<Option<T>>, r: seq<Option<T>>, n: nat)
    requires Occupancy(u, n) && |r| == |u| && multiset(r) == multiset(u)
    requires forall k :: n <= k < |u| ==> r[k] == u[k]
    ensures Occupancy(r, n)
  {
    PrefixPermutation(u, r, n);
    forall k | 0 <= k < n ensures r[k].Some? {
      assert r[k] == r[..n][k];
      assert r[k] in multiset(u[..n]);
      var j :| 0 <= j < n && u[..n][j] == r[k];
    }
  }

  /** Push keeps every slot below the size occupied and every slot above it empty. */
  lemma PushKeepsOccupancy<T>(s: seq<Option<T>>, size: nat, item: T, key: T -> int)
    requires Occupancy(s, size)
    ensures Occupancy(PushedSlots(s, size, item, key), PushedSize(size, |s|))
  {
    if size < |s| {
      var u := s[size := Some(item)];
      assert Occupancy(u, size + 1);
      PermutedOccupancy(u, SiftUpMax(u, size, key), size + 1);
    } else if Evicts(s, item, key) {
      var u := s[0 := Some(item)];
      assert Occupancy(u, size);
      PermutedOccupancy(u, SiftDownMax(u, size, 0, key), size);
    }
  }

  /** Push below capacity into an empty slot adds exactly the item to the held elements. */
  lemma PushAddsItem<T>(s: seq<Option<T>>, size: nat, item: T, key: T -> int)
    requires size < |s| && s[size].None?
    ensures multiset(Live(PushedSlots(s, size, item, key))) == multiset(Live(s)) + multiset{item}
  {
    var u := s[size := Some(item)];
    LivePermutation(SiftUpMax(u, size, key), u);
    LiveUpdate(s, size, Some(item));
  }

  /**
   * The fixed-capacity max-heap. `heap` is the source's array field. The object invariant is
   * that the first `size` slots are heap-ordered and that an empty queue has an empty root;
   * slots at and beyond `size` may still hold items that `pop` left behind.
   */
  class FixedSizeQueue<T> {
    const key: T -> int
    const heap: array<Option<T>>
    var size: nat

    ghost predicate Valid()
      reads this, heap
    {
      MaxHeapOrdered(heap[..], size, key) && (size == 0 && heap.Length > 0 ==> heap[0].None?)
    }

    /** The slots are packed: slot `k` is occupied exactly when `k < size`. */
    ghost predicate Packed()
      reads this, heap
    {
      Occupancy(heap[..], size)
    }

    /** The items held by the occupied slots, as a multiset. */
    ghost function Elements(): multiset<T>
      reads this, heap
    {
      multiset(Live(heap[..]))
    }

    /** `new()`: every slot `None`, size 0. */
    constructor (capacity: nat, key: T -> int)
      ensures Valid() && Packed() && fresh(heap)
      ensures this.key == key && heap.Length == capacity && size == 0
      ensures forall k :: 0 <= k < capacity ==> heap[k] == None
    {
      this.key := key;
      heap := new Option<T>[capacity](_ => None);
      size := 0;
    }

    /**
     * `peek()`: slot 0. It is `None` exactly when none of the first `size` slots holds an
     * item, and otherwise it is one of them and no smaller than any of them.
     */
    function Peek(): (r: Option<T>)
      reads this, heap
      requires Valid()
      ensures r.None? <==> forall k :: 0 <= k < size ==> heap[k].None?
      ensures r.Some? ==> r in heap[..size] && forall k :: 0 <= k < size ==> AtLeast(r, heap[k], key)
    {
      if heap.Length > 0 then
        assert forall k :: 0 <= k < size ==> AtLeast(heap[0], heap[k], key) by {
          forall k | 0 <= k < size ensures AtLeast(heap[0], heap[k], key) {
            RootIsLargest(heap[..], size, key, k);
          }
        }
        heap[0]
      else None
    }

    /** `heapify_up(index)`: the `while` loop of the source. */
    method HeapifyUp(start: nat)
      requires start < heap.Length
      modifies heap
      ensures heap[..] == SiftUpMax(old(heap[..]), start, key)
    {
      var index: nat := start;
      while index > 0
        invariant index < heap.Length
        invariant SiftUpMax(heap[..], index, key) == SiftUpMax(old(heap[..]), start, key)
        decreases index
      {
        var parent := (index - 1) / 2;
        assert parent == ParentIndex(index);
        if Less(heap[parent], heap[index], key) {
          ghost var before := heap[..];
          heap[index], heap[parent] := heap[parent], heap[index];
          assert heap[..] == Swap(before, index, parent);
          index := parent;
        } else {
          break;
        }
      }
    }

    /**
     * `heapify_down(index)`: the `while` loop of the source, bounded by the current `size`;
     * the comparison of the two children that picks the larger is `LargestChild`.
     */
    method HeapifyDown(start: nat)
      requires size <= heap.Length
      modifies heap
      ensures heap[..] == SiftDownMax(old(heap[..]), size, start, key)
    {
      var index: nat := start;
      while 2 * index + 1 < size
        invariant SiftDownMax(heap[..], size, index, key) == SiftDownMax(old(heap[..]), size, start, key)
        decreases size - index
      {
        var largestChild := LargestChild(heap[..], size, index, key);
        ghost var before := heap[..];
        SiftDownMaxStepsTo(before, size, index, key);
        if Less(heap[index], heap[largestChild], key) {
          heap[index], heap[largestChild] := heap[largestChild], heap[index];
          assert heap[..] == Swap(before, index, largestChild);
          index := largestChild;
        } else {
          break;
        }
      }
    }
  
    /**
     * `push(item)`. Below capacity the item joins the heap and `size` grows by one. At
     * capacity the size stays, and the root is overwritten by the item exactly when the root
     * is occupied and smaller than the item; otherwise nothing changes. A packed queue stays
     * packed.
     */
    method Push(item: T)
      requires Valid()
      modifies this, heap
      ensures Valid()
      ensures size == PushedSize(old(size), heap.Length)
      ensures heap[..] == PushedSlots(old(heap[..]), old(size), item, key)
      ensures old(size) < heap.Length ==> multiset(heap[..size]) == multiset(old(heap[..size])) + multiset{Some(item)}
      ensures old(size) == heap.Length && Evicts(old(heap[..]), item, key) ==>
                multiset(heap[..size]) == multiset(old(heap[..size])[0 := Some(item)])
      ensures old(size) == heap.Length && !Evicts(old(heap[..]), item, key) ==> heap[..] == old(heap[..])
      ensures old(Packed()) ==> Packed()
      ensures old(Packed()) && old(size) < heap.Length ==> Elements() == old(Elements()) + multiset{item}
    {
      ghost var s := heap[..];
      if size < heap.Length {
        heap[size] := Some(item);
        size := size + 1;
        HeapifyUp(size - 1);
      } else if heap.Length > 0 && heap[0].Some? {
        if key(heap[0].value) < key(item) {
          heap[0] := Some(item);
          HeapifyDown(0);
        }
      }
      PushKeepsOrder(s, old(size), item, key);
      PushContents(s, old(size), item, key);
      if old(Packed()) {
        PushKeepsOccupancy(s, old(size), item, key);
        if old(size) < heap.Length {
          PushAddsItem(s, old(size), item, key);
        }
      }
    }

    /**
     * `pop()` as written. On an empty queue it returns `None` and changes nothing. Otherwise it
     * returns the old root, which is no smaller than any of the first `size` slots, and
     * decrements `size`; the first `size - 1` old slots remain, with the root emptied, so the
     * old slot `size - 1` drops out of the heap.
     */
    method Pop() returns (r: Option<T>)
      requires Valid()
      modifies this, heap
      ensures Valid()
      ensures old(size) == 0 ==> r == None && size == 0 && heap[..] == old(heap[..])
      ensures old(size) > 0 ==> r == old(heap[0]) && size == old(size) - 1
      ensures forall k :: 0 <= k < old(size) ==> AtLeast(r, old(heap[k]), key)
      ensures heap[..] == PoppedSlots(old(heap[..]), old(size), key)
      ensures old(size) > 0 ==> multiset(heap[..size]) == multiset(old(heap[..])[0 := None][..size])
    {
      ghost var s := heap[..];
      if size > 0 {
        forall k | 0 <= k < size ensures AtLeast(heap[0], heap[k], key) {
          RootIsLargest(heap[..], size, key, k);
        }
        r := heap[0];
        heap[0] := None;
        size := size - 1;
        HeapifyDown(0);
        PopKeepsOrder(s, old(size), key);
        PopContents(s, old(size), key);
      } else {
        r := None;
      }
    }

    /**
     * The evidently intended `pop()`: the last occupied slot moves into the root before the
     * sift, so that a packed queue stays packed and hands back its largest item.
     */
    method RepairedPop() returns (r: Option<T>)
      requires Valid() && Packed()
      modifies this, heap
      ensures Valid() && Packed()
      ensures r.None? <==> old(size) == 0
      ensures r.None? ==> heap[..] == old(heap[..]) && size == 0
      ensures r.Some? ==> r.value in old(Elements())
      ensures r.Some? ==> forall x :: x in old(Elements()) ==> key(x) <= key(r.value)
      ensures r.Some? ==> size == old(size) - 1 && Elements() == old(Elements()) - multiset{r.value}
      ensures heap[..] == RepairedPopSlots(old(heap[..]), old(size), key)
    {
      ghost var s := heap[..];
      if size > 0 {
        forall x | x in multiset(Live(s)) ensures key(x) <= key(s[0].value) {
          HeldAt(s, size, x);
          var k :| 0 <= k < size && s[k] == Some(x);
          RootIsLargest(s, size, key, k);
        }
        HeldAt(s, size, s[0].value);
        r := heap[0];
        heap[0] := None;
        size := size - 1;
        heap[0], heap[size] := heap[size], heap[0];
        assert heap[..] == Swap(s[0 := None], 0, size);
        HeapifyDown(0);
        RepairedPopKeepsHeap(s, old(size), key);
        RepairedPopRemovesRoot(s, old(size), key);
      } else {
        r := None;
      }
    }
  }
}

/** The capacity-3 trace of the source's unit test, replayed on the model of both pops. */
module EvictingQueueTrace {
  import opened Optional
  import opened Slots
  import opened EvictingQueue

  function Identity(x: int): int { x }

  /** The slot sequences the three pushes go through. */
  lemma PushOneThreeTwo()
    ensures PushedSlots([None, None, None], 0, 1, Identity) == [Some(1), None, None]
    ensures PushedSlots([Some(1), None, None], 1, 3, Identity) == [Some(3), Some(1), None]
    ensures PushedSlots([Some(3), Some(1), None], 2, 2, Identity) == [Some(3), Some(1), Some(2)]
  {
    PushOneOntoEmpty();
    PushThreeOverOne();
    PushTwoUnderThree();
  }

  lemma PushOneOntoEmpty()
    ensures PushedSlots([None, None, None], 0, 1, Identity) == [Some(1), None, None]
  {
    assert [None, None, None][0 := Some(1)] == [Some(1), None, None];
  }

  /** Pushing 2 onto the queue holding 3 and 1 leaves it in the last slot, under the larger root. */
  lemma PushTwoUnderThree()
    ensures PushedSlots([Some(3), Some(1), None], 2, 2, Identity) == [Some(3), Some(1), Some(2)]
  {
    var u: seq<Option<int>> := [Some(3), Some(1), Some(2)];
    assert [Some(3), Some(1), None][2 := Some(2)] == u;
    assert ParentIndex(2) == 0 && !Less(u[0], u[2], Identity);
  }

  /** Pushing 3 onto the queue holding 1 sifts it up to the root. */
  lemma PushThreeOverOne()
    ensures PushedSlots([Some(1), None, None], 1, 3, Identity) == [Some(3), Some(1), None]
  {
    assert [Some(1), None, None][1 := Some(3)] == [Some(1), Some(3), None];
    assert Swap([Some(1), Some(3), None], 1, 0) == [Some(3), Some(1), None];
  }

  lemma PopTwice()
    ensures PoppedSlots([Some(3), Some(1), Some(2)], 3, Identity) == [Some(1), None, Some(2)]
    ensures PoppedSlots([Some(1), None, Some(2)], 2, Identity) == [None, None, Some(2)]
  {
    var taken: seq<Option<int>> := [None, Some(1), Some(2)];
    assert [Some(3), Some(1), Some(2)][0 := None] == taken;
    assert LargestChild(taken, 2, 0, Identity) == 1;
    assert Swap(taken, 0, 1) == [Some(1), None, Some(2)];
    assert SiftDownMax(taken, 2, 0, Identity) == SiftDownMax([Some(1), None, Some(2)], 2, 1, Identity);
    assert [Some(1), None, Some(2)][0 := None] == [None, None, Some(2)];
  }

  /** Push 1, 3, 2 into a queue of capacity 3: the slots become `[3, 1, 2]`. */
  method FillThree() returns (q: FixedSizeQueue<int>)
    ensures fresh(q) && fresh(q.heap) && q.Valid() && q.Packed() && q.key == Identity
    ensures q.size == 3 && q.heap[..] == [Some(3), Some(1), Some(2)]
  {
    q := new FixedSizeQueue<int>(3, Identity);
    PushOneThreeTwo();
    assert q.heap[..] == [None, None, None];
    q.Push(1);
    q.Push(3);
    q.Push(2);
  }

  /**
   * `pop` as written on that queue returns 3, then 1, then nothing: the item 2 is lost,
   * although the queue held three items.
   */
  method LostItemTrace() returns (first: Option<int>, second: Option<int>, third: Option<int>)
    ensures first == Some(3) && second == Some(1) && third == None
  {
    var q := FillThree();
    PopTwice();
    first := q.Pop();
    second := q.Pop();
    third := q.Pop();
  }

  /** `largest` is held, and nothing held is larger. */
  ghost predicate IsLargest(largest: int, held: multiset<int>) {
    largest in held && forall x :: x in held ==> x <= largest
  }

  /** What each of the three repaired pops finds in the queue, and what it leaves. */
  lemma HeldWhileRepairing()
    ensures IsLargest(3, multiset{3, 1, 2}) && multiset{3, 1, 2} - multiset{3} == multiset{1, 2}
    ensures IsLargest(2, multiset{1, 2}) && multiset{1, 2} - multiset{2} == multiset{1}
    ensures IsLargest(1, multiset{1}) && multiset{1} - multiset{1} == multiset{}
  {
    assert multiset{3, 1, 2} - multiset{3} == multiset{1, 2};
    assert multiset{1, 2} - multiset{2} == multiset{1};
  }

  /** One repaired pop on a packed queue holding `held`, whose largest item is `largest`. */
  method RepairedPopLargest(q: FixedSizeQueue<int>, held: multiset<int>, largest: int) returns (r: Option<int>)
    requires q.Valid() && q.Packed() && q.key == Identity && q.Elements() == held
    requires IsLargest(largest, held)
    modifies q, q.heap
    ensures q.Valid() && q.Packed() && q.Elements() == held - multiset{largest} && r == Some(largest)
  {
    LiveOfOccupancy(q.heap[..], q.size);
    assert q.size > 0;
    r := q.RepairedPop();
    assert r.value <= largest && largest <= r.value;
  }

  /** The same queue, seen through the items it holds. */
  method FillThreeHeld() returns (q: FixedSizeQueue<int>)
    ensures fresh(q) && fresh(q.heap) && q.Valid() && q.Packed() && q.key == Identity
    ensures q.Elements() == multiset{3, 1, 2}
  {
    q := FillThree();
    LiveOfOccupancy(q.heap[..], 3);
    assert Live(q.heap[..]) == [3, 1, 2];
  }

  /** The repaired pop on the same queue returns 3, 2, 1 and then nothing, as the test expects. */
  method RepairedTrace() returns (first: Option<int>, second: Option<int>, third: Option<int>,
                                  fourth: Option<int>)
    ensures first == Some(3) && second == Some(2) && third == Some(1) && fourth == None
  {
    var q := FillThreeHeld();
    HeldWhileRepairing();
    first := RepairedPopLargest(q, multiset{3, 1, 2}, 3);
    second := RepairedPopLargest(q, multiset{1, 2}, 2);
    third := RepairedPopLargest(q, multiset{1}, 1);
    LiveOfOccupancy(q.heap[..], q.size);
    fourth := q.RepairedPop();
  }
}
