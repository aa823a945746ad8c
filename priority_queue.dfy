/**
 * `FixedSizePriorityQueue<T, N>`: a binary min-heap over a fixed array of `N` optional
 * slots plus a `size` counter. `push` rejects an item when the heap is full; `pop` takes the
 * root, moves the last occupied slot to the root and sifts it down (`min_heapy`); `push`
 * sifts the new slot up (`heapify_up`). Items are compared through an integer `key`, which
 * stands for the `Ord` instance the source derives or writes for `T`.
 *
 * The sift operations are first written as functions over the slot sequence
 * (`SiftUp`, `MinHeapify`, `PushSlots`, `PopSlots`); the lemmas below prove that they keep
 * the heap order and the held elements, and the class's methods do exactly what these
 * functions say to its array.
 */
module PriorityQueue {
  import opened Optional
  import opened Slots

  /** Left child index, `(i + 1) * 2 - 1`, when it lies inside the array of length `n`. */
  function Left(i: nat, n: nat): (r: Option<nat>)
    ensures r.Some? ==> r.value == 2 * i + 1 && r.value < n
    ensures r.None? ==> 2 * i + 1 >= n
  {
    if (i + 1) * 2 - 1 < n then Some((i + 1) * 2 - 1) else None
  }

  /** Right child index, `(i + 1) * 2`, when it lies inside the array of length `n`. */
  function Right(i: nat, n: nat): (r: Option<nat>)
    ensures r.Some? ==> r.value == 2 * i + 2 && r.value < n
    ensures r.None? ==> 2 * i + 2 >= n
  {
    if (i + 1) * 2 < n then Some((i + 1) * 2) else None
  }

  /**
   * The slot `min_heapy` picks among slot `i` and its children that are inside the array
   * and occupied: the first one of smallest key, in the order self, left, right.
   */
  function Smallest<T>(s: seq<Option<T>>, i: nat, key: T -> int): (m: nat)
    requires i < |s| && s[i].Some?
    ensures m < |s| && s[m].Some?
    ensures m == i || m == 2 * i + 1 || m == 2 * i + 2
    ensures forall c :: (c == 2 * i + 1 || c == 2 * i + 2) && c < |s| && s[c].Some? ==>
                        key(s[m].value) <= key(s[c].value)
    ensures m != i ==> key(s[m].value) < key(s[i].value)
    ensures m == 2 * i + 2 && 2 * i + 1 < |s| && s[2 * i + 1].Some? ==>
              key(s[m].value) < key(s[2 * i + 1].value)
  {
    var afterLeft :=
      match Left(i, |s|)
      case Some(l) => if s[l].Some? && key(s[l].value) < key(s[i].value) then l else i
      case None => i;
    match Right(i, |s|)
    case Some(r) => if s[r].Some? && key(s[r].value) < key(s[afterLeft].value) then r else afterLeft
    case None => afterLeft
  }

  /** `heapify_up(ci)`: swap the slot with its parent while it is strictly smaller. */
  function SiftUp<T>(s: seq<Option<T>>, ci: nat, key: T -> int): (r: seq<Option<T>>)
    requires ci < |s| && AllSome(s, ci + 1)
    ensures |r| == |s| && multiset(r) == multiset(s) && AllSome(r, ci + 1)
    ensures forall k :: ci < k < |s| ==> r[k] == s[k]
    decreases ci
  {
    if ci == 0 then s
    else
      var pi := ParentIndex(ci);
      if key(s[ci].value) < key(s[pi].value) then SiftUp(Swap(s, ci, pi), pi, key) else s
  }

  /** `min_heapy(i)`: swap the slot with its smallest child while that child is strictly smaller. */
  function MinHeapify<T>(s: seq<Option<T>>, i: nat, key: T -> int): (r: seq<Option<T>>)
    requires i < |s| && s[i].Some?
    ensures |r| == |s| && multiset(r) == multiset(s)
    ensures forall k :: 0 <= k < |s| ==> (r[k].Some? <==> s[k].Some?)
    decreases |s| - i
  {
    var m := Smallest(s, i, key);
    if m != i then MinHeapify(Swap(s, i, m), m, key) else s
  }

  /** The slots after `push(item)` on a heap of `size` elements that is not full. */
  function PushSlots<T>(s: seq<Option<T>>, size: nat, item: T, key: T -> int): seq<Option<T>>
    requires size < |s| && AllSome(s, size)
  {
    SiftUp(s[size := Some(item)], size, key)
  }

  /**
   * The slots after `pop()` on a heap of `size > 0` elements: the root is taken out, the
   * last occupied slot is swapped into the root and sifted down.
   */
  function PopSlots<T>(s: seq<Option<T>>, size: nat, key: T -> int): seq<Option<T>>
    requires 0 < size <= |s|
  {
    var taken := s[0 := None];
    var li := size - 1;
    if taken[li].Some? then MinHeapify(Swap(taken, 0, li), 0, key) else taken
  }

  /** Sifting up a slot that may be smaller than its parent restores the heap order. */
  lemma {:induction false} SiftUpRestoresOrder<T>(s: seq<Option<T>>, n: nat, ci: nat, key: T -> int)
    requires AllSome(s, n) && ci < n
    requires forall c :: 0 < c < n && c != ci ==> key(s[ParentIndex(c)].value) <= key(s[c].value)
    requires ci > 0 ==>
               forall c :: 0 < c < n && ParentIndex(c) == ci ==>
                             key(s[ParentIndex(ci)].value) <= key(s[c].value)
    ensures MinHeapOrdered(SiftUp(s, ci, key), n, key)
    decreases ci
  {
    if ci > 0 {
      var pi := ParentIndex(ci);
      if key(s[ci].value) < key(s[pi].value) {
        var t := Swap(s, ci, pi);
        forall c | 0 < c < n && c != pi
          ensures key(t[ParentIndex(c)].value) <= key(t[c].value)
        {
          var p := ParentIndex(c);
          if c == ci {
          } else if p == ci {
          } else if p == pi {
            assert key(s[pi].value) <= key(s[c].value);
          } else {
            assert key(s[p].value) <= key(s[c].value);
          }
        }
        if pi > 0 {
          var g := ParentIndex(pi);
          forall c | 0 < c < n && ParentIndex(c) == pi
            ensures key(t[g].value) <= key(t[c].value)
          {
            assert key(s[g].value) <= key(s[pi].value);
            if c != ci {
              assert key(s[pi].value) <= key(s[c].value);
            }
          }
        }
        SiftUpRestoresOrder(t, n, pi, key);
      }
    }
  }

  /** Sifting down a slot that may be larger than its children restores the heap order. */
  lemma {:induction false} MinHeapifyRestoresOrder<T>(s: seq<Option<T>>, n: nat, i: nat, key: T -> int)
    requires Occupancy(s, n) && i < n
    requires forall c :: 0 < c < n && ParentIndex(c) != i ==> key(s[ParentIndex(c)].value) <= key(s[c].value)
    requires i > 0 ==>
               forall c :: 0 < c < n && ParentIndex(c) == i ==>
                             key(s[ParentIndex(i)].value) <= key(s[c].value)
    ensures MinHeapOrdered(MinHeapify(s, i, key), n, key)
    decreases |s| - i
  {
    var m := Smallest(s, i, key);
    ParentOfChild(i);
    if m == i {
      forall c | 0 < c < n && ParentIndex(c) == i ensures key(s[i].value) <= key(s[c].value) {
      }
    } else {
      SwapDownAbove(s, n, i, key);
      SwapDownBelow(s, n, i, key);
      MinHeapifyRestoresOrder(Swap(s, i, m), n, m, key);
    }
  }

  /** After swapping slot `i` with its smaller child `m`, every parent above a slot not under `m` is in order. */
  lemma SwapDownAbove<T>(s: seq<Option<T>>, n: nat, i: nat, key: T -> int)
    requires Occupancy(s, n) && i < n
    requires forall c :: 0 < c < n && ParentIndex(c) != i ==> key(s[ParentIndex(c)].value) <= key(s[c].value)
    requires i > 0 ==>
               forall c :: 0 < c < n && ParentIndex(c) == i ==>
                             key(s[ParentIndex(i)].value) <= key(s[c].value)
    requires Smallest(s, i, key) != i
    ensures var m := Smallest(s, i, key);
            var t := Swap(s, i, m);
            m < n && Occupancy(t, n) &&
            forall c :: 0 < c < n && ParentIndex(c) != m ==> key(t[ParentIndex(c)].value) <= key(t[c].value)
  {
    var m := Smallest(s, i, key);
    var t := Swap(s, i, m);
    ParentOfChild(i);
    ParentOfChild(m);
    forall c | 0 < c < n && ParentIndex(c) != m
      ensures key(t[ParentIndex(c)].value) <= key(t[c].value)
    {
      var p := ParentIndex(c);
      if c == m {
      } else if p == i {
      } else if c == i {
        assert key(s[p].value) <= key(s[m].value);
      } else {
        assert key(s[p].value) <= key(s[c].value);
      }
    }
  }

  /** After swapping slot `i` with its smaller child `m`, the new parent of `m` is no larger than `m`'s children. */
  lemma SwapDownBelow<T>(s: seq<Option<T>>, n: nat, i: nat, key: T -> int)
    requires Occupancy(s, n) && i < n
    requires forall c :: 0 < c < n && ParentIndex(c) != i ==> key(s[ParentIndex(c)].value) <= key(s[c].value)
    requires Smallest(s, i, key) != i
    ensures var m := Smallest(s, i, key);
            var t := Swap(s, i, m);
            forall c :: 0 < c < n && ParentIndex(c) == m ==> key(t[ParentIndex(m)].value) <= key(t[c].value)
  {
    var m := Smallest(s, i, key);
    var t := Swap(s, i, m);
    ParentOfChild(m);
    forall c | 0 < c < n && ParentIndex(c) == m
      ensures key(t[ParentIndex(m)].value) <= key(t[c].value)
    {
      assert key(s[m].value) <= key(s[c].value);
    }
  }

  /** `push` on a heap that is not full keeps it a heap and adds exactly the item. */
  lemma PushKeepsHeap<T>(s: seq<Option<T>>, size: nat, item: T, key: T -> int)
    requires Occupancy(s, size) && MinHeapOrdered(s, size, key) && size < |s|
    ensures Occupancy(PushSlots(s, size, item, key), size + 1)
    ensures MinHeapOrdered(PushSlots(s, size, item, key), size + 1, key)
    ensures multiset(Live(PushSlots(s, size, item, key))) == multiset(Live(s)) + multiset{item}
  {
    var u := s[size := Some(item)];
    var r := SiftUp(u, size, key);
    assert MinHeapOrdered(r, size + 1, key) by {
      assert AllSome(u, size + 1);
      forall c | 0 < c < size + 1 && c != size
        ensures key(u[ParentIndex(c)].value) <= key(u[c].value)
      {
        assert u[c] == s[c] && u[ParentIndex(c)] == s[ParentIndex(c)];
      }
      SiftUpRestoresOrder(u, size + 1, size, key);
    }
    assert Occupancy(r, size + 1) by {
      forall k | size + 1 <= k < |r| ensures r[k].None? {
        assert r[k] == u[k] == s[k];
      }
    }
    assert multiset(Live(r)) == multiset(Live(s)) + multiset{item} by {
      LivePermutation(r, u);
      LiveUpdate(s, size, Some(item));
    }
  }

  /** `pop` on a non-empty heap leaves `size - 1` occupied slots in heap order. */
  lemma PopKeepsOrder<T>(s: seq<Option<T>>, size: nat, key: T -> int)
    requires Occupancy(s, size) && MinHeapOrdered(s, size, key) && size > 0
    ensures Occupancy(PopSlots(s, size, key), size - 1)
    ensures MinHeapOrdered(PopSlots(s, size, key), size - 1, key)
  {
    var taken := s[0 := None];
    var li := size - 1;
    if li > 0 {
      var u := Swap(taken, 0, li);
      assert Occupancy(u, li);
      forall c | 0 < c < li && ParentIndex(c) != 0
        ensures key(u[ParentIndex(c)].value) <= key(u[c].value)
      {
        assert u[c] == s[c] && u[ParentIndex(c)] == s[ParentIndex(c)];
      }
      MinHeapifyRestoresOrder(u, li, 0, key);
    } else {
      assert Occupancy(taken, 0);
    }
  }

  /** `pop` on a non-empty heap removes exactly the root item. */
  lemma PopRemovesRoot<T>(s: seq<Option<T>>, size: nat, key: T -> int)
    requires Occupancy(s, size) && size > 0
    ensures multiset(Live(PopSlots(s, size, key))) == multiset(Live(s)) - multiset{s[0].value}
  {
    var taken := s[0 := None];
    var li := size - 1;
    LiveUpdate(s, 0, None);
    if li > 0 {
      LivePermutation(MinHeapify(Swap(taken, 0, li), 0, key), taken);
    }
  }

  /**
   * A fixed-capacity min-heap. `slots` is the source's `array` field; `key` orders the
   * items. The object invariant is that slot `k` is occupied exactly when `k < size`, and
   * that the occupied slots are heap-ordered.
   */
  class FixedSizePriorityQueue<T> {
    const key: T -> int
    const slots: array<Option<T>>
    var size: nat

    ghost predicate Valid()
      reads this, slots
    {
      Occupancy(slots[..], size) && MinHeapOrdered(slots[..], size, key)
    }

    /** The items held, as a multiset. */
    ghost function Elements(): multiset<T>
      reads this, slots
    {
      multiset(Live(slots[..]))
    }

    /** `new()`: every slot empty, size 0. */
    constructor (capacity: nat, key: T -> int)
      ensures Valid() && fresh(slots)
      ensures this.key == key && slots.Length == capacity && size == 0
      ensures forall k :: 0 <= k < capacity ==> slots[k] == None
      ensures Elements() == multiset{}
    {
      this.key := key;
      slots := new Option<T>[capacity](_ => None);
      size := 0;
      new;
      LiveOfOccupancy(slots[..], 0);
    }

    /** `peek()`: the root slot, which holds a minimal item exactly when the heap is non-empty. */
    function Peek(): (r: Option<T>)
      reads this, slots
      requires Valid()
      ensures r.None? <==> size == 0
      ensures r.None? <==> Elements() == multiset{}
      ensures r.Some? ==> r.value in Elements()
      ensures r.Some? ==> forall x :: x in Elements() ==> key(r.value) <= key(x)
    {
      LiveOfOccupancy(slots[..], size);
      if size > 0 then HeapMinimum(slots[..], size, key); slots[0]
      else if slots.Length > 0 then slots[0]
      else None
    }

    /** `heapify_up(ci)`, recursive as in the source. */
    method HeapifyUp(ci: nat)
      requires ci < slots.Length && AllSome(slots[..], ci + 1)
      modifies slots
      ensures slots[..] == SiftUp(old(slots[..]), ci, key)
      decreases ci
    {
      if ci > 0 {
        var pi := ParentIndex(ci);
        if key(slots[ci].value) < key(slots[pi].value) {
          slots[ci], slots[pi] := slots[pi], slots[ci];
          assert slots[..] == Swap(old(slots[..]), ci, pi);
          HeapifyUp(pi);
        }
      }
    }

    /** `min_heapy(i)`, recursive as in the source. */
    method MinHeapy(i: nat)
      requires i < slots.Length && slots[i].Some?
      modifies slots
      ensures slots[..] == MinHeapify(old(slots[..]), i, key)
      decreases slots.Length - i
    {
      var smallest := Smallest(slots[..], i, key);
      if smallest != i {
        slots[i], slots[smallest] := slots[smallest], slots[i];
        assert slots[..] == Swap(old(slots[..]), i, smallest);
        MinHeapy(smallest);
      }
    }

    /** `push(item)`: adds the item and returns true, or returns false and changes nothing when full. */
    method Push(item: T) returns (ok: bool)
      requires Valid()
      modifies this, slots
      ensures Valid()
      ensures ok <==> old(size) < slots.Length
      ensures ok ==> size == old(size) + 1 && Elements() == old(Elements()) + multiset{item}
      ensures ok ==> slots[..] == PushSlots(old(slots[..]), old(size), item, key)
      ensures !ok ==> size == old(size) && slots[..] == old(slots[..])
    {
      if size < slots.Length {
        slots[size] := Some(item);
        HeapifyUp(size);
        size := size + 1;
        PushKeepsHeap(old(slots[..]), old(size), item, key);
        ok := true;
      } else {
        ok := false;
      }
    }

    /**
     * `pop()`: on a non-empty heap removes and returns the root, which `Peek` shows to be a
     * minimal item; on an empty heap returns `None` and changes nothing.
     */
    method Pop() returns (r: Option<T>)
      requires Valid()
      modifies this, slots
      ensures Valid()
      ensures r.None? <==> old(size) == 0
      ensures r == old(Peek())
      ensures r.None? ==> size == 0 && slots[..] == old(slots[..])
      ensures r.Some? ==> size == old(size) - 1 && Elements() == old(Elements()) - multiset{r.value}
      ensures r.Some? ==> slots[..] == PopSlots(old(slots[..]), old(size), key)
    {
      if size > 0 {
        HeapMinimum(slots[..], size, key);
        var root := slots[0].value;
        slots[0] := None;
        var li := size - 1;
        if slots[li].Some? {
          slots[0], slots[li] := slots[li], slots[0];
          assert slots[..] == Swap(old(slots[..])[0 := None], 0, li);
          MinHeapy(0);
        }
        size := size - 1;
        PopKeepsOrder(old(slots[..]), old(size), key);
        PopRemovesRoot(old(slots[..]), old(size), key);
        r := Some(root);
      } else {
        r := None;
      }
    }
  }
}

/** The capacity-3 trace of the source's unit test, replayed on the model. */
module PriorityQueueTrace {
  import opened Optional
  import opened PriorityQueue
  import opened Slots

  function Identity(x: int): int { x }

  /**
   * Push 1, 3, 2 into a heap of capacity 3; a fourth push is refused. The slots end up
   * as the source's test asserts: `[Some(1), Some(3), Some(2)]` with size 3.
   */
  method FillThree() returns (q: FixedSizePriorityQueue<int>, fourthAccepted: bool)
    ensures fresh(q) && fresh(q.slots) && q.Valid() && q.key == Identity
    ensures q.Elements() == multiset{1, 3, 2} && !fourthAccepted
    ensures q.slots[..] == [Some(1), Some(3), Some(2)] && q.size == 3
  {
    q := new FixedSizePriorityQueue<int>(3, Identity);
    assert q.slots[..] == [None, None, None];
    PushOneLayout();
    PushThreeLayout();
    PushTwoLayout();
    var ok := PushOnto(q, 1, 0, multiset{});
    ok := PushOnto(q, 3, 1, multiset{} + multiset{1});
    ok := PushOnto(q, 2, 2, multiset{} + multiset{1} + multiset{3});
    fourthAccepted := PushOnto(q, 4, 3, multiset{} + multiset{1} + multiset{3} + multiset{2});
    HeldAfterFill();
  }

  lemma HeldAfterFill()
    ensures multiset{} + multiset{1} + multiset{3} + multiset{2} == multiset{1, 3, 2}
  {
  }

  /** The first push puts 1 into the root of the empty heap. */
  lemma PushOneLayout()
    ensures PushSlots([None, None, None], 0, 1, Identity) == [Some(1), None, None]
  {
    assert [None, None, None][0 := Some(1)] == [Some(1), None, None];
  }

  /** The second push leaves 3 in the left child: it is not smaller than the root 1. */
  lemma PushThreeLayout()
    ensures PushSlots([Some(1), None, None], 1, 3, Identity) == [Some(1), Some(3), None]
  {
    var u := [Some(1), None, None][1 := Some(3)];
    assert u == [Some(1), Some(3), None];
    assert ParentIndex(1) == 0;
    assert Identity(u[1].value) == 3 && Identity(u[0].value) == 1;
  }

  /** The third push leaves 2 in the right child: it is not smaller than the root 1. */
  lemma PushTwoLayout()
    ensures PushSlots([Some(1), Some(3), None], 2, 2, Identity) == [Some(1), Some(3), Some(2)]
  {
    var u := [Some(1), Some(3), None][2 := Some(2)];
    assert u == [Some(1), Some(3), Some(2)];
    assert ParentIndex(2) == 0;
    assert Identity(u[2].value) == 2 && Identity(u[0].value) == 1;
  }

  /** One `push` onto a heap of capacity 3 holding the `n` elements `held`. */
  method PushOnto(q: FixedSizePriorityQueue<int>, item: int, n: nat, held: multiset<int>) returns (ok: bool)
    requires q.Valid() && q.slots.Length == 3 && q.size == n && q.Elements() == held
    modifies q, q.slots
    ensures q.Valid()
    ensures n < 3 ==> ok && q.size == n + 1 && q.Elements() == held + multiset{item}
    ensures n < 3 ==> q.slots[..] == PushSlots(old(q.slots[..]), n, item, q.key)
    ensures n >= 3 ==> !ok && q.size == n && q.Elements() == held && q.slots[..] == old(q.slots[..])
  {
    ok := q.Push(item);
  }

  /** `least` is held, and nothing held is smaller. */
  ghost predicate IsLeast(least: int, held: multiset<int>) {
    least in held && forall x :: x in held ==> least <= x
  }

  /** One `pop` on a heap holding `held`, whose least element is `least`. */
  method PopLeast(q: FixedSizePriorityQueue<int>, held: multiset<int>, least: int) returns (r: Option<int>)
    requires q.Valid() && q.key == Identity && q.Elements() == held
    requires IsLeast(least, held)
    modifies q, q.slots
    ensures q.Valid() && q.Elements() == held - multiset{least} && r == Some(least)
  {
    LiveOfOccupancy(q.slots[..], q.size);
    assert q.size > 0;
    r := q.Pop();
    assert r.value <= least && least <= r.value;
  }

  /** After the pushes above, the pops give 1, 2, 3 and then nothing. */
  method CapacityThreeTrace() returns (fourthAccepted: bool, first: Option<int>, second: Option<int>,
                                       third: Option<int>, fourth: Option<int>)
    ensures !fourthAccepted
    ensures first == Some(1) && second == Some(2) && third == Some(3) && fourth == None
  {
    var q;
    q, fourthAccepted := FillThree();
    first, second, third := PopThree(q);
    fourth := q.Pop();
  }

  /** Three pops on the heap holding 1, 3 and 2 give them in order and empty it. */
  method PopThree(q: FixedSizePriorityQueue<int>) returns (first: Option<int>, second: Option<int>, third: Option<int>)
    requires q.Valid() && q.key == Identity && q.Elements() == multiset{1, 3, 2}
    modifies q, q.slots
    ensures q.Valid() && q.Elements() == multiset{}
    ensures first == Some(1) && second == Some(2) && third == Some(3)
  {
    HeldWhilePopping();
    first := PopLeast(q, multiset{1, 3, 2}, 1);
    second := PopLeast(q, multiset{2, 3}, 2);
    third := PopLeast(q, multiset{3}, 3);
  }

  /** What each of the three pops finds in the heap, and what it leaves. */
  lemma HeldWhilePopping()
    ensures IsLeast(1, multiset{1, 3, 2})
    ensures multiset{1, 3, 2} - multiset{1} == multiset{2, 3}
    ensures IsLeast(2, multiset{2, 3})
    ensures multiset{2, 3} - multiset{2} == multiset{3}
    ensures IsLeast(3, multiset{3})
    ensures multiset{3} - multiset{3} == multiset{}
  {
    assert multiset{1, 3, 2} - multiset{1} == multiset{2, 3};
    assert multiset{2, 3} - multiset{2} == multiset{3};
  }
}
