/**
 * Facts about the slot arrays `[Option<T>; N]` that both fixed-size heaps of the firmware
 * keep: which slots are occupied, the elements held by the occupied slots, and the
 * binary-heap order between a slot and its parent. Priorities are integer keys, so that a
 * heap over commands can be ordered by any key the firmware derives from them.
 */
module Slots {
  import opened Optional

  /** Exchanges two entries, as `array.swap(i, j)` does. */
  function Swap<T>(s: seq<T>, i: nat, j: nat): (r: seq<T>)
    requires i < |s| && j < |s|
    ensures |r| == |s| && r[i] == s[j] && r[j] == s[i]
    ensures forall k :: 0 <= k < |s| && k != i && k != j ==> r[k] == s[k]
    ensures multiset(r) == multiset(s)
  {
    s[i := s[j]][j := s[i]]
  }

  /** The first `n` slots are occupied. */
  ghost predicate AllSome<T>(s: seq<Option<T>>, n: nat) {
    n <= |s| && forall k :: 0 <= k < n ==> s[k].Some?
  }

  /** A slot is occupied exactly when its index is below `n`. */
  ghost predicate Occupancy<T>(s: seq<Option<T>>, n: nat) {
    n <= |s| && forall k :: 0 <= k < |s| ==> (s[k].Some? <==> k < n)
  }

  /** The parent of a non-root slot, computed as the source does: `(i + 1) / 2 - 1`. */
  function ParentIndex(i: nat): (p: nat)
    requires i > 0
    ensures p < i && (i == 2 * p + 1 || i == 2 * p + 2)
  {
    (i + 1) / 2 - 1
  }

  lemma ParentOfChild(p: nat)
    ensures ParentIndex(2 * p + 1) == p && ParentIndex(2 * p + 2) == p
  {
  }

  /** Every occupied non-root slot below `n` is no smaller (by `key`) than its parent. */
  ghost predicate MinHeapOrdered<T>(s: seq<Option<T>>, n: nat, key: T -> int) {
    AllSome(s, n) &&
    forall c :: 0 < c < n ==> key(s[ParentIndex(c)].value) <= key(s[c].value)
  }

  /** The elements held by the occupied slots, in slot order. */
  function Live<T>(s: seq<Option<T>>): seq<T> {
    if s == [] then []
    else (if s[0].Some? then [s[0].value] else []) + Live(s[1..])
  }

  /** The element an optional slot holds, as a multiset of zero or one element. */
  function Held<T>(o: Option<T>): multiset<T> {
    if o.Some? then multiset{o.value} else multiset{}
  }

  lemma {:induction false} LiveCount<T>(s: seq<Option<T>>, x: T)
    ensures multiset(Live(s))[x] == multiset(s)[Some(x)]
  {
    if s != [] {
      LiveCount(s[1..], x);
      assert multiset(s) == multiset{s[0]} + multiset(s[1..]) by {
        assert s == [s[0]] + s[1..];
      }
      assert multiset(Live(s)) == Held(s[0]) + multiset(Live(s[1..]));
      HeldCount(s[0], x);
    }
  }

  lemma MultisetExtensionality<T>(a: multiset<T>, b: multiset<T>)
    requires forall x :: a[x] == b[x]
    ensures a == b
  {
  }

  /** Permuting the slots permutes the held elements. */
  lemma LivePermutation<T>(s: seq<Option<T>>, t: seq<Option<T>>)
    requires multiset(s) == multiset(t)
    ensures multiset(Live(s)) == multiset(Live(t))
  {
    forall x: T ensures multiset(Live(s))[x] == multiset(Live(t))[x] {
      LiveCount(s, x);
      LiveCount(t, x);
    }
    MultisetExtensionality(multiset(Live(s)), multiset(Live(t)));
  }

  /** Overwriting one slot trades the element it held for the new one. */
  lemma LiveUpdate<T>(s: seq<Option<T>>, i: nat, v: Option<T>)
    requires i < |s|
    ensures multiset(Live(s[i := v])) + Held(s[i]) == multiset(Live(s)) + Held(v)
  {
    forall x: T ensures (multiset(Live(s[i := v])) + Held(s[i]))[x] == (multiset(Live(s)) + Held(v))[x] {
      LiveUpdateAt(s, i, v, x);
    }
    MultisetExtensionality(multiset(Live(s[i := v])) + Held(s[i]), multiset(Live(s)) + Held(v));
  }

  lemma LiveUpdateAt<T>(s: seq<Option<T>>, i: nat, v: Option<T>, x: T)
    requires i < |s|
    ensures (multiset(Live(s[i := v])) + Held(s[i]))[x] == (multiset(Live(s)) + Held(v))[x]
  {
    var t := s[i := v];
    assert multiset(t)[Some(x)] + multiset{s[i]}[Some(x)] == multiset(s)[Some(x)] + multiset{v}[Some(x)] by {
      assert s[i] in multiset(s);
    }
    LiveCount(s, x);
    LiveCount(t, x);
    HeldCount(s[i], x);
    HeldCount(v, x);
  }

  lemma HeldCount<T>(o: Option<T>, x: T)
    ensures Held(o)[x] == multiset{o}[Some(x)]
  {
  }

  /** With occupancy `n`, exactly `n` elements are held, and they are the first `n` slots. */
  lemma {:induction false} LiveOfOccupancy<T>(s: seq<Option<T>>, n: nat)
    requires Occupancy(s, n)
    ensures |Live(s)| == n
    ensures forall k :: 0 <= k < n ==> Live(s)[k] == s[k].value
  {
    if s != [] {
      if n == 0 {
        LiveOfOccupancy(s[1..], 0);
      } else {
        LiveOfOccupancy(s[1..], n - 1);
      }
    }
  }

  /** An element is held exactly when some occupied slot below `n` holds it. */
  lemma HeldAt<T>(s: seq<Option<T>>, n: nat, x: T)
    requires Occupancy(s, n)
    ensures x in multiset(Live(s)) <==> exists k :: 0 <= k < n && s[k] == Some(x)
  {
    LiveCount(s, x);
    if x in multiset(Live(s)) {
      assert Some(x) in s;
      var k :| 0 <= k < |s| && s[k] == Some(x);
      assert k < n;
    }
    if exists k :: 0 <= k < n && s[k] == Some(x) {
      var k :| 0 <= k < n && s[k] == Some(x);
      assert Some(x) in multiset(s);
    }
  }

  /** In a min-heap every occupied slot is no smaller than the root. */
  lemma {:induction false} RootIsMinimum<T>(s: seq<Option<T>>, n: nat, key: T -> int, k: nat)
    requires MinHeapOrdered(s, n, key) && k < n
    ensures key(s[0].value) <= key(s[k].value)
    decreases k
  {
    if k > 0 {
      RootIsMinimum(s, n, key, ParentIndex(k));
    }
  }

  /** The root of a non-empty min-heap is held, and no held element has a smaller key. */
  lemma HeapMinimum<T>(s: seq<Option<T>>, n: nat, key: T -> int)
    requires Occupancy(s, n) && MinHeapOrdered(s, n, key) && n > 0
    ensures s[0].value in multiset(Live(s))
    ensures forall x :: x in multiset(Live(s)) ==> key(s[0].value) <= key(x)
  {
    HeldAt(s, n, s[0].value);
    forall x | x in multiset(Live(s)) ensures key(s[0].value) <= key(x) {
      HeldAt(s, n, x);
      var k :| 0 <= k < n && s[k] == Some(x);
      RootIsMinimum(s, n, key, k);
    }
  }
}
