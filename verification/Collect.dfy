/** The page collector of a folder listing: a bounded max-heap that keeps the
  smallest names above a cursor while an unsorted folder is scanned.
 */
module Collect {
  import opened Order

  const MAX_DIR_ENTRIES := 5_000_000

  // ---- container/heap over names, largest first ----

  function Parent(k: int): (p: int)
    requires k > 0
    ensures 0 <= p < k
  {
    (k - 1) / 2
  }

  ghost predicate Heap(h: seq<Bytes>) {
    forall k :: 0 < k < |h| ==> Le(h[k], h[Parent(k)])
  }

  /** A heap except that entry `j` may be larger than its parent. */
  ghost predicate HeapUpTo(h: seq<Bytes>, j: int) {
    && (forall k :: 0 < k < |h| && k != j ==> Le(h[k], h[Parent(k)]))
    && (forall k :: 0 < k < |h| && Parent(k) == j && j > 0 ==> Le(h[k], h[Parent(j)]))
  }

  /** A heap except that entry `i` may be smaller than its children. */
  ghost predicate HeapDownFrom(h: seq<Bytes>, i: int) {
    && (forall k :: 0 < k < |h| && Parent(k) != i ==> Le(h[k], h[Parent(k)]))
    && (forall k :: 0 < k < |h| && Parent(k) == i && i > 0 ==> Le(h[k], h[Parent(i)]))
  }

  function Swap(h: seq<Bytes>, i: int, j: int): (r: seq<Bytes>)
    requires 0 <= i < |h| && 0 <= j < |h|
  {
    h[i := h[j]][j := h[i]]
  }

  lemma {:induction false} SwapKeepsNames(h: seq<Bytes>, i: int, j: int)
    requires 0 <= i < |h| && 0 <= j < |h|
    ensures multiset(Swap(h, i, j)) == multiset(h)
  {
  }

  lemma {:induction false} LessIsLe(a: Bytes, b: Bytes)
    requires Less(a, b)
    ensures Le(a, b)
  {
    LessTotal(a, b);
  }

  lemma {:induction false} UpStep(h: seq<Bytes>, j: int)
    requires 0 < j < |h| && HeapUpTo(h, j) && Less(h[Parent(j)], h[j])
    ensures HeapUpTo(Swap(h, j, Parent(j)), Parent(j))
  {
    var p := Parent(j);
    var r := Swap(h, j, p);
    LessIsLe(h[p], h[j]);
    forall k | 0 < k < |h| && k != p ensures Le(r[k], r[Parent(k)]) {
      if k != j && Parent(k) == p {
        LeTransitive(h[k], h[p], h[j]);
      }
    }
    forall k | 0 < k < |h| && Parent(k) == p && p > 0 ensures Le(r[k], r[Parent(p)]) {
      if k != j {
        LeTransitive(h[k], h[p], h[Parent(p)]);
      }
    }
  }

  /** heap.up: moves entry `start` to its place. */
  method Up(h: seq<Bytes>, start: nat) returns (r: seq<Bytes>)
    requires start < |h| && HeapUpTo(h, start)
    ensures Heap(r) && multiset(r) == multiset(h) && |r| == |h|
  {
    r := h;
    var j := start;
    while j > 0 && Less(r[Parent(j)], r[j])
      invariant 0 <= j < |r| == |h| && HeapUpTo(r, j) && multiset(r) == multiset(h)
      decreases j
    {
      UpStep(r, j);
      SwapKeepsNames(r, j, Parent(j));
      r := Swap(r, j, Parent(j));
      j := Parent(j);
    }
  }

  /** Where an entry that is not below `j` stands after the larger child moved up. */
  lemma {:induction false} DownAt(h: seq<Bytes>, i: int, j: int, k: int, r: seq<Bytes>)
    requires 0 <= i && 2 * i + 1 < |h| && HeapDownFrom(h, i) && LargerChild(h, i, j) && Le(h[i], h[j])
    requires r == Swap(h, i, j) && 0 < k < |h| && Parent(k) != j
    ensures Le(r[k], r[Parent(k)])
  {
    if Parent(k) == i {
      assert k == 2 * i + 1 || k == 2 * i + 2;
    } else if k == i {
      assert Parent(j) == i;
    }
  }

  lemma {:induction false} DownBelow(h: seq<Bytes>, i: int, j: int, k: int, r: seq<Bytes>)
    requires 0 <= i && 2 * i + 1 < |h| && HeapDownFrom(h, i) && LargerChild(h, i, j)
    requires r == Swap(h, i, j) && 0 < k < |h| && Parent(k) == j
    ensures Le(r[k], r[Parent(j)])
  {
    assert Parent(j) == i && Le(h[k], h[Parent(k)]);
  }

  lemma {:induction false} DownStep(h: seq<Bytes>, i: int, j: int)
    requires 0 <= i && 2 * i + 1 < |h| && HeapDownFrom(h, i) && LargerChild(h, i, j) && Less(h[i], h[j])
    ensures HeapDownFrom(Swap(h, i, j), j)
  {
    var r := Swap(h, i, j);
    LessIsLe(h[i], h[j]);
    forall k | 0 < k < |r| && Parent(k) != j ensures Le(r[k], r[Parent(k)]) {
      DownAt(h, i, j, k, r);
    }
    forall k | 0 < k < |r| && Parent(k) == j && j > 0 ensures Le(r[k], r[Parent(j)]) {
      DownBelow(h, i, j, k, r);
    }
  }

  lemma {:induction false} DownDone(h: seq<Bytes>, i: int)
    requires 0 <= i < |h| && HeapDownFrom(h, i)
    requires forall k :: 0 < k < |h| && Parent(k) == i ==> Le(h[k], h[i])
    ensures Heap(h)
  {
  }

  /** `j` is the larger child of `i`. */
  ghost predicate LargerChild(h: seq<Bytes>, i: int, j: int)
    requires 0 <= i && 2 * i + 1 < |h|
  {
    && (j == 2 * i + 1 || (j == 2 * i + 2 && j < |h|))
    && Le(h[2 * i + 1], h[j]) && (2 * i + 2 < |h| ==> Le(h[2 * i + 2], h[j]))
  }

  method PickChild(h: seq<Bytes>, i: int) returns (j: int)
    requires 0 <= i && 2 * i + 1 < |h|
    ensures LargerChild(h, i, j)
  {
    j := 2 * i + 1;
    LessTotal(h[j], h[j]);
    if j + 1 < |h| && Less(h[j], h[j + 1]) {
      LessTotal(h[j], h[j + 1]);
      j := j + 1;
      LessTotal(h[j], h[j]);
    }
  }

  lemma {:induction false} DownStops(h: seq<Bytes>, i: int, j: int)
    requires 0 <= i && 2 * i + 1 < |h| && HeapDownFrom(h, i) && LargerChild(h, i, j) && !Less(h[i], h[j])
    ensures Heap(h)
  {
    forall k | 0 < k < |h| && Parent(k) == i ensures Le(h[k], h[i]) {
      assert k == 2 * i + 1 || k == 2 * i + 2;
      LeTransitive(h[k], h[j], h[i]);
    }
    DownDone(h, i);
  }

  /** heap.Fix of the root: moves it down to its place. */
  method Down(h: seq<Bytes>) returns (r: seq<Bytes>)
    requires h != [] && HeapDownFrom(h, 0)
    ensures Heap(r) && multiset(r) == multiset(h) && |r| == |h|
  {
    r := h;
    var i := 0;
    while 2 * i + 1 < |r|
      invariant 0 <= i < |r| == |h| && HeapDownFrom(r, i) && multiset(r) == multiset(h)
      decreases |r| - i
    {
      var j := PickChild(r, i);
      if !Less(r[i], r[j]) {
        DownStops(r, i, j);
        return;
      }
      DownStep(r, i, j);
      SwapKeepsNames(r, i, j);
      r := Swap(r, i, j);
      i := j;
    }
    DownDone(r, i);
  }

  lemma {:induction false} RootIsLargest(h: seq<Bytes>, k: nat)
    requires Heap(h) && k < |h|
    ensures Le(h[k], h[0])
    decreases k
  {
    if k > 0 {
      RootIsLargest(h, Parent(k));
      LeTransitive(h[k], h[Parent(k)], h[0]);
    } else {
      LessTotal(h[0], h[0]);
    }
  }

  // ---- the names above a cursor ----

  predicate Above(name: Bytes, cursor: Bytes) {
    cursor == [] || Less(cursor, name)
  }

  /** The offered names above the cursor, in the order they came. */
  function AboveOf(offered: seq<Bytes>, cursor: Bytes): (r: seq<Bytes>) {
    if offered == [] then []
    else if Above(offered[|offered| - 1], cursor)
    then AboveOf(offered[..|offered| - 1], cursor) + [offered[|offered| - 1]]
    else AboveOf(offered[..|offered| - 1], cursor)
  }

  lemma {:induction false} AboveOfAppend(offered: seq<Bytes>, name: Bytes, cursor: Bytes)
    ensures AboveOf(offered + [name], cursor) ==
            if Above(name, cursor) then AboveOf(offered, cursor) + [name] else AboveOf(offered, cursor)
  {
    assert (offered + [name])[..|offered|] == offered;
  }

  function Min(a: int, b: int): (m: int) {
    if a <= b then a else b
  }

  /** `kept` are the smallest names of `all`, at most `n` of them, and `rest` the others. */
  ghost predicate Smallest(all: multiset<Bytes>, kept: seq<Bytes>, rest: seq<Bytes>, n: nat) {
    && all == multiset(kept) + multiset(rest)
    && |kept| <= n && (rest != [] ==> |kept| == n)
    && (forall a, b :: a in kept && b in rest ==> Le(a, b))
  }

  lemma {:induction false} SortedNames(s: seq<Bytes>)
    ensures Sorted(Sort(s, Le), Le) && multiset(Sort(s, Le)) == multiset(s) && |Sort(s, Le)| == |s|
    ensures forall x :: x in Sort(s, Le) <==> x in s
  {
    LeIsTotalPreorder();
    SortSorts(s, Le);
    SortMembers(s, Le);
  }

  lemma {:induction false} SortedNamesUnique(s: seq<Bytes>, t: seq<Bytes>)
    requires Sorted(s, Le) && Sorted(t, Le) && multiset(s) == multiset(t)
    ensures s == t
  {
    forall a, b | a in s && b in s && Le(a, b) && Le(b, a) ensures a == b {
      LessTotal(a, b);
    }
    SortedUnique(s, t, Le);
  }

  /** The smallest names in order are the front of the whole list in order. */
  lemma {:induction false} SmallestIsFront(all: seq<Bytes>, kept: seq<Bytes>, rest: seq<Bytes>, n: nat)
    requires Smallest(multiset(all), kept, rest, n)
    ensures |all| == |kept| + |rest| == |Sort(all, Le)|
    ensures Sort(kept, Le) == Sort(all, Le)[..Min(n, |all|)]
  {
    var a, b, whole := Sort(kept, Le), Sort(rest, Le), Sort(all, Le);
    SortedNames(kept);
    SortedNames(rest);
    SortedNames(all);
    var joined := a + b;
    JoinedSorted(a, b);
    assert multiset(joined) == multiset(kept) + multiset(rest);
    SortedNamesUnique(joined, whole);
    assert joined[..|kept|] == a;
  }

  lemma {:induction false} JoinedSorted(a: seq<Bytes>, b: seq<Bytes>)
    requires Sorted(a, Le) && Sorted(b, Le) && forall x, y :: x in a && y in b ==> Le(x, y)
    ensures Sorted(a + b, Le)
  {
    var s := a + b;
    forall i, j | 0 <= i < j < |s| ensures Le(s[i], s[j]) {
      if i < |a| <= j {
        assert s[i] in a && s[j] in b;
      }
    }
  }

  /** A new name when there is room. */
  lemma {:induction false} SmallestGrows(all: multiset<Bytes>, kept: seq<Bytes>, rest: seq<Bytes>, n: nat,
                                         name: Bytes, more: seq<Bytes>)
    requires Smallest(all, kept, rest, n) && |kept| < n && multiset(more) == multiset(kept) + multiset{name}
    requires |more| == |kept| + 1
    ensures Smallest(all + multiset{name}, more, rest, n)
  {
  }

  /** A new name that is not below the largest kept one. */
  lemma {:induction false} SmallestSkips(all: multiset<Bytes>, kept: seq<Bytes>, rest: seq<Bytes>, n: nat, name: Bytes)
    requires Smallest(all, kept, rest, n) && |kept| == n && forall a :: a in kept ==> Le(a, name)
    ensures Smallest(all + multiset{name}, kept, rest + [name], n)
  {
  }

  /** A new name that takes the place of the largest kept one. */
  lemma {:induction false} SmallestReplaces(all: multiset<Bytes>, kept: seq<Bytes>, rest: seq<Bytes>, n: nat,
                                            name: Bytes,
                                            top: Bytes, more: seq<Bytes>)
    requires Smallest(all, kept, rest, n) && |kept| == n && top in kept && Less(name, top)
    requires forall a :: a in kept ==> Le(a, top)
    requires multiset(more) == multiset(kept) - multiset{top} + multiset{name} && |more| == |kept|
    ensures Smallest(all + multiset{name}, more, rest + [top], n)
  {
    LessIsLe(name, top);
    LessTotal(top, top);
    forall a, b | a in more && b in rest + [top] ensures Le(a, b) {
      assert a in multiset(more);
      assert a == name || a in multiset(kept);
      if a == name && b in rest {
        LeTransitive(name, top, b);
      }
    }
  }

  /** Keeps the smallest limit+1 names above a cursor. `offered` and `rest` are
      history: all names offered, and those that were dropped. */
  class PageCollector {
    const cursor: Bytes
    const limit: nat
    var h: seq<Bytes>
    var scanned: nat
    var maxHeld: nat
    ghost var offered: seq<Bytes>
    ghost var rest: seq<Bytes>

    ghost predicate Valid()
      reads this
    {
      && Heap(h)
      && Smallest(multiset(AboveOf(offered, cursor)), h, rest, limit + 1)
      && |h| <= maxHeld <= limit + 1
      && scanned == |offered|
    }

    constructor (cursor: Bytes, limit: nat)
      ensures Valid() && offered == [] && this.cursor == cursor && this.limit == limit
    {
      this.cursor, this.limit := cursor, limit;
      h, scanned, maxHeld := [], 0, 0;
      offered, rest := [], [];
    }

    method Push(name: Bytes)
      requires Heap(h)
      modifies this`h
      ensures Heap(h) && multiset(h) == old(multiset(h)) + multiset{name} && |h| == old(|h|) + 1
    {
      h := Up(h + [name], |h|);
    }

    method ReplaceTop(name: Bytes)
      requires Heap(h) && h != [] && Less(name, h[0])
      modifies this`h
      ensures Heap(h) && |h| == old(|h|)
      ensures multiset(h) == old(multiset(h)) - multiset{old(h[0])} + multiset{name}
    {
      ghost var was := h;
      assert was == [was[0]] + was[1..];
      h := h[0 := name];
      assert h == [name] + was[1..];
      h := Down(h);
    }

    /** Offers one name. It fails, and offers nothing, once the folder is too large. */
    method Add(name: Bytes) returns (ok: bool)
      requires Valid()
      modifies this
      ensures ok <==> old(scanned) < MAX_DIR_ENTRIES
      ensures ok ==> Valid() && offered == old(offered) + [name]
    {
      scanned := scanned + 1;
      if scanned > MAX_DIR_ENTRIES {
        return false;
      }
      AboveOfAppend(offered, name, cursor);
      if cursor == [] || Less(cursor, name) {
        Keep(name, multiset(AboveOf(offered, cursor)));
      }
      offered := offered + [name];
      maxHeld := if maxHeld >= |h| then maxHeld else |h|;
      ok := true;
    }

    /** A name above the cursor goes into the heap, or takes the place of the
        largest name there, or is left out. */
    method Keep(name: Bytes, ghost all: multiset<Bytes>)
      requires Heap(h) && Smallest(all, h, rest, limit + 1)
      modifies this`h, this`rest
      ensures Heap(h) && Smallest(all + multiset{name}, h, rest, limit + 1)
    {
      ghost var kept := h;
      if |h| < limit + 1 {
        Push(name);
        SmallestGrows(all, kept, rest, limit + 1, name, h);
        return;
      }
      HeapTop(h);
      if Less(name, h[0]) {
        ReplaceTop(name);
        SmallestReplaces(all, kept, rest, limit + 1, name, kept[0], h);
        rest := rest + [kept[0]];
      } else {
        NotBelowTop(h, name);
        SmallestSkips(all, kept, rest, limit + 1, name);
        rest := rest + [name];
      }
    }

    /** Up to `limit` names in order, and whether more follow: the front of all
        offered names above the cursor, sorted. */
    method Page() returns (names: seq<Bytes>, more: bool)
      requires Valid()
      ensures var all := AboveOf(offered, cursor);
              && |Sort(all, Le)| == |all|
              && names == Sort(all, Le)[..Min(limit, |all|)]
              && (more <==> |all| > limit)
    {
      ghost var all := AboveOf(offered, cursor);
      SmallestIsFront(all, h, rest, limit + 1);
      LeIsTotalPreorder();
      SortSorts(all, Le);
      SortSorts(h, Le);
      names := Sort(h, Le);
      if |names| > limit {
        return names[..limit], true;
      }
      more := false;
    }
  }

  lemma {:induction false} HeapTop(h: seq<Bytes>)
    requires Heap(h) && h != []
    ensures forall a :: a in h ==> Le(a, h[0])
  {
    forall a | a in h ensures Le(a, h[0]) {
      var k :| 0 <= k < |h| && h[k] == a;
      RootIsLargest(h, k);
    }
  }

  lemma {:induction false} NotBelowTop(h: seq<Bytes>, name: Bytes)
    requires h != [] && !Less(name, h[0]) && forall a :: a in h ==> Le(a, h[0])
    ensures forall a :: a in h ==> Le(a, name)
  {
    forall a | a in h ensures Le(a, name) {
      LeTransitive(a, h[0], name);
    }
  }
}
