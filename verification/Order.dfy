/** Byte strings in the order Go gives them, and sorting by any total preorder.

  Go compares strings and `[]byte` byte by byte; every sorted list of names in
  the repository uses that order.
 */
module Order {

  type byte = x: int | 0 <= x < 256

  type Bytes = seq<byte>

  /** `a < b` on Go strings, and `bytes.Compare(a, b) < 0`. */
  predicate Less(a: Bytes, b: Bytes) {
    if b == [] then false
    else if a == [] then true
    else if a[0] != b[0] then a[0] < b[0]
    else Less(a[1..], b[1..])
  }

  predicate Le(a: Bytes, b: Bytes) {
    !Less(b, a)
  }

  lemma {:induction false} LessTotal(a: Bytes, b: Bytes)
    ensures Less(a, b) || a == b || Less(b, a)
    ensures !(Less(a, b) && Less(b, a))
    ensures a == b ==> !Less(a, b)
  {
    if a != [] && b != [] && a[0] == b[0] {
      LessTotal(a[1..], b[1..]);
      assert a == [a[0]] + a[1..] && b == [b[0]] + b[1..];
    }
  }

  lemma {:induction false} LessTransitive(a: Bytes, b: Bytes, c: Bytes)
    requires Less(a, b) && Less(b, c)
    ensures Less(a, c)
  {
    if a != [] && a[0] == b[0] == c[0] {
      LessTransitive(a[1..], b[1..], c[1..]);
    }
  }

  lemma {:induction false} LeTransitive(a: Bytes, b: Bytes, c: Bytes)
    requires Le(a, b) && Le(b, c)
    ensures Le(a, c)
  {
    LessTotal(a, b);
    LessTotal(b, c);
    if a != b && b != c {
      LessTransitive(a, b, c);
    }
    LessTotal(a, c);
  }

  /** The order facts in the quantified form that proofs about lists of names use. */
  lemma {:induction false} LessIsStrictTotalOrder()
    ensures forall a: Bytes, b: Bytes :: Less(a, b) || a == b || Less(b, a)
    ensures forall a: Bytes, b: Bytes :: !(Less(a, b) && Less(b, a))
    ensures forall a: Bytes, b: Bytes, c: Bytes :: Less(a, b) && Less(b, c) ==> Less(a, c)
  {
    forall a: Bytes, b: Bytes {
      LessTotal(a, b);
    }
    forall a: Bytes, b: Bytes, c: Bytes | Less(a, b) && Less(b, c) ensures Less(a, c) {
      LessTransitive(a, b, c);
    }
  }

  ghost predicate TotalPreorder<T(!new)>(le: (T, T) -> bool) {
    && (forall a, b :: le(a, b) || le(b, a))
    && (forall a, b, c :: le(a, b) && le(b, c) ==> le(a, c))
  }

  ghost predicate Sorted<T>(s: seq<T>, le: (T, T) -> bool) {
    forall i, j :: 0 <= i < j < |s| ==> le(s[i], s[j])
  }

  lemma {:induction false} LeIsTotalPreorder()
    ensures TotalPreorder(Le)
  {
    LessIsStrictTotalOrder();
  }

  function Insert<T>(x: T, s: seq<T>, le: (T, T) -> bool): (r: seq<T>) {
    if s == [] || le(x, s[0]) then [x] + s else [s[0]] + Insert(x, s[1..], le)
  }

  /** A sorted permutation of `s`: what Go's `sort` leaves behind. */
  function Sort<T>(s: seq<T>, le: (T, T) -> bool): (r: seq<T>) {
    if s == [] then [] else Insert(s[0], Sort(s[1..], le), le)
  }

  lemma {:induction false} InsertMultiset<T>(x: T, s: seq<T>, le: (T, T) -> bool)
    ensures multiset(Insert(x, s, le)) == multiset(s) + multiset{x}
  {
    if s == [] || le(x, s[0]) {
      assert multiset([x] + s) == multiset{x} + multiset(s);
    } else {
      InsertMultiset(x, s[1..], le);
      assert s == [s[0]] + s[1..];
    }
  }

  lemma {:induction false} InsertSorted<T(!new)>(x: T, s: seq<T>, le: (T, T) -> bool)
    requires TotalPreorder(le) && Sorted(s, le)
    ensures Sorted(Insert(x, s, le), le)
  {
    if s != [] && !le(x, s[0]) {
      InsertSorted(x, s[1..], le);
      var rest := Insert(x, s[1..], le);
      forall y | y in rest ensures le(s[0], y) {
        InsertMultiset(x, s[1..], le);
        assert y in multiset(rest);
        assert y == x || y in s[1..];
      }
      ConsSorted(s[0], rest, le);
    } else if s != [] {
      assert forall k :: 0 <= k < |s| ==> le(x, s[k]);
    }
  }

  lemma {:induction false} ConsSorted<T(!new)>(x: T, s: seq<T>, le: (T, T) -> bool)
    requires Sorted(s, le) && forall y :: y in s ==> le(x, y)
    ensures Sorted([x] + s, le)
  {
  }

  lemma {:induction false} InsertLength<T>(x: T, s: seq<T>, le: (T, T) -> bool)
    ensures |Insert(x, s, le)| == |s| + 1
  {
    if s != [] && !le(x, s[0]) {
      InsertLength(x, s[1..], le);
    }
  }

  lemma {:induction false} SortSorts<T(!new)>(s: seq<T>, le: (T, T) -> bool)
    requires TotalPreorder(le)
    ensures multiset(Sort(s, le)) == multiset(s)
    ensures Sorted(Sort(s, le), le)
    ensures |Sort(s, le)| == |s|
  {
    if s != [] {
      var rest := Sort(s[1..], le);
      SortSorts(s[1..], le);
      InsertSorted(s[0], rest, le);
      InsertMultiset(s[0], rest, le);
      InsertLength(s[0], rest, le);
      assert s == [s[0]] + s[1..];
    }
  }

  lemma {:induction false} SortMembers<T(!new)>(s: seq<T>, le: (T, T) -> bool)
    requires TotalPreorder(le)
    ensures forall x :: x in Sort(s, le) <==> x in s
  {
    SortSorts(s, le);
    forall x ensures x in Sort(s, le) <==> x in s {
      assert x in Sort(s, le) <==> x in multiset(Sort(s, le));
      assert x in s <==> x in multiset(s);
    }
  }

  lemma {:induction false} TailBag<T>(s: seq<T>)
    requires s != []
    ensures multiset(s[1..]) == multiset(s) - multiset{s[0]}
  {
    assert s == [s[0]] + s[1..];
  }

  lemma {:induction false} SameFirst<T>(s: seq<T>, t: seq<T>, le: (T, T) -> bool)
    requires Sorted(s, le) && Sorted(t, le) && multiset(s) == multiset(t) && s != []
    requires forall a, b :: a in s && b in s && le(a, b) && le(b, a) ==> a == b
    ensures t != [] && s[0] == t[0]
  {
    assert s[0] in multiset(t);
    var i :| 0 <= i < |t| && t[i] == s[0];
    assert t[0] in multiset(s);
    var j :| 0 <= j < |s| && s[j] == t[0];
    if i != 0 && j != 0 {
      assert le(t[0], t[i]) && le(s[0], s[j]);
    }
  }

  /** Two sorted arrangements of the same elements are the same list when
      elements that compare equal are equal. */
  lemma {:induction false} SortedUnique<T>(s: seq<T>, t: seq<T>, le: (T, T) -> bool)
    requires Sorted(s, le) && Sorted(t, le)
    requires multiset(s) == multiset(t)
    requires forall a, b :: a in s && b in s && le(a, b) && le(b, a) ==> a == b
    ensures s == t
    decreases |s|
  {
    if s == [] {
      assert |t| == |multiset(t)| == 0;
    } else {
      SameFirst(s, t, le);
      TailBag(s);
      TailBag(t);
      SortedUnique(s[1..], t[1..], le);
      assert s == [s[0]] + s[1..] && t == [t[0]] + t[1..];
    }
  }

  ghost predicate StrictlySorted(s: seq<Bytes>) {
    forall i, j :: 0 <= i < j < |s| ==> Less(s[i], s[j])
  }

  lemma {:induction false} FirstName(s: seq<Bytes>, x: Bytes)
    requires StrictlySorted(s) && x in s
    ensures x == s[0] || Less(s[0], x)
    ensures x in s[1..] <==> x != s[0]
  {
    var k :| 0 <= k < |s| && s[k] == x;
    LessTotal(x, x);
    if k > 0 {
      assert s[1..][k - 1] == x;
    }
    assert forall j :: 0 < j < |s| ==> Less(s[0], s[j]);
  }

  /** A strictly increasing list is determined by its set of names. */
  lemma {:induction false} StrictlySortedUnique(s: seq<Bytes>, t: seq<Bytes>)
    requires StrictlySorted(s) && StrictlySorted(t)
    requires forall x :: x in s <==> x in t
    ensures s == t
  {
    assert s != [] ==> s[0] in t;
    assert t != [] ==> t[0] in s;
    if s != [] {
      FirstName(s, t[0]);
      FirstName(t, s[0]);
      LessTotal(s[0], t[0]);
      assert s[0] == t[0];
      forall x ensures x in s[1..] <==> x in t[1..] {
        if x in s {
          FirstName(s, x);
          FirstName(t, x);
        }
      }
      StrictlySortedUnique(s[1..], t[1..]);
      assert s == [s[0]] + s[1..] && t == [t[0]] + t[1..];
    }
  }

  ghost predicate Distinct<T>(s: seq<T>) {
    forall i, j :: 0 <= i < j < |s| ==> s[i] != s[j]
  }

  lemma {:induction false} SortDistinctIsStrict(s: seq<Bytes>)
    requires Distinct(s)
    ensures StrictlySorted(Sort(s, Le))
  {
    LeIsTotalPreorder();
    SortSorts(s, Le);
    var t := Sort(s, Le);
    forall i, j | 0 <= i < j < |t| ensures Less(t[i], t[j]) {
      if t[i] == t[j] {
        MultiplicityOfTwo(t, i, j);
        MultiplicityOfDistinct(s, t[i]);
      } else {
        LessTotal(t[i], t[j]);
        assert Le(t[i], t[j]);
      }
    }
  }

  lemma {:induction false} MultiplicityOfTwo<T>(s: seq<T>, i: int, j: int)
    requires 0 <= i < j < |s| && s[i] == s[j]
    ensures multiset(s)[s[i]] >= 2
  {
    assert s == s[..j] + [s[j]] + s[j + 1..];
    assert s[i] in s[..j];
    assert multiset(s[..j])[s[i]] >= 1;
    assert multiset(s) == multiset(s[..j]) + multiset{s[j]} + multiset(s[j + 1..]);
  }

  lemma {:induction false} MultiplicityOfDistinct<T>(s: seq<T>, x: T)
    requires Distinct(s)
    ensures multiset(s)[x] <= 1
  {
    if s != [] {
      MultiplicityOfDistinct(s[1..], x);
      assert s == [s[0]] + s[1..];
      assert multiset(s) == multiset{s[0]} + multiset(s[1..]);
      assert s[0] !in s[1..];
    }
  }
}
