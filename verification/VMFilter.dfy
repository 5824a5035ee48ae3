/** The VM filter of a failover: a list of "namespace/name" whose order and
  repeats do not matter.
 */
module VMFilter {
  import opened Order

  /** The VMs a filter names. An empty name names nothing. */
  function Names(vms: seq<Bytes>): (r: set<Bytes>) {
    set v | v in vms && v != []
  }

  /** The filter as a sorted list without repeats or empty names. */
  method NormalizeVMs(vms: seq<Bytes>) returns (out: seq<Bytes>)
    ensures StrictlySorted(out)
    ensures forall v :: v in out <==> v in Names(vms)
  {
    var names := {};
    for i := 0 to |vms|
      invariant names == Names(vms[..i])
    {
      assert vms[..i + 1] == vms[..i] + [vms[i]];
      if vms[i] != [] {
        names := names + {vms[i]};
      }
    }
    assert vms[..|vms|] == vms;
    var list: seq<Bytes> := [];
    var left := names;
    while left != {}
      invariant Distinct(list) && left <= names
      invariant forall v :: v in list <==> v in names && v !in left
      decreases left
    {
      var v :| v in left;
      left := left - {v};
      list := list + [v];
    }
    LeIsTotalPreorder();
    SortMembers(list, Le);
    SortDistinctIsStrict(list);
    out := Sort(list, Le);
  }

  /** Two filters are the same when they name the same VMs. */
  method SameVMs(a: seq<Bytes>, b: seq<Bytes>) returns (same: bool)
    ensures same <==> Names(a) == Names(b)
  {
    var x := NormalizeVMs(a);
    var y := NormalizeVMs(b);
    if Names(a) == Names(b) {
      StrictlySortedUnique(x, y);
    }
    assert x == y ==> forall v :: v in Names(a) <==> v in Names(b);
    if |x| != |y| {
      return false;
    }
    for i := 0 to |x|
      invariant x[..i] == y[..i]
    {
      if x[i] != y[i] {
        return false;
      }
    }
    assert x[..|x|] == x && y[..|y|] == y;
    same := true;
  }

  /** The normal form depends only on the names, so it is one for each filter. */
  lemma {:induction false} NormalFormUnique(a: seq<Bytes>, b: seq<Bytes>, x: seq<Bytes>, y: seq<Bytes>)
    requires StrictlySorted(x) && StrictlySorted(y)
    requires forall v :: v in x <==> v in Names(a)
    requires forall v :: v in y <==> v in Names(b)
    ensures x == y <==> Names(a) == Names(b)
  {
    if Names(a) == Names(b) {
      StrictlySortedUnique(x, y);
    }
    if x == y {
      assert forall v :: v in Names(a) <==> v in Names(b);
    }
  }
}
