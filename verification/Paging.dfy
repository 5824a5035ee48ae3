/** The paged listing of a folder, in byte order, and the folder on disk that
  answers it from an unsorted scan.
 */
module Paging {
  import opened Order
  import opened Common
  import opened Collect

  datatype Kind = File | Dir | Symlink | Special

  datatype Entry = Entry(name: Bytes, kind: Kind, size: nat, mode: nat, uid: nat, gid: nat,
                         mtime: int, link: Bytes, readable: bool)

  datatype Code = BadPath | NotFound | NotDir | NotFile | LinkRefused | NotReadable | SpecialFile | Internal

  /** One page: entries in order, and the cursor for the next page, empty on the last. */
  datatype ListPage = ListPage(entries: seq<Entry>, next: Bytes)

  const DEFAULT_LIST_LIMIT := 1000
  const MAX_LIST_LIMIT := 10_000

  function EffectiveLimit(limit: int): (n: nat)
    ensures 1 <= n <= MAX_LIST_LIMIT && (1 <= limit <= MAX_LIST_LIMIT ==> n == limit)
    ensures limit < 1 || limit > 10_000 ==> n == 1_000
  {
    if limit <= 0 || limit > MAX_LIST_LIMIT then DEFAULT_LIST_LIMIT else limit
  }

  // ---- pages of a sorted list of names ----

  /** The names after a cursor. */
  function NamesAfter(sorted: seq<Bytes>, cursor: Bytes): (r: seq<Bytes>) {
    if sorted == [] || Above(sorted[0], cursor) then sorted else NamesAfter(sorted[1..], cursor)
  }

  lemma {:induction false} NamesAfterMembers(sorted: seq<Bytes>, cursor: Bytes)
    requires StrictlySorted(sorted)
    ensures StrictlySorted(NamesAfter(sorted, cursor)) && |NamesAfter(sorted, cursor)| <= |sorted|
    ensures forall x :: x in NamesAfter(sorted, cursor) <==> x in sorted && Above(x, cursor)
  {
    if sorted != [] {
      if Above(sorted[0], cursor) {
        forall x | x in sorted ensures Above(x, cursor) {
          var k :| 0 <= k < |sorted| && sorted[k] == x;
          if cursor != [] && k > 0 {
            LessTransitive(cursor, sorted[0], x);
          }
        }
      } else {
        NamesAfterMembers(sorted[1..], cursor);
        forall x ensures x in sorted && Above(x, cursor) <==> x in sorted[1..] && Above(x, cursor) {
          if x in sorted && Above(x, cursor) {
            assert x != sorted[0];
          }
        }
      }
    }
  }

  function PageNames(sorted: seq<Bytes>, cursor: Bytes, limit: nat): (r: seq<Bytes>) {
    var rest := NamesAfter(sorted, cursor);
    rest[..Min(limit, |rest|)]
  }

  predicate PageMore(sorted: seq<Bytes>, cursor: Bytes, limit: nat) {
    |NamesAfter(sorted, cursor)| > limit
  }

  function PageNext(sorted: seq<Bytes>, cursor: Bytes, limit: nat): (r: Bytes)
    requires limit >= 1
  {
    if PageMore(sorted, cursor, limit) then PageNames(sorted, cursor, limit)[limit - 1] else []
  }

  /** What is left after a page is what comes after its last name. */
  lemma {:induction false} NextPageContinues(sorted: seq<Bytes>, cursor: Bytes, limit: nat)
    requires StrictlySorted(sorted) && limit >= 1 && PageMore(sorted, cursor, limit)
    requires PageNext(sorted, cursor, limit) != []
    ensures NamesAfter(sorted, PageNext(sorted, cursor, limit)) == NamesAfter(sorted, cursor)[limit..]
  {
    var rest, next := NamesAfter(sorted, cursor), PageNext(sorted, cursor, limit);
    NamesAfterMembers(sorted, cursor);
    NamesAfterMembers(sorted, next);
    assert next == rest[limit - 1] && next in rest;
    forall x ensures x in NamesAfter(sorted, next) <==> x in rest[limit..] {
      LaterNames(rest, limit, x);
      if x in sorted && Above(x, next) && cursor != [] {
        LessTransitive(cursor, next, x);
      }
    }
    StrictlySortedUnique(NamesAfter(sorted, next), rest[limit..]);
  }

  lemma {:induction false} LaterNames(rest: seq<Bytes>, limit: nat, x: Bytes)
    requires StrictlySorted(rest) && 1 <= limit < |rest|
    ensures x in rest[limit..] <==> x in rest && Less(rest[limit - 1], x)
  {
    if x in rest && Less(rest[limit - 1], x) {
      var k :| 0 <= k < |rest| && rest[k] == x;
      LessTotal(rest[limit - 1], x);
      assert k >= limit;
      assert rest[limit..][k - limit] == x;
    }
  }

  /** Following the cursors from one on, page by page. */
  function Pages(sorted: seq<Bytes>, cursor: Bytes, limit: nat): (r: seq<Bytes>)
    requires StrictlySorted(sorted) && limit >= 1
    decreases |NamesAfter(sorted, cursor)|
  {
    if PageNext(sorted, cursor, limit) == [] then PageNames(sorted, cursor, limit)
    else
      NextPageContinues(sorted, cursor, limit);
      PageNames(sorted, cursor, limit) + Pages(sorted, PageNext(sorted, cursor, limit), limit)
  }

  lemma {:induction false} PagesFrom(sorted: seq<Bytes>, cursor: Bytes, limit: nat)
    requires StrictlySorted(sorted) && limit >= 1 && [] !in NamesAfter(sorted, cursor)
    ensures Pages(sorted, cursor, limit) == NamesAfter(sorted, cursor)
    decreases |NamesAfter(sorted, cursor)|
  {
    var rest := NamesAfter(sorted, cursor);
    if PageMore(sorted, cursor, limit) {
      assert rest[limit - 1] in rest;
      NextPageContinues(sorted, cursor, limit);
      assert forall x :: x in rest[limit..] ==> x in rest;
      PagesFrom(sorted, PageNext(sorted, cursor, limit), limit);
      assert rest == rest[..limit] + rest[limit..];
    }
  }

  /** Following the cursors from the start yields every name exactly once, in byte
      order, exactly when the folder holds no empty name that a page of one would
      end on. */
  lemma {:induction false} PagesAreComplete(sorted: seq<Bytes>, limit: nat)
    requires StrictlySorted(sorted) && limit >= 1
    ensures Pages(sorted, [], limit) == sorted <==> !([] in sorted && limit == 1 && |sorted| > 1)
  {
    assert NamesAfter(sorted, []) == sorted;
    if [] in sorted {
      EmptyNameIsFirst(sorted);
      if |sorted| > limit > 1 {
        var next := sorted[limit - 1];
        assert PageNext(sorted, [], limit) == next;
        LessTotal(sorted[0], next);
        NextPageContinues(sorted, [], limit);
        assert forall x :: x in sorted[limit..] ==> x != [] by {
          forall x | x in sorted[limit..] ensures x != [] {
            var k :| limit <= k < |sorted| && sorted[k] == x;
            LessTotal(sorted[0], x);
          }
        }
        PagesFrom(sorted, next, limit);
        assert sorted == sorted[..limit] + sorted[limit..];
      }
    } else {
      PagesFrom(sorted, [], limit);
    }
  }

  lemma {:induction false} EmptyNameIsFirst(sorted: seq<Bytes>)
    requires StrictlySorted(sorted) && [] in sorted
    ensures sorted[0] == []
  {
    var k :| 0 <= k < |sorted| && sorted[k] == [];
    assert k == 0 || Less(sorted[0], sorted[k]);
  }

  // ---- a folder on disk ----

  /** A folder as a scan finds it: its names in the order the kernel gives them, and
      what each name is. */
  datatype Folder = Folder(order: seq<Bytes>, stat: map<Bytes, Entry>) {
    ghost predicate Valid() {
      && Distinct(order)
      && (forall n :: n in order <==> n in stat)
      && (forall n :: n in stat ==> stat[n].name == n)
    }

    ghost function Names(): (r: seq<Bytes>) {
      Sort(order, Le)
    }
  }

  lemma {:induction false} FolderNamesSorted(f: Folder)
    requires f.Valid()
    ensures StrictlySorted(f.Names()) && |f.Names()| == |f.order|
    ensures forall n :: n in f.Names() <==> n in f.order
  {
    LeIsTotalPreorder();
    SortSorts(f.order, Le);
    SortMembers(f.order, Le);
    SortDistinctIsStrict(f.order);
  }

  lemma {:induction false} AboveOfMembers(offered: seq<Bytes>, cursor: Bytes)
    ensures forall x :: x in AboveOf(offered, cursor) <==> x in offered && Above(x, cursor)
    ensures Distinct(offered) ==> Distinct(AboveOf(offered, cursor))
  {
    if offered != [] {
      var front, last := offered[..|offered| - 1], offered[|offered| - 1];
      AboveOfMembers(front, cursor);
      assert offered == front + [last];
    }
  }

  /** The collector's sorted names are the names after the cursor. */
  lemma {:induction false} CollectedIsAfter(f: Folder, cursor: Bytes)
    requires f.Valid()
    ensures Sort(AboveOf(f.order, cursor), Le) == NamesAfter(f.Names(), cursor)
    ensures |AboveOf(f.order, cursor)| == |NamesAfter(f.Names(), cursor)|
  {
    var above := AboveOf(f.order, cursor);
    LeIsTotalPreorder();
    AboveOfMembers(f.order, cursor);
    SortSorts(above, Le);
    SortMembers(above, Le);
    SortDistinctIsStrict(above);
    FolderNamesSorted(f);
    NamesAfterMembers(f.Names(), cursor);
    StrictlySortedUnique(Sort(above, Le), NamesAfter(f.Names(), cursor));
  }

  /** The page that a listing of these names must give. */
  ghost predicate PageOf(sorted: seq<Bytes>, stat: map<Bytes, Entry>, cursor: Bytes, limit: nat, page: ListPage)
    requires limit >= 1
  {
    var names := PageNames(sorted, cursor, limit);
    && |page.entries| == |names|
    && (forall k :: 0 <= k < |names| ==> names[k] in stat && page.entries[k] == stat[names[k]])
    && page.next == PageNext(sorted, cursor, limit)
  }

  /** Reads the whole folder in batches into the collector. */
  method ScanFolder(order: seq<Bytes>, col: PageCollector) returns (ok: bool)
    requires col.Valid() && col.offered == []
    modifies col
    ensures ok <==> |order| <= MAX_DIR_ENTRIES
    ensures ok ==> col.Valid() && col.offered == order
  {
    var start := 0;
    while start < |order|
      invariant 0 <= start <= |order| && col.Valid() && col.offered == order[..start] && start <= MAX_DIR_ENTRIES
    {
      var batch := order[start..Min(start + 10000, |order|)];
      for i := 0 to |batch|
        invariant col.Valid() && col.offered == order[..start + i] && start + i <= MAX_DIR_ENTRIES
      {
        assert batch[i] == order[start + i];
        assert order[..start + i + 1] == order[..start + i] + [order[start + i]];
        var added := col.Add(batch[i]);
        if !added {
          return false;
        }
      }
      start := start + |batch|;
    }
    assert order[..start] == order;
    ok := true;
  }

  /** The names of one page, from one scan. */
  method CollectNames(f: Folder, cursor: Bytes, n: nat) returns (ok: bool, names: seq<Bytes>, more: bool)
    requires f.Valid() && n >= 1
    ensures ok <==> |f.order| <= MAX_DIR_ENTRIES
    ensures ok ==> names == PageNames(f.Names(), cursor, n) && (more <==> PageMore(f.Names(), cursor, n))
  {
    var col := new PageCollector(cursor, n);
    ok := ScanFolder(f.order, col);
    if !ok {
      return false, [], false;
    }
    names, more := col.Page();
    CollectedIsAfter(f, cursor);
  }

  /** What a look at a name finds: names can go away after the scan, and a look can fail. */
  datatype Looks = Looks(gone: set<Bytes>, bad: map<Bytes, Code>) {
    /** None of these names makes the call fail. */
    ghost predicate Fine(names: seq<Bytes>) {
      forall n :: n in names ==> n in gone || n !in bad
    }

    ghost predicate FailsAt(n: Bytes, c: Code) {
      n !in gone && n in bad && bad[n] == c
    }
  }

  /** The entries of the names that are still there, in order. */
  function Present(names: seq<Bytes>, stat: map<Bytes, Entry>, gone: set<Bytes>): (r: seq<Entry>)
    requires forall n :: n in names ==> n in stat
  {
    if names == [] then []
    else
      var front, last := names[..|names| - 1], names[|names| - 1];
      assert names == front + [last];
      Present(front, stat, gone) + (if last in gone then [] else [stat[last]])
  }

  lemma {:induction false} PresentAppend(a: seq<Bytes>, b: seq<Bytes>, stat: map<Bytes, Entry>, gone: set<Bytes>)
    requires (forall n :: n in a ==> n in stat) && (forall n :: n in b ==> n in stat)
    ensures Present(a + b, stat, gone) == Present(a, stat, gone) + Present(b, stat, gone)
  {
    if b == [] {
      assert a + b == a;
    } else {
      var front, last := b[..|b| - 1], b[|b| - 1];
      assert b == front + [last];
      assert (a + b)[..|a + b| - 1] == a + front;
      PresentAppend(a, front, stat, gone);
    }
  }

  lemma {:induction false} PresentMembers(names: seq<Bytes>, stat: map<Bytes, Entry>, gone: set<Bytes>)
    requires forall n :: n in names ==> n in stat
    ensures forall e :: e in Present(names, stat, gone) <==> exists n :: n in names && n !in gone && stat[n] == e
  {
    if names != [] {
      var front, last := names[..|names| - 1], names[|names| - 1];
      assert names == front + [last];
      PresentMembers(front, stat, gone);
    }
  }

  /** When nothing went away, a page holds an entry for each of its names. */
  lemma {:induction false} PresentAll(names: seq<Bytes>, stat: map<Bytes, Entry>)
    requires forall n :: n in names ==> n in stat
    ensures |Present(names, stat, {})| == |names|
    ensures forall k :: 0 <= k < |names| ==> Present(names, stat, {})[k] == stat[names[k]]
  {
    if names != [] {
      var front := names[..|names| - 1];
      assert forall n :: n in front ==> n in names;
      PresentAll(front, stat);
    }
  }

  /** Looks at each name; one that is gone is left out. */
  method StatAll(f: Folder, names: seq<Bytes>, looks: Looks) returns (r: Result<seq<Entry>, Code>)
    requires forall n :: n in names ==> n in f.stat
    ensures r.Ok? <==> looks.Fine(names)
    ensures r.Ok? ==> r.value == Present(names, f.stat, looks.gone)
    ensures r.Err? ==> exists n :: n in names && looks.FailsAt(n, r.error)
  {
    var entries: seq<Entry> := [];
    for i := 0 to |names|
      invariant looks.Fine(names[..i])
      invariant entries == Present(names[..i], f.stat, looks.gone)
    {
      var n := names[i];
      assert n in names && names[..i + 1][..i] == names[..i] && names[..i + 1] == names[..i] + [n];
      if n !in looks.gone {
        if n in looks.bad {
          assert looks.FailsAt(n, looks.bad[n]);
          return Err(looks.bad[n]);
        }
        entries := entries + [f.stat[n]];
      }
    }
    assert names[..|names|] == names;
    r := Ok(entries);
  }

  lemma {:induction false} PageNamesInFolder(f: Folder, cursor: Bytes, n: nat)
    requires f.Valid()
    ensures forall x :: x in PageNames(f.Names(), cursor, n) ==> x in f.stat && x in f.Names()
  {
    FolderNamesSorted(f);
    NamesAfterMembers(f.Names(), cursor);
  }

  /** A listing of a folder on disk: one scan, whatever the order of the names. Names
      that went away since are left out, and the cursor is where it would be with them,
      so the next page misses nothing. */
  method ListDir(f: Folder, cursor: Bytes, limit: int, looks: Looks) returns (r: Result<ListPage, Code>)
    requires f.Valid()
    ensures var names := PageNames(f.Names(), cursor, EffectiveLimit(limit));
            && (r.Ok? <==> |f.order| <= MAX_DIR_ENTRIES && looks.Fine(names))
            && (r.Ok? ==>
                  && (forall n :: n in names ==> n in f.stat)
                  && r.value == ListPage(Present(names, f.stat, looks.gone),
                                         PageNext(f.Names(), cursor, EffectiveLimit(limit))))
            && (r.Err? ==>
                  || (|f.order| > MAX_DIR_ENTRIES && r.error == Internal)
                  || exists n :: n in names && looks.FailsAt(n, r.error))
    ensures r.Ok? && looks.gone == {} ==> PageOf(f.Names(), f.stat, cursor, EffectiveLimit(limit), r.value)
  {
    var n := EffectiveLimit(limit);
    var ok, names, more := CollectNames(f, cursor, n);
    if !ok {
      return Err(Internal);
    }
    PageNamesInFolder(f, cursor, n);
    PresentAll(names, f.stat);
    var entries := StatAll(f, names, looks);
    if entries.Err? {
      return Err(entries.error);
    }
    r := Ok(ListPage(entries.value, if more && |names| > 0 then names[|names| - 1] else []));
  }

  /** A walk of a folder on disk: every entry that is still there, once, in the folder's
      own order, up to the first trouble. */
  method WalkDir(f: Folder, looks: Looks) returns (visited: seq<Entry>, trouble: Option<Code>)
    requires f.Valid()
    ensures trouble.None? <==> |f.order| <= MAX_DIR_ENTRIES && looks.Fine(f.order)
    ensures trouble.None? ==> visited == Present(f.order, f.stat, looks.gone)
    ensures trouble.Some? ==> exists k :: WalkStops(f, looks, k, visited, trouble.value)
  {
    visited := [];
    var start := 0;
    while start < |f.order|
      invariant start <= |f.order| && start <= MAX_DIR_ENTRIES && WalkedTo(f, looks, start, visited)
    {
      var end := Min(start + 1000, |f.order|);
      visited, trouble := WalkBatch(f, looks, start, end, visited);
      if trouble.Some? {
        ghost var k :| WalkStops(f, looks, k, visited, trouble.value);
        StopMeans(f, looks, k, visited, trouble.value);
        return;
      }
      start := end;
    }
    assert f.order[..start] == f.order;
    trouble := None;
  }

  /** One batch of names, from `start` to `end`. */
  method WalkBatch(f: Folder, looks: Looks, start: nat, end: nat, before: seq<Entry>) returns (visited: seq<Entry>,
                   trouble: Option<Code>)
    requires start <= end <= |f.order| && start <= MAX_DIR_ENTRIES && WalkedTo(f, looks, start, before)
    ensures trouble.None? ==> end <= MAX_DIR_ENTRIES && WalkedTo(f, looks, end, visited)
    ensures trouble.Some? ==> exists k :: WalkStops(f, looks, k, visited, trouble.value)
  {
    visited := before;
    for k := start to end
      invariant k <= MAX_DIR_ENTRIES && WalkedTo(f, looks, k, visited)
    {
      if k + 1 > MAX_DIR_ENTRIES {
        assert WalkStops(f, looks, k, visited, Internal);
        return visited, Some(Internal);
      }
      var n := f.order[k];
      WalkStep(f, looks, k, visited);
      if n !in looks.gone {
        if n in looks.bad {
          assert WalkStops(f, looks, k, visited, looks.bad[n]);
          return visited, Some(looks.bad[n]);
        }
        visited := visited + [f.stat[n]];
      }
    }
    trouble := None;
  }

  lemma {:induction false} StopMeans(f: Folder, looks: Looks, k: nat, visited: seq<Entry>, c: Code)
    requires WalkStops(f, looks, k, visited, c)
    ensures !(|f.order| <= MAX_DIR_ENTRIES && looks.Fine(f.order))
  {
    assert f.order[k] in f.order;
  }

  /** The walk has gone past the first `k` names. */
  ghost predicate WalkedTo(f: Folder, looks: Looks, k: nat, visited: seq<Entry>) {
    && k <= |f.order| && looks.Fine(f.order[..k])
    && (forall n :: n in f.order ==> n in f.stat)
    && visited == Present(f.order[..k], f.stat, looks.gone)
  }

  lemma {:induction false} WalkStep(f: Folder, looks: Looks, k: nat, visited: seq<Entry>)
    requires WalkedTo(f, looks, k, visited) && k < |f.order|
    ensures var n := f.order[k];
            && n in f.stat
            && (n in looks.gone ==> WalkedTo(f, looks, k + 1, visited))
            && (n !in looks.gone && n !in looks.bad ==> WalkedTo(f, looks, k + 1, visited + [f.stat[n]]))
  {
    assert f.order[..k + 1] == f.order[..k] + [f.order[k]];
    assert f.order[..k + 1][..k] == f.order[..k];
    assert f.order[k] in f.order;
  }

  ghost predicate WalkStops(f: Folder, looks: Looks, k: nat, visited: seq<Entry>, c: Code) {
    && k < |f.order| && WalkedTo(f, looks, k, visited)
    && ((k == MAX_DIR_ENTRIES && c == Internal) || looks.FailsAt(f.order[k], c))
  }

  lemma {:induction false} PageStep(sorted: seq<Bytes>, cursor: Bytes, limit: nat, before: seq<Bytes>)
    requires StrictlySorted(sorted) && limit >= 1
    ensures var shown, next := before + PageNames(sorted, cursor, limit), PageNext(sorted, cursor, limit);
            if next == [] then shown == before + Pages(sorted, cursor, limit)
            else shown + Pages(sorted, next, limit) == before + Pages(sorted, cursor, limit)
                 && |NamesAfter(sorted, next)| < |NamesAfter(sorted, cursor)|
  {
    var next := PageNext(sorted, cursor, limit);
    if next != [] {
      NextPageContinues(sorted, cursor, limit);
      var page, more := PageNames(sorted, cursor, limit), Pages(sorted, next, limit);
      assert before + page + more == before + (page + more);
    }
  }

  /** A folder read page by page, each page from where the last one ended: it ends,
      and gives every name that is still there once and in order. */
  method ListPages(f: Folder, looks: Looks) returns (visited: seq<Entry>, ok: bool)
    requires f.Valid()
    ensures ok <==> |f.order| <= MAX_DIR_ENTRIES && looks.Fine(f.order)
    ensures ok ==> (forall n :: n in f.Names() ==> n in f.stat) && visited == Present(f.Names(), f.stat, looks.gone)
  {
    FolderNamesSorted(f);
    PagesAreComplete(f.Names(), DEFAULT_LIST_LIMIT);
    visited, ok := FollowPages(f, DEFAULT_LIST_LIMIT, looks);
  }

  /** The pages so far show the first names; the cursor leads to the rest. */
  ghost predicate ShownTo(f: Folder, limit: nat, looks: Looks, seen: seq<Bytes>, cursor: Bytes, visited: seq<Entry>)
    requires StrictlySorted(f.Names()) && limit >= 1
  {
    && seen + Pages(f.Names(), cursor, limit) == Pages(f.Names(), [], limit)
    && (forall n :: n in seen ==> n in f.stat) && looks.Fine(seen)
    && visited == Present(seen, f.stat, looks.gone)
  }

  method FollowPages(f: Folder, limit: nat, looks: Looks) returns (visited: seq<Entry>, ok: bool)
    requires f.Valid() && StrictlySorted(f.Names()) && 1 <= limit <= MAX_LIST_LIMIT
    ensures ok <==> |f.order| <= MAX_DIR_ENTRIES && looks.Fine(Pages(f.Names(), [], limit))
    ensures ok ==> (forall n :: n in Pages(f.Names(), [], limit) ==> n in f.stat)
                   && visited == Present(Pages(f.Names(), [], limit), f.stat, looks.gone)
  {
    visited := [];
    var cursor: Bytes := [];
    ghost var seen: seq<Bytes> := [];
    while true
      invariant ShownTo(f, limit, looks, seen, cursor, visited)
      decreases |NamesAfter(f.Names(), cursor)|
    {
      ghost var names := PageNames(f.Names(), cursor, limit);
      PageStep(f.Names(), cursor, limit, seen);
      var page := ListDir(f, cursor, limit, looks);
      if page.Err? {
        assert forall n :: n in names ==> n in Pages(f.Names(), cursor, limit);
        return visited, false;
      }
      PresentAppend(seen, names, f.stat, looks.gone);
      visited, seen := visited + page.value.entries, seen + names;
      if |page.value.next| == 0 {
        return visited, true;
      }
      cursor := page.value.next;
    }
  }

  /** The pages of a folder hold exactly the entries that a walk visits, also when
      names went away. */
  lemma {:induction false} PagesHoldWhatWalkVisits(f: Folder, limit: nat, gone: set<Bytes>, e: Entry)
    requires f.Valid() && [] !in f.order && limit >= 1 && StrictlySorted(f.Names())
    ensures Pages(f.Names(), [], limit) == f.Names() && forall n :: n in f.Names() <==> n in f.order
    ensures e in Present(f.Names(), f.stat, gone) <==> e in Present(f.order, f.stat, gone)
  {
    FolderNamesSorted(f);
    PagesAreComplete(f.Names(), limit);
    PresentMembers(f.Names(), f.stat, gone);
    PresentMembers(f.order, f.stat, gone);
  }
}
