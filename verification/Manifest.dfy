/** A folder of a backup as its manifest holds it: parsed, sorted by name, without
  duplicates, and searched by halving.
 */
module Manifest {
  import opened Order
  import opened Common
  import Paths
  import opened Paging
  import opened Collect

  const MAX_MANIFEST_ENTRIES := 1_000_000
  const TYPE_DIR: Bytes := [100]
  const TYPE_FILE: Bytes := [102]
  const TYPE_LINK: Bytes := [115]

  /** One entry of the JSON text. `mode` and `mtime` are what parsing their text
      gives, or none. */
  datatype RawEntry = RawEntry(name: Bytes, typ: Bytes, mode: Option<nat>, size: int,
                               mtime: Option<int>, uid: nat, gid: nat, obj: Bytes)

  /** The JSON text of a folder; `directory` says that its stream is "kopia:directory". */
  datatype RawFolder = RawFolder(directory: bool, entries: seq<RawEntry>)

  datatype MEntry = MEntry(name: Bytes, typ: Bytes, mode: nat, size: nat, uid: nat, gid: nat,
                           mtime: int, obj: Bytes, badOID: bool)

  predicate AlphaNumeric(b: byte) {
    48 <= b <= 57 || 65 <= b <= 90 || 97 <= b <= 122
  }

  /** One to 512 letters and digits. */
  predicate ValidOID(oid: Bytes) {
    1 <= |oid| <= 512 && forall k :: 0 <= k < |oid| ==> AlphaNumeric(oid[k])
  }

  /** An object ID is one word that is no option: it can be the argument of a command. */
  lemma {:induction false} ObjectIdIsAWord(oid: Bytes)
    ensures ValidOID(oid) ==> 0 < |oid| <= 512 && oid[0] != 45 && 32 !in oid && Paths.SLASH !in oid && 0 !in oid
    ensures !ValidOID(oid) ==> |oid| == 0 || |oid| > 512 || exists b :: b in oid && !AlphaNumeric(b)
  {
    if !ValidOID(oid) && 0 < |oid| <= 512 {
      var k :| 0 <= k < |oid| && !AlphaNumeric(oid[k]);
      assert oid[k] in oid;
    }
  }

  // ---- parsing ----

  function Read(e: RawEntry): (r: MEntry)
    ensures r.name == e.name && r.obj == e.obj && (!r.badOID <==> ValidOID(e.obj) && e.size >= 0)
  {
    MEntry(e.name, e.typ, if e.mode.Some? then e.mode.value % 4096 else 0, if e.size < 0 then 0 else e.size,
           e.uid, e.gid, if e.mtime.Some? then e.mtime.value else 0, e.obj, !ValidOID(e.obj) || e.size < 0)
  }

  /** The entries whose name a path can hold, in the order of the text. */
  function Kept(raw: seq<RawEntry>): (r: seq<MEntry>) {
    if raw == [] then []
    else if Paths.ValidName(raw[|raw| - 1].name) then Kept(raw[..|raw| - 1]) + [Read(raw[|raw| - 1])]
    else Kept(raw[..|raw| - 1])
  }

  predicate ByName(a: MEntry, b: MEntry) {
    Le(a.name, b.name)
  }

  function NamesOf(m: seq<MEntry>): (r: seq<Bytes>)
    ensures |r| == |m| && forall k :: 0 <= k < |m| ==> r[k] == m[k].name
  {
    seq(|m|, k requires 0 <= k < |m| => m[k].name)
  }

  ghost predicate SortedFolder(m: seq<MEntry>) {
    StrictlySorted(NamesOf(m))
  }

  lemma {:induction false} ByNameIsTotalPreorder()
    ensures TotalPreorder(ByName)
  {
    forall a: MEntry, b: MEntry ensures ByName(a, b) || ByName(b, a) {
      LessTotal(a.name, b.name);
    }
    forall a: MEntry, b: MEntry, c: MEntry | ByName(a, b) && ByName(b, c) ensures ByName(a, c) {
      LeTransitive(a.name, b.name, c.name);
    }
  }

  /** The folder that the text stands for. */
  ghost function Parsed(raw: RawFolder): (r: Result<seq<MEntry>, Code>) {
    if !raw.directory || |raw.entries| > MAX_MANIFEST_ENTRIES || !Distinct(NamesOf(Kept(raw.entries)))
    then Err(Internal)
    else Ok(Sort(Kept(raw.entries), ByName))
  }

  lemma {:induction false} SortedDistinct(m: seq<MEntry>)
    requires Sorted(m, ByName) && forall k :: 0 < k < |m| ==> m[k - 1].name != m[k].name
    ensures SortedFolder(m)
  {
    forall i, j | 0 <= i < j < |m| ensures Less(m[i].name, m[j].name) {
      NeighboursGrow(m, i, j);
    }
  }

  lemma {:induction false} NeighboursGrow(m: seq<MEntry>, i: int, j: int)
    requires Sorted(m, ByName) && forall k :: 0 < k < |m| ==> m[k - 1].name != m[k].name
    requires 0 <= i < j < |m|
    ensures Less(m[i].name, m[j].name)
    decreases j
  {
    assert ByName(m[j - 1], m[j]);
    LessTotal(m[j - 1].name, m[j].name);
    if i < j - 1 {
      NeighboursGrow(m, i, j - 1);
      LessTransitive(m[i].name, m[j - 1].name, m[j].name);
    }
  }

  lemma {:induction false} SortedFolderDistinct(m: seq<MEntry>)
    requires SortedFolder(m)
    ensures Distinct(NamesOf(m))
  {
    forall i, j | 0 <= i < j < |m| ensures m[i].name != m[j].name {
      LessTotal(NamesOf(m)[i], NamesOf(m)[j]);
    }
  }

  lemma {:induction false} TakeOut<T>(t: seq<T>, k: nat)
    requires k < |t|
    ensures multiset(t) == multiset(t[..k] + t[k + 1..]) + multiset{t[k]}
    ensures multiset(t[..k] + t[k + 1..]) == multiset(t) - multiset{t[k]}
  {
    assert t == t[..k] + ([t[k]] + t[k + 1..]);
  }

  lemma {:induction false} NamesWithout(t: seq<MEntry>, k: nat, rest: seq<MEntry>)
    requires k < |t| && rest == t[..k] + t[k + 1..]
    ensures multiset(NamesOf(t)) == multiset(NamesOf(rest)) + multiset{t[k].name}
  {
    TakeOut(NamesOf(t), k);
    assert NamesOf(rest) == NamesOf(t)[..k] + NamesOf(t)[k + 1..];
  }

  lemma {:induction false} NamesTail(s: seq<MEntry>)
    requires s != []
    ensures multiset(NamesOf(s)) == multiset(NamesOf(s[1..])) + multiset{s[0].name}
  {
    TailBag(NamesOf(s));
    assert NamesOf(s[1..]) == NamesOf(s)[1..];
  }

  /** The names of a list, as a bag, follow from its entries as a bag. */
  lemma {:induction false} NamesFollowEntries(s: seq<MEntry>, t: seq<MEntry>)
    requires multiset(s) == multiset(t)
    ensures multiset(NamesOf(s)) == multiset(NamesOf(t))
    decreases |s|
  {
    if s == [] {
      assert |t| == |multiset(t)| == |multiset(s)| == 0;
    } else {
      assert s[0] in multiset(t);
      var k :| 0 <= k < |t| && t[k] == s[0];
      var t' := t[..k] + t[k + 1..];
      TailBag(s);
      TakeOut(t, k);
      NamesFollowEntries(s[1..], t');
      NamesTail(s);
      NamesWithout(t, k, t');
    }
  }

  lemma {:induction false} DistinctFollowsBag(s: seq<Bytes>, t: seq<Bytes>)
    requires multiset(s) == multiset(t) && Distinct(s)
    ensures Distinct(t)
  {
    forall i, j | 0 <= i < j < |t| ensures t[i] != t[j] {
      if t[i] == t[j] {
        MultiplicityOfTwo(t, i, j);
        MultiplicityOfDistinct(s, t[i]);
      }
    }
  }

  /** No two neighbours of the sorted list are equal exactly when no name comes
      twice in the text. */
  lemma {:induction false} NeighboursTellDuplicates(kept: seq<MEntry>)
    ensures var m := Sort(kept, ByName);
            (forall k :: 0 < k < |m| ==> m[k - 1].name != m[k].name) <==> Distinct(NamesOf(kept))
  {
    var m := Sort(kept, ByName);
    ByNameIsTotalPreorder();
    SortSorts(kept, ByName);
    NamesFollowEntries(kept, m);
    if forall k :: 0 < k < |m| ==> m[k - 1].name != m[k].name {
      SortedDistinct(m);
      SortedFolderDistinct(m);
      DistinctFollowsBag(NamesOf(m), NamesOf(kept));
    }
    if Distinct(NamesOf(kept)) {
      DistinctFollowsBag(NamesOf(kept), NamesOf(m));
      forall k | 0 < k < |m| ensures m[k - 1].name != m[k].name {
        assert NamesOf(m)[k - 1] != NamesOf(m)[k];
      }
    }
  }

  /** A parsed folder is strictly sorted by name and holds exactly the entries of
      the text whose name is valid. */
  lemma {:induction false} ParsedFolder(raw: RawFolder)
    requires Parsed(raw).Ok?
    ensures SortedFolder(Parsed(raw).value)
    ensures multiset(Parsed(raw).value) == multiset(Kept(raw.entries))
  {
    ByNameIsTotalPreorder();
    SortSorts(Kept(raw.entries), ByName);
    NeighboursTellDuplicates(Kept(raw.entries));
    SortedDistinct(Parsed(raw).value);
  }

  lemma {:induction false} KeptMembers(raw: seq<RawEntry>)
    ensures forall m :: m in Kept(raw) <==>
              exists k :: 0 <= k < |raw| && Paths.ValidName(raw[k].name) && m == Read(raw[k])
  {
    if raw != [] {
      var front, last := raw[..|raw| - 1], raw[|raw| - 1];
      KeptMembers(front);
      forall m
        ensures m in Kept(raw) <==> exists k :: 0 <= k < |raw| && Paths.ValidName(raw[k].name) && m == Read(raw[k])
      {
        if m in Kept(raw) {
          if m in Kept(front) {
            var k :| 0 <= k < |front| && Paths.ValidName(front[k].name) && m == Read(front[k]);
            assert raw[k] == front[k];
          } else {
            assert raw[|raw| - 1] == last;
          }
        }
        if k :| 0 <= k < |raw| && Paths.ValidName(raw[k].name) && m == Read(raw[k]) {
          if k < |front| {
            assert front[k] == raw[k];
          }
        }
      }
    }
  }

  /** parseManifest, after the JSON text is decoded. */
  method ParseManifest(raw: RawFolder) returns (r: Result<seq<MEntry>, Code>)
    ensures r == Parsed(raw)
  {
    if !raw.directory || |raw.entries| > MAX_MANIFEST_ENTRIES {
      return Err(Internal);
    }
    var m: seq<MEntry> := [];
    for i := 0 to |raw.entries|
      invariant m == Kept(raw.entries[..i])
    {
      var e := raw.entries[i];
      assert raw.entries[..i + 1][..i] == raw.entries[..i];
      if Paths.ValidName(e.name) {
        m := m + [Read(e)];
      }
    }
    assert raw.entries[..|raw.entries|] == raw.entries;
    NeighboursTellDuplicates(m);
    m := Sort(m, ByName);
    var i := 1;
    while i < |m|
      invariant i >= 1 && forall k :: 0 < k < i && k < |m| ==> m[k - 1].name != m[k].name
    {
      if m[i - 1].name == m[i].name {
        return Err(Internal);
      }
      i := i + 1;
    }
    r := Ok(m);
  }

  // ---- searching ----

  function Lookup(m: seq<MEntry>, name: Bytes): (r: Option<MEntry>)
    ensures r.None? <==> forall k :: 0 <= k < |m| ==> m[k].name != name
    ensures r.Some? ==> r.value in m && r.value.name == name
  {
    if m == [] then None
    else if m[0].name == name then Some(m[0])
    else Lookup(m[1..], name)
  }

  lemma {:induction false} LookupAt(m: seq<MEntry>, k: nat)
    requires SortedFolder(m) && k < |m|
    ensures Lookup(m, m[k].name) == Some(m[k])
  {
    if k > 0 {
      LessTotal(NamesOf(m)[0], NamesOf(m)[k]);
      assert NamesOf(m[1..]) == NamesOf(m)[1..];
      LookupAt(m[1..], k - 1);
    }
  }

  predicate Reaches(n: Bytes, name: Bytes, past: bool) {
    if past then Less(name, n) else Le(name, n)
  }

  lemma {:induction false} ReachesOn(m: seq<MEntry>, name: Bytes, past: bool, i: int, j: int)
    requires SortedFolder(m) && 0 <= i <= j < |m| && Reaches(m[i].name, name, past)
    ensures Reaches(m[j].name, name, past)
  {
    if i < j {
      assert Less(NamesOf(m)[i], NamesOf(m)[j]);
      LessTotal(name, m[i].name);
      LessTotal(name, m[j].name);
      if name != m[i].name {
        LessTransitive(name, m[i].name, m[j].name);
      }
    }
  }

  /** sort.Search: the first place whose name is at or, with `past`, after a name. */
  method Search(m: seq<MEntry>, name: Bytes, past: bool) returns (at: nat)
    requires SortedFolder(m)
    ensures at <= |m|
    ensures forall k :: 0 <= k < |m| ==> (Reaches(m[k].name, name, past) <==> at <= k)
  {
    var low, high := 0, |m|;
    while low < high
      invariant 0 <= low <= high <= |m|
      invariant forall k :: 0 <= k < low ==> !Reaches(m[k].name, name, past)
      invariant forall k :: high <= k < |m| ==> Reaches(m[k].name, name, past)
    {
      var mid := (low + high) / 2;
      if !Reaches(m[mid].name, name, past) {
        forall k | 0 <= k < mid + 1 ensures !Reaches(m[k].name, name, past) {
          if Reaches(m[k].name, name, past) {
            ReachesOn(m, name, past, k, mid);
          }
        }
        low := mid + 1;
      } else {
        forall k | mid <= k < |m| ensures Reaches(m[k].name, name, past) {
          ReachesOn(m, name, past, mid, k);
        }
        high := mid;
      }
    }
    at := low;
  }

  lemma {:induction false} SearchHits(m: seq<MEntry>, name: Bytes, at: nat, k: nat)
    requires SortedFolder(m) && k < |m| && m[k].name == name
    requires forall j :: 0 <= j < |m| ==> (Reaches(m[j].name, name, false) <==> at <= j)
    ensures at == k
  {
    LessTotal(name, name);
    assert Reaches(m[k].name, name, false);
    if k > 0 {
      assert Less(NamesOf(m)[k - 1], NamesOf(m)[k]);
      assert !Reaches(m[k - 1].name, name, false);
    }
  }

  method Find(m: seq<MEntry>, name: Bytes) returns (r: Option<MEntry>)
    requires SortedFolder(m)
    ensures r == Lookup(m, name)
  {
    var i := Search(m, name, false);
    forall k | 0 <= k < |m| && m[k].name == name ensures k == i {
      SearchHits(m, name, i, k);
    }
    if i < |m| && m[i].name == name {
      LookupAt(m, i);
      return Some(m[i]);
    }
    r := None;
  }

  /** The entries of a sorted folder after a cursor. */
  function EntriesAfter(m: seq<MEntry>, cursor: Bytes): (r: seq<MEntry>) {
    if m == [] || Above(m[0].name, cursor) then m else EntriesAfter(m[1..], cursor)
  }

  lemma {:induction false} EntriesAfterNames(m: seq<MEntry>, cursor: Bytes)
    ensures NamesOf(EntriesAfter(m, cursor)) == NamesAfter(NamesOf(m), cursor)
  {
    if m != [] && !Above(m[0].name, cursor) {
      assert NamesOf(m)[1..] == NamesOf(m[1..]);
      EntriesAfterNames(m[1..], cursor);
    }
  }

  lemma {:induction false} EntriesAfterMembers(m: seq<MEntry>, cursor: Bytes)
    ensures forall e :: e in EntriesAfter(m, cursor) ==> e in m
  {
    if m != [] && !Above(m[0].name, cursor) {
      EntriesAfterMembers(m[1..], cursor);
    }
  }

  /** Halving finds where the entries after a cursor start. */
  method After(m: seq<MEntry>, cursor: Bytes) returns (start: nat)
    requires SortedFolder(m)
    ensures start <= |m| && m[start..] == EntriesAfter(m, cursor)
  {
    start := 0;
    if |cursor| > 0 {
      start := Search(m, cursor, true);
      AfterIsSuffix(m, cursor, start);
    } else {
      assert m[0..] == m;
    }
  }

  lemma {:induction false} AfterIsSuffix(m: seq<MEntry>, cursor: Bytes, start: nat)
    requires start <= |m| && cursor != []
    requires forall k :: 0 <= k < |m| ==> (Less(cursor, m[k].name) <==> start <= k)
    ensures m[start..] == EntriesAfter(m, cursor)
  {
    if m != [] && start > 0 {
      assert m[1..][start - 1..] == m[start..];
      AfterIsSuffix(m[1..], cursor, start - 1);
    } else {
      assert m[start..] == m;
    }
  }

  /** The entries of one page. */
  function PageEntries(m: seq<MEntry>, cursor: Bytes, n: nat): (r: seq<MEntry>) {
    Front(EntriesAfter(m, cursor), n)
  }

  /** The cursor after a page: its last name, if more names follow. */
  function PageCursor(m: seq<MEntry>, cursor: Bytes, n: nat): (c: Bytes)
    requires n >= 1
  {
    CursorIn(EntriesAfter(m, cursor), n)
  }

  function Front(rest: seq<MEntry>, n: nat): (r: seq<MEntry>) {
    rest[..Min(n, |rest|)]
  }

  function CursorIn(rest: seq<MEntry>, n: nat): (c: Bytes)
    requires n >= 1
  {
    if n < |rest| then rest[n - 1].name else []
  }

  /** The slice of a sorted folder that is one page, and the cursor after it. */
  method SlicePage(m: seq<MEntry>, cursor: Bytes, n: nat) returns (raw: seq<MEntry>, next: Bytes)
    requires SortedFolder(m) && n >= 1
    ensures raw == PageEntries(m, cursor, n) && next == PageCursor(m, cursor, n)
  {
    var start := After(m, cursor);
    raw, next := SliceFrom(m, start, n);
  }

  method SliceFrom(m: seq<MEntry>, start: nat, n: nat) returns (raw: seq<MEntry>, next: Bytes)
    requires start <= |m| && n >= 1
    ensures raw == Front(m[start..], n) && next == CursorIn(m[start..], n)
  {
    var end := Min(start + n, |m|);
    raw := m[start..end];
    SliceOfSuffix(m, start, end);
    next := if end < |m| && |raw| > 0 then raw[|raw| - 1].name else [];
  }

  lemma {:induction false} SliceOfSuffix<T>(m: seq<T>, start: nat, end: nat)
    requires start <= end <= |m|
    ensures m[start..end] == m[start..][..end - start]
    ensures end > start ==> m[start..end][end - start - 1] == m[start..][end - start - 1]
  {
  }

  /** Page and cursor are those of the sorted names. */
  lemma {:induction false} PageEntriesNames(m: seq<MEntry>, cursor: Bytes, n: nat)
    requires n >= 1
    ensures NamesOf(PageEntries(m, cursor, n)) == PageNames(NamesOf(m), cursor, n)
    ensures PageCursor(m, cursor, n) == PageNext(NamesOf(m), cursor, n)
  {
    var rest := EntriesAfter(m, cursor);
    EntriesAfterNames(m, cursor);
    assert NamesOf(rest[..Min(n, |rest|)]) == NamesOf(rest)[..Min(n, |rest|)];
  }
}
