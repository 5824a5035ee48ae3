/** The shared state of a COS disk: its segment map, LRU list and byte count,
  and what each critical section does to it.

  A segment object is named by its place in `objs`; objects are never reused, so
  a reader that holds an evicted segment still names the same bytes. `owner` and
  `used` are history: the goroutine that made the segment, and the last time it
  was used. No section reads them.
 */
module SegmentCache {
  import opened Order

  datatype Content = Pending | Failed | Ready(data: Bytes)

  datatype Segment = Segment(idx: nat, owner: nat, content: Content, done: bool, listed: bool, used: nat) {
    function Length(): nat {
      if content.Ready? then |content.data| else 0
    }
  }

  datatype Cache = Cache(objs: seq<Segment>, segs: map<nat, nat>, lru: seq<nat>, cached: int, clock: nat)

  const EMPTY := Cache([], map[], [], 0, 0)

  predicate IdsInRange(objs: seq<Segment>, ids: seq<nat>) {
    forall k :: 0 <= k < |ids| ==> ids[k] < |objs|
  }

  /** The bytes that the listed segments hold. */
  function Held(objs: seq<Segment>, lru: seq<nat>): (n: int)
    requires IdsInRange(objs, lru)
  {
    if lru == [] then 0 else objs[lru[0]].Length() + Held(objs, lru[1..])
  }

  function Without(ids: seq<nat>, id: nat): (r: seq<nat>) {
    if ids == [] then []
    else if ids[0] == id then Without(ids[1..], id)
    else [ids[0]] + Without(ids[1..], id)
  }

  // ---- what holds whenever the lock is free ----

  /** Each entry of the map is a segment of its own index. */
  ghost predicate MapOk(objs: seq<Segment>, segs: map<nat, nat>) {
    forall i :: i in segs ==> segs[i] < |objs| && objs[segs[i]].idx == i
  }

  /** A ready segment in the map is in the list. */
  ghost predicate ReadyIsListed(objs: seq<Segment>, segs: map<nat, nat>, lru: seq<nat>)
    requires MapOk(objs, segs)
  {
    forall i :: i in segs && objs[segs[i]].listed ==> segs[i] in lru
  }

  ghost predicate Mapped(objs: seq<Segment>, segs: map<nat, nat>, id: nat) {
    id < |objs| && objs[id].idx in segs && segs[objs[id].idx] == id
  }

  /** Everything in the list is a ready segment in the map. */
  ghost predicate ListedIsReady(objs: seq<Segment>, segs: map<nat, nat>, lru: seq<nat>) {
    forall k :: 0 <= k < |lru| ==> Mapped(objs, segs, lru[k]) && objs[lru[k]].listed
  }

  /** The list runs from the most to the least recently used, so nothing is in it twice. */
  ghost predicate ByUse(objs: seq<Segment>, lru: seq<nat>) {
    && IdsInRange(objs, lru)
    && (forall j, k :: 0 <= j < k < |lru| ==> objs[lru[j]].used > objs[lru[k]].used)
  }

  ghost predicate SegmentOk(file: seq<Bytes>, s: Segment, clock: nat) {
    && s.used <= clock
    && s.idx < |file|
    && (s.listed ==> s.content.Ready?)
    && (s.done ==> !s.content.Pending?)
    && (s.content.Ready? ==> s.content.data == file[s.idx])
  }

  ghost predicate ObjsOk(file: seq<Bytes>, objs: seq<Segment>, clock: nat) {
    forall id :: 0 <= id < |objs| ==> SegmentOk(file, objs[id], clock)
  }

  /** The cache inside a critical section: it may be over its byte limit. */
  ghost predicate Consistent(file: seq<Bytes>, c: Cache) {
    && MapOk(c.objs, c.segs)
    && ReadyIsListed(c.objs, c.segs, c.lru)
    && ListedIsReady(c.objs, c.segs, c.lru)
    && ByUse(c.objs, c.lru)
    && ObjsOk(file, c.objs, c.clock)
    && c.cached == Held(c.objs, c.lru)
  }

  /** The cache with the lock free. `file` holds the segments of the remote file. */
  ghost predicate CacheInv(file: seq<Bytes>, max: int, c: Cache) {
    Consistent(file, c) && (c.cached <= max || |c.lru| <= 1)
  }

  lemma {:induction false} EmptyInv(file: seq<Bytes>, max: int, c: Cache)
    requires c == EMPTY && max >= 0
    ensures CacheInv(file, max, c)
  {
  }

  // ---- the critical sections ----

  /** `get` finds segment `idx` in the map: a listed one becomes the most recently used. */
  function Touch(c: Cache, idx: nat): (r: Cache)
    requires idx in c.segs && c.segs[idx] < |c.objs|
  {
    var id := c.segs[idx];
    if c.objs[id].listed then
      Cache(c.objs[id := c.objs[id].(used := c.clock + 1)], c.segs, [id] + Without(c.lru, id), c.cached, c.clock + 1)
    else c
  }

  /** `get` does not find segment `idx`: `me` claims it and will fetch it. */
  function Claim(c: Cache, idx: nat, me: nat): (r: Cache) {
    c.(objs := c.objs + [Segment(idx, me, Pending, false, false, c.clock)], segs := c.segs[idx := |c.objs|])
  }

  /** The fetch sets the segment's bytes or error, without the lock. */
  function Store(c: Cache, id: nat, content: Content): (r: Cache)
    requires id < |c.objs|
  {
    c.(objs := c.objs[id := c.objs[id].(content := content)])
  }

  /** The least recently used segment leaves the list and the map. */
  function DropLast(c: Cache): (r: Cache)
    requires IdsInRange(c.objs, c.lru) && c.lru != []
  {
    var s := c.objs[c.lru[|c.lru| - 1]];
    c.(lru := c.lru[..|c.lru| - 1], segs := c.segs - {s.idx}, cached := c.cached - s.Length())
  }

  /** The cache once segments have left from the back of the list: while it holds too
      many bytes and more than one segment. */
  function Evict(c: Cache, max: int): (r: Cache)
    requires IdsInRange(c.objs, c.lru)
    decreases |c.lru|
  {
    if c.cached > max && |c.lru| > 1 then Evict(DropLast(c), max) else c
  }

  function List(c: Cache, id: nat): (r: Cache)
    requires id < |c.objs|
  {
    Cache(c.objs[id := c.objs[id].(listed := true, used := c.clock + 1)], c.segs,
          [id] + c.lru, c.cached + c.objs[id].Length(), c.clock + 1)
  }

  /** The fetcher takes the lock again: a failed segment leaves the map, a good
      one goes to the front of the list and the rest make room for it. */
  function Publish(c: Cache, id: nat, max: int): (r: Cache)
    requires id < |c.objs| && IdsInRange(c.objs, c.lru)
  {
    if c.objs[id].content.Failed? then c.(segs := c.segs - {c.objs[id].idx})
    else Evict(List(c, id), max)
  }

  function Close(c: Cache, id: nat): (r: Cache)
    requires id < |c.objs|
  {
    c.(objs := c.objs[id := c.objs[id].(done := true)])
  }

  // ---- lemmas about the list and the byte count ----

  lemma {:induction false} HeldFrame(a: seq<Segment>, b: seq<Segment>, lru: seq<nat>)
    requires IdsInRange(a, lru) && IdsInRange(b, lru)
    requires forall k :: 0 <= k < |lru| ==> a[lru[k]].Length() == b[lru[k]].Length()
    ensures Held(a, lru) == Held(b, lru)
  {
    if lru != [] {
      assert a[lru[0]].Length() == b[lru[0]].Length();
      forall k | 0 <= k < |lru[1..]| ensures a[lru[1..][k]].Length() == b[lru[1..][k]].Length() {
        assert lru[1..][k] == lru[k + 1];
      }
      HeldFrame(a, b, lru[1..]);
    }
  }

  lemma {:induction false} HeldDropLast(objs: seq<Segment>, lru: seq<nat>)
    requires IdsInRange(objs, lru) && lru != []
    ensures Held(objs, lru) == Held(objs, lru[..|lru| - 1]) + objs[lru[|lru| - 1]].Length()
  {
    if |lru| > 1 {
      HeldDropLast(objs, lru[1..]);
      assert lru[1..][..|lru[1..]| - 1] == lru[..|lru| - 1][1..];
    }
  }

  lemma {:induction false} HeldWithout(objs: seq<Segment>, lru: seq<nat>, id: nat)
    requires IdsInRange(objs, lru) && id in lru && Distinct(lru)
    ensures IdsInRange(objs, Without(lru, id))
    ensures Held(objs, lru) == objs[id].Length() + Held(objs, Without(lru, id))
  {
    if lru[0] == id {
      WithoutAbsent(lru[1..], id);
    } else {
      HeldWithout(objs, lru[1..], id);
    }
  }

  lemma {:induction false} WithoutAbsent(ids: seq<nat>, id: nat)
    requires id !in ids
    ensures Without(ids, id) == ids
  {
    if ids != [] {
      WithoutAbsent(ids[1..], id);
    }
  }

  lemma {:induction false} WithoutMembers(ids: seq<nat>, id: nat)
    ensures forall x :: x in Without(ids, id) <==> x in ids && x != id
    ensures |Without(ids, id)| <= |ids| && (id in ids ==> |Without(ids, id)| < |ids|)
  {
    if ids != [] {
      WithoutMembers(ids[1..], id);
    }
  }

  lemma {:induction false} WithoutByUse(objs: seq<Segment>, ids: seq<nat>, id: nat)
    requires ByUse(objs, ids)
    ensures ByUse(objs, Without(ids, id))
  {
    if ids != [] {
      WithoutByUse(objs, ids[1..], id);
      if ids[0] != id {
        var w := Without(ids[1..], id);
        WithoutMembers(ids[1..], id);
        assert forall k :: 0 <= k < |w| ==> w[k] in ids[1..];
        ConsByUse(objs, ids[0], w);
      }
    }
  }

  lemma {:induction false} ConsByUse(objs: seq<Segment>, id: nat, ids: seq<nat>)
    requires ByUse(objs, ids) && id < |objs|
    requires forall k :: 0 <= k < |ids| ==> objs[id].used > objs[ids[k]].used
    ensures ByUse(objs, [id] + ids)
  {
  }

  /** A segment used now goes to the front of a list that holds only older uses. */
  lemma {:induction false} FrontByUse(objs: seq<Segment>, updated: seq<Segment>, ids: seq<nat>, id: nat, clock: nat)
    requires ByUse(objs, ids) && id !in ids && id < |objs| == |updated|
    requires forall k :: 0 <= k < |objs| ==> objs[k].used <= clock
    requires forall k :: 0 <= k < |objs| && k != id ==> updated[k].used == objs[k].used
    requires updated[id].used > clock
    ensures ByUse(updated, [id] + ids)
  {
    var r := [id] + ids;
    assert forall k :: 0 < k < |r| ==> r[k] == ids[k - 1];
    forall j, k | 0 <= j < k < |r| ensures updated[r[j]].used > updated[r[k]].used {
      assert updated[r[k]].used == objs[ids[k - 1]].used;
      if j > 0 {
        assert updated[r[j]].used == objs[ids[j - 1]].used;
      }
    }
  }

  lemma {:induction false} ByUseDistinct(objs: seq<Segment>, lru: seq<nat>)
    requires ByUse(objs, lru)
    ensures Distinct(lru)
  {
  }

  // ---- each section keeps the invariant ----

  lemma {:induction false} ClaimKeeps(file: seq<Bytes>, max: int, c: Cache, idx: nat, me: nat)
    requires CacheInv(file, max, c) && idx !in c.segs && idx < |file|
    ensures CacheInv(file, max, Claim(c, idx, me))
  {
    var r := Claim(c, idx, me);
    assert MapOk(r.objs, r.segs);
    HeldFrame(c.objs, r.objs, c.lru);
    assert ListedIsReady(r.objs, r.segs, r.lru) by {
      forall k | 0 <= k < |r.lru| ensures Mapped(r.objs, r.segs, r.lru[k]) && r.objs[r.lru[k]].listed {
        assert Mapped(c.objs, c.segs, c.lru[k]);
      }
    }
    assert ReadyIsListed(r.objs, r.segs, r.lru) by {
      forall i | i in r.segs && r.objs[r.segs[i]].listed ensures r.segs[i] in r.lru {
        assert i in c.segs;
      }
    }
  }

  /** Changing fields that the list does not depend on changes nothing about it. */
  lemma {:induction false} SameShape(file: seq<Bytes>, max: int, c: Cache, id: nat, s: Segment)
    requires CacheInv(file, max, c) && id < |c.objs|
    requires SegmentOk(file, s, c.clock)
    requires s.idx == c.objs[id].idx && s.listed == c.objs[id].listed && s.used == c.objs[id].used
    requires s.listed ==> s.content == c.objs[id].content
    ensures CacheInv(file, max, c.(objs := c.objs[id := s]))
  {
    var objs := c.objs[id := s];
    HeldFrame(c.objs, objs, c.lru) by {
      forall k | 0 <= k < |c.lru| ensures c.objs[c.lru[k]].Length() == objs[c.lru[k]].Length() {
        assert c.objs[c.lru[k]].listed;
      }
    }
    assert ListedIsReady(objs, c.segs, c.lru) by {
      forall k | 0 <= k < |c.lru| ensures Mapped(objs, c.segs, c.lru[k]) && objs[c.lru[k]].listed {
        assert Mapped(c.objs, c.segs, c.lru[k]);
      }
    }
  }

  lemma {:induction false} StoreKeeps(file: seq<Bytes>, max: int, c: Cache, id: nat, content: Content)
    requires CacheInv(file, max, c) && id < |c.objs| && !c.objs[id].listed && !c.objs[id].done
    requires content == Failed || (c.objs[id].idx < |file| && content == Ready(file[c.objs[id].idx]))
    ensures CacheInv(file, max, Store(c, id, content))
  {
    assert SegmentOk(file, c.objs[id], c.clock);
    SameShape(file, max, c, id, c.objs[id].(content := content));
  }

  lemma {:induction false} CloseKeeps(file: seq<Bytes>, max: int, c: Cache, id: nat)
    requires CacheInv(file, max, c) && id < |c.objs| && !c.objs[id].content.Pending?
    ensures CacheInv(file, max, Close(c, id))
  {
    assert SegmentOk(file, c.objs[id], c.clock);
    SameShape(file, max, c, id, c.objs[id].(done := true));
  }

  lemma {:induction false} TouchObjs(file: seq<Bytes>, c: Cache, idx: nat)
    requires ObjsOk(file, c.objs, c.clock) && idx in c.segs && c.segs[idx] < |c.objs|
    ensures ObjsOk(file, Touch(c, idx).objs, Touch(c, idx).clock)
  {
    var r := Touch(c, idx);
    forall k | 0 <= k < |r.objs| ensures SegmentOk(file, r.objs[k], r.clock) {
      assert SegmentOk(file, c.objs[k], c.clock);
    }
  }

  lemma {:induction false} TouchByUse(file: seq<Bytes>, c: Cache, idx: nat)
    requires ObjsOk(file, c.objs, c.clock) && idx in c.segs && c.segs[idx] < |c.objs| && c.objs[c.segs[idx]].listed
    requires ByUse(c.objs, c.lru)
    ensures ByUse(Touch(c, idx).objs, Touch(c, idx).lru)
  {
    var id := c.segs[idx];
    WithoutMembers(c.lru, id);
    WithoutByUse(c.objs, c.lru, id);
    forall k | 0 <= k < |c.objs| ensures c.objs[k].used <= c.clock {
      assert SegmentOk(file, c.objs[k], c.clock);
    }
    FrontByUse(c.objs, Touch(c, idx).objs, Without(c.lru, id), id, c.clock);
  }

  lemma {:induction false} TouchLength(c: Cache, idx: nat)
    requires idx in c.segs && c.segs[idx] < |c.objs| && c.objs[c.segs[idx]].listed
    requires ByUse(c.objs, c.lru) && c.segs[idx] in c.lru
    ensures |Touch(c, idx).lru| <= |c.lru|
  {
    WithoutMembers(c.lru, c.segs[idx]);
  }

  /** `ids` with the one at place `p` taken to the front, the others in their order. */
  function Fronted(ids: seq<nat>, p: nat): (r: seq<nat>)
    requires p < |ids|
  {
    [ids[p]] + ids[..p] + ids[p + 1..]
  }

  lemma {:induction false} WithoutAt(ids: seq<nat>, p: nat)
    requires p < |ids| && Distinct(ids)
    ensures Without(ids, ids[p]) == ids[..p] + ids[p + 1..]
  {
    if p == 0 {
      WithoutAbsent(ids[1..], ids[0]);
    } else {
      WithoutAt(ids[1..], p - 1);
      assert ids[1..][..p - 1] == ids[1..p] && ids[1..][p..] == ids[p + 1..];
      assert [ids[0]] + ids[1..p] == ids[..p];
    }
  }

  /** A hit takes a listed segment to the front of the list and leaves the others in their
      order; a segment in flight is left where it is. Nothing leaves the map. */
  lemma {:induction false} TouchMovesToFront(file: seq<Bytes>, max: int, c: Cache, idx: nat)
    requires CacheInv(file, max, c) && idx in c.segs
    ensures var r, id := Touch(c, idx), c.segs[idx];
            && r.segs == c.segs
            && (c.objs[id].listed ==> exists p :: 0 <= p < |c.lru| && c.lru[p] == id && r.lru == Fronted(c.lru, p))
            && (!c.objs[id].listed ==> r.lru == c.lru)
  {
    var id := c.segs[idx];
    if c.objs[id].listed {
      var p :| 0 <= p < |c.lru| && c.lru[p] == id;
      ByUseDistinct(c.objs, c.lru);
      WithoutAt(c.lru, p);
      assert Touch(c, idx).lru == Fronted(c.lru, p);
    }
  }

  lemma {:induction false} TouchKeeps(file: seq<Bytes>, max: int, c: Cache, idx: nat)
    requires CacheInv(file, max, c) && idx in c.segs
    ensures CacheInv(file, max, Touch(c, idx))
  {
    if c.objs[c.segs[idx]].listed {
      assert c.segs[idx] in c.lru;
      TouchByUse(file, c, idx);
      TouchObjs(file, c, idx);
      TouchHeld(c, idx);
      TouchListed(c, idx);
      TouchLength(c, idx);
    }
  }

  lemma {:induction false} TouchHeld(c: Cache, idx: nat)
    requires idx in c.segs && c.segs[idx] < |c.objs| && c.objs[c.segs[idx]].listed
    requires ByUse(c.objs, c.lru) && c.segs[idx] in c.lru
    ensures var r := Touch(c, idx);
            IdsInRange(r.objs, r.lru) && Held(r.objs, r.lru) == Held(c.objs, c.lru)
  {
    var id := c.segs[idx];
    var r := Touch(c, idx);
    var w := Without(c.lru, id);
    ByUseDistinct(c.objs, c.lru);
    HeldWithout(c.objs, c.lru, id);
    HeldFrame(c.objs, r.objs, w);
    assert r.lru[1..] == w;
  }

  lemma {:induction false} TouchListed(c: Cache, idx: nat)
    requires MapOk(c.objs, c.segs) && idx in c.segs && c.objs[c.segs[idx]].listed
    requires ReadyIsListed(c.objs, c.segs, c.lru) && ListedIsReady(c.objs, c.segs, c.lru)
    ensures var r := Touch(c, idx);
            && MapOk(r.objs, r.segs)
            && ReadyIsListed(r.objs, r.segs, r.lru) && ListedIsReady(r.objs, r.segs, r.lru)
  {
    var id := c.segs[idx];
    var r := Touch(c, idx);
    var w := Without(c.lru, id);
    WithoutMembers(c.lru, id);
    assert MapOk(r.objs, r.segs);
    forall k | 0 <= k < |r.lru| ensures Mapped(r.objs, r.segs, r.lru[k]) && r.objs[r.lru[k]].listed {
      if k > 0 {
        assert r.lru[k] == w[k - 1] && w[k - 1] in c.lru;
        assert Mapped(c.objs, c.segs, w[k - 1]);
      }
    }
    forall i | i in r.segs && r.objs[r.segs[i]].listed ensures r.segs[i] in r.lru {
      assert r.segs[i] in c.lru;
      assert r.segs[i] == id || r.segs[i] in w;
    }
  }

  lemma {:induction false} ListObjs(file: seq<Bytes>, c: Cache, id: nat)
    requires ObjsOk(file, c.objs, c.clock) && id < |c.objs| && c.objs[id].content.Ready?
    ensures ObjsOk(file, List(c, id).objs, List(c, id).clock)
  {
    var r := List(c, id);
    forall k | 0 <= k < |r.objs| ensures SegmentOk(file, r.objs[k], r.clock) {
      assert SegmentOk(file, c.objs[k], c.clock);
    }
  }

  lemma {:induction false} ListByUse(file: seq<Bytes>, c: Cache, id: nat)
    requires ObjsOk(file, c.objs, c.clock) && ByUse(c.objs, c.lru) && id !in c.lru && id < |c.objs|
    ensures ByUse(List(c, id).objs, List(c, id).lru)
  {
    forall k | 0 <= k < |c.objs| ensures c.objs[k].used <= c.clock {
      assert SegmentOk(file, c.objs[k], c.clock);
    }
    FrontByUse(c.objs, List(c, id).objs, c.lru, id, c.clock);
  }

  lemma {:induction false} ListKeeps(file: seq<Bytes>, c: Cache, id: nat)
    requires Consistent(file, c) && Mapped(c.objs, c.segs, id)
    requires !c.objs[id].listed && c.objs[id].content.Ready?
    ensures Consistent(file, List(c, id))
  {
    var r := List(c, id);
    assert id !in c.lru;
    ListByUse(file, c, id);
    assert r.lru[1..] == c.lru;
    HeldFrame(c.objs, r.objs, c.lru);
    ListListed(c, id);
    ListObjs(file, c, id);
  }

  lemma {:induction false} ListListed(c: Cache, id: nat)
    requires MapOk(c.objs, c.segs) && Mapped(c.objs, c.segs, id)
    requires ReadyIsListed(c.objs, c.segs, c.lru) && ListedIsReady(c.objs, c.segs, c.lru)
    ensures var r := List(c, id);
            && MapOk(r.objs, r.segs)
            && ReadyIsListed(r.objs, r.segs, r.lru) && ListedIsReady(r.objs, r.segs, r.lru)
  {
    var r := List(c, id);
    assert MapOk(r.objs, r.segs);
    forall k | 0 <= k < |r.lru| ensures Mapped(r.objs, r.segs, r.lru[k]) && r.objs[r.lru[k]].listed {
      if k > 0 {
        assert r.lru[k] == c.lru[k - 1];
        assert Mapped(c.objs, c.segs, c.lru[k - 1]);
      }
    }
    forall i | i in r.segs && r.objs[r.segs[i]].listed ensures r.segs[i] in r.lru {
      if r.segs[i] != id {
        assert r.segs[i] in c.lru;
      }
    }
  }

  /** One turn of the eviction loop. */
  lemma {:induction false} DropLastKeeps(file: seq<Bytes>, c: Cache)
    requires Consistent(file, c) && |c.lru| > 1
    ensures Consistent(file, DropLast(c))
  {
    HeldDropLast(c.objs, c.lru);
    ByUseDistinct(c.objs, c.lru);
    DropLastListed(c);
  }

  lemma {:induction false} DropLastListed(c: Cache)
    requires MapOk(c.objs, c.segs) && IdsInRange(c.objs, c.lru) && |c.lru| > 1 && Distinct(c.lru)
    requires ReadyIsListed(c.objs, c.segs, c.lru) && ListedIsReady(c.objs, c.segs, c.lru)
    ensures var r := DropLast(c);
            && MapOk(r.objs, r.segs)
            && ReadyIsListed(r.objs, r.segs, r.lru) && ListedIsReady(r.objs, r.segs, r.lru)
  {
    var r := DropLast(c);
    var last := c.lru[|c.lru| - 1];
    assert Mapped(c.objs, c.segs, last);
    forall k | 0 <= k < |r.lru| ensures Mapped(r.objs, r.segs, r.lru[k]) && r.objs[r.lru[k]].listed {
      assert r.lru[k] == c.lru[k] && r.lru[k] != last;
      assert Mapped(c.objs, c.segs, c.lru[k]);
    }
    assert MapOk(r.objs, r.segs);
    forall i | i in r.segs && r.objs[r.segs[i]].listed ensures r.segs[i] in r.lru {
      assert r.segs[i] in c.lru && r.segs[i] != last;
    }
  }

  /** What eviction leaves: a front part of the list, and the map without the
      segments that left it. */
  ghost predicate Trimmed(c: Cache, r: Cache) {
    && r.objs == c.objs && r.clock == c.clock
    && r.lru <= c.lru && (c.lru != [] ==> r.lru != [])
    && (forall i :: i in r.segs ==> i in c.segs && r.segs[i] == c.segs[i])
    && (forall i :: i in c.segs && i !in r.segs ==> c.segs[i] in c.lru[|r.lru|..])
  }

  lemma {:induction false} EvictTrims(file: seq<Bytes>, max: int, c: Cache)
    requires Consistent(file, c)
    ensures CacheInv(file, max, Evict(c, max)) && Trimmed(c, Evict(c, max))
    decreases |c.lru|
  {
    if c.cached > max && |c.lru| > 1 {
      DropLastKeeps(file, c);
      EvictTrims(file, max, DropLast(c));
      TrimmedStep(c, Evict(DropLast(c), max));
    }
  }

  lemma {:induction false} TrimmedStep(c: Cache, r: Cache)
    requires IdsInRange(c.objs, c.lru) && |c.lru| > 1 && ListedIsReady(c.objs, c.segs, c.lru)
    requires Trimmed(DropLast(c), r)
    ensures Trimmed(c, r)
  {
    var last := c.lru[|c.lru| - 1];
    assert Mapped(c.objs, c.segs, last);
    assert c.lru == c.lru[..|c.lru| - 1] + [last];
    forall i | i in c.segs && i !in r.segs ensures c.segs[i] in c.lru[|r.lru|..] {
      if i == c.objs[last].idx {
        assert c.lru[|r.lru|..][|c.lru| - 1 - |r.lru|] == last;
      } else {
        assert c.segs[i] in c.lru[..|c.lru| - 1][|r.lru|..];
        assert c.lru[..|c.lru| - 1][|r.lru|..] == c.lru[|r.lru|..|c.lru| - 1];
      }
    }
  }

  lemma {:induction false} EvictKeepingAll(c: Cache, max: int)
    requires IdsInRange(c.objs, c.lru)
    ensures |Evict(c, max).lru| <= |c.lru|
    ensures |Evict(c, max).lru| == |c.lru| ==> Evict(c, max) == c
    decreases |c.lru|
  {
    if c.cached > max && |c.lru| > 1 {
      EvictKeepingAll(DropLast(c), max);
    }
  }

  /** Eviction stops as soon as the cache fits. */
  lemma {:induction false} EvictStopsInTime(c: Cache, max: int)
    requires IdsInRange(c.objs, c.lru)
    ensures var r := Evict(c, max);
            && r.objs == c.objs && r.lru <= c.lru
            && (|r.lru| < |c.lru| ==> r.cached + c.objs[c.lru[|r.lru|]].Length() > max)
    decreases |c.lru|
  {
    if c.cached > max && |c.lru| > 1 {
      EvictStopsInTime(DropLast(c), max);
      var d := DropLast(c);
      var r := Evict(d, max);
      if |r.lru| < |d.lru| {
        assert d.lru[|r.lru|] == c.lru[|r.lru|];
      } else {
        assert r.lru == d.lru && r == d by { EvictKeepingAll(d, max); }
      }
    }
  }

  /** A publication leaves every other segment in flight where it is. */
  ghost predicate FlightKept(c: Cache, r: Cache, id: nat) {
    && (forall i :: i in c.segs && c.segs[i] < |c.objs| && c.segs[i] != id && !c.objs[c.segs[i]].listed ==> i in r.segs)
    && (forall i :: i in r.segs ==> i in c.segs && r.segs[i] == c.segs[i])
  }

  /** After a publication the lock may be given up: the cache is within its limit
      or holds only the segment just fetched. A failed fetch leaves no entry. */
  lemma {:induction false} PublishKeeps(file: seq<Bytes>, max: int, c: Cache, id: nat)
    requires CacheInv(file, max, c) && Mapped(c.objs, c.segs, id)
    requires !c.objs[id].listed && !c.objs[id].content.Pending?
    ensures var r := Publish(c, id, max);
            && CacheInv(file, max, r)
            && (c.objs[id].content.Failed? ==> c.objs[id].idx !in r.segs && r.objs == c.objs)
            && (c.objs[id].content.Ready? ==> r.objs == List(c, id).objs)
            && FlightKept(c, r, id)
  {
    if c.objs[id].content.Failed? {
      FailedLeaves(c, id);
    } else {
      ListKeeps(file, c, id);
      EvictTrims(file, max, List(c, id));
      TrimKeepsFlight(c, id, Evict(List(c, id), max));
    }
  }

  lemma {:induction false} TrimKeepsFlight(c: Cache, id: nat, r: Cache)
    requires Mapped(c.objs, c.segs, id) && ListedIsReady(c.objs, c.segs, c.lru)
    requires Trimmed(List(c, id), r)
    ensures FlightKept(c, r, id)
  {
    var l := List(c, id);
    forall i | i in c.segs && c.segs[i] < |c.objs| && c.segs[i] != id && !c.objs[c.segs[i]].listed ensures i in r.segs {
      assert c.segs[i] !in c.lru;
      assert forall k :: 1 <= k < |l.lru| ==> l.lru[k] == c.lru[k - 1];
      assert c.segs[i] !in l.lru;
    }
  }

  lemma {:induction false} FailedLeaves(c: Cache, id: nat)
    requires MapOk(c.objs, c.segs) && Mapped(c.objs, c.segs, id) && !c.objs[id].listed
    requires ReadyIsListed(c.objs, c.segs, c.lru) && ListedIsReady(c.objs, c.segs, c.lru)
    ensures var segs := c.segs - {c.objs[id].idx};
            && MapOk(c.objs, segs)
            && ReadyIsListed(c.objs, segs, c.lru) && ListedIsReady(c.objs, segs, c.lru)
  {
    var segs := c.segs - {c.objs[id].idx};
    assert MapOk(c.objs, segs);
    forall k | 0 <= k < |c.lru| ensures Mapped(c.objs, segs, c.lru[k]) && c.objs[c.lru[k]].listed {
      assert Mapped(c.objs, c.segs, c.lru[k]) && c.lru[k] != id;
    }
  }

  /** The LRU law: what a publication keeps is the published segment and a front
      part of the old list; everything it drops was last used before everything
      it keeps, and it drops no more than it must. */
  lemma {:induction false} EvictionIsLeastRecentlyUsed(file: seq<Bytes>, max: int, c: Cache, id: nat)
    requires CacheInv(file, max, c) && Mapped(c.objs, c.segs, id)
    requires !c.objs[id].listed && c.objs[id].content.Ready?
    ensures var r := Publish(c, id, max);
            && Mapped(r.objs, r.segs, id)
            && KeptByUse(r.objs, [id] + c.lru, r.lru)
            && (|r.lru| < |c.lru| + 1 ==> r.cached + r.objs[([id] + c.lru)[|r.lru|]].Length() > max)
  {
    var r := Publish(c, id, max);
    var l := List(c, id);
    assert l.lru == [id] + c.lru;
    ListKeeps(file, c, id);
    EvictTrims(file, max, l);
    EvictStopsInTime(l, max);
    FrontUsedLater(l.objs, l.lru, r.lru);
    assert Mapped(r.objs, r.segs, r.lru[0]) && r.lru[0] == id;
  }

  /** `kept` is a non-empty front part of `all`, and what is not kept was last
      used before everything that is. */
  ghost predicate KeptByUse(objs: seq<Segment>, all: seq<nat>, kept: seq<nat>) {
    && IdsInRange(objs, all) && kept != [] && kept <= all
    && (forall d, k :: |kept| <= d < |all| && 0 <= k < |kept| ==> objs[all[d]].used < objs[all[k]].used)
  }

  lemma {:induction false} FrontUsedLater(objs: seq<Segment>, all: seq<nat>, front: seq<nat>)
    requires ByUse(objs, all) && front <= all && front != []
    ensures KeptByUse(objs, all, front)
  {
  }

  /** The byte count is what the ready segments hold, and at most the limit or
      one segment, whichever is larger. */
  lemma {:induction false} CachedBytesBounded(file: seq<Bytes>, max: int, seg: int, c: Cache)
    requires CacheInv(file, max, c)
    requires 0 <= seg && forall i :: 0 <= i < |file| ==> |file[i]| <= seg
    ensures 0 <= c.cached
    ensures c.cached <= max || c.cached <= seg
  {
    HeldNonNegative(c.objs, c.lru);
    if |c.lru| == 1 {
      assert c.lru[1..] == [];
      var s := c.objs[c.lru[0]];
      assert SegmentOk(file, s, c.clock) && s.listed;
    }
  }

  lemma {:induction false} HeldNonNegative(objs: seq<Segment>, lru: seq<nat>)
    requires IdsInRange(objs, lru)
    ensures Held(objs, lru) >= 0
  {
    if lru != [] {
      HeldNonNegative(objs, lru[1..]);
    }
  }
}
