/** The COS disk as the source writes it: fields changed by critical sections, an
  eviction loop and a copy loop, each proved against the functions that
  `DiskRuns` reasons about under every interleaving.
 */
module Disk {
  import opened Order
  import opened SegmentCache
  import opened DiskProtocol

  /** No segment in the map is in flight. */
  ghost predicate Quiet(c: Cache) {
    forall i :: i in c.segs ==> c.segs[i] < |c.objs| && c.objs[c.segs[i]].listed && c.objs[c.segs[i]].done
  }

  /** The cache after a caller that is alone has fetched segment `idx`. */
  function Fetched(c: Cache, idx: nat, content: Content, max: int): (r: Cache)
    requires IdsInRange(c.objs, c.lru)
  {
    Closed(Store(Claim(c, idx, 0), |c.objs|, content), |c.objs|, max)
  }

  /** The cache after segment `id` is published and closed. */
  function Closed(c: Cache, id: nat, max: int): (r: Cache)
    requires id < |c.objs| && IdsInRange(c.objs, c.lru)
  {
    EvictStopsInTime(List(c, id), max);
    Close(Publish(c, id, max), id)
  }

  lemma {:induction false} FetchedKeeps(file: seq<Bytes>, max: int, c: Cache, idx: nat, content: Content)
    requires CacheInv(file, max, c) && Quiet(c) && idx !in c.segs && idx < |file|
    requires content == Failed || content == Ready(file[idx])
    ensures var r := Fetched(c, idx, content, max);
            && CacheInv(file, max, r) && Quiet(r)
            && (content.Failed? ==> r.segs == c.segs && r.lru == c.lru && r.cached == c.cached)
  {
    var id := |c.objs|;
    var stored := Store(Claim(c, idx, 0), id, content);
    StoredKeeps(file, max, c, idx, content);
    ClosedKeeps(file, max, stored, id);
    FetchedQuiet(c, idx, content, Publish(stored, id, max));
    if content.Failed? {
      FailedFetchLeaves(c, idx, max);
    }
  }

  lemma {:induction false} StoredKeeps(file: seq<Bytes>, max: int, c: Cache, idx: nat, content: Content)
    requires CacheInv(file, max, c) && idx !in c.segs && idx < |file|
    requires content == Failed || content == Ready(file[idx])
    ensures var r := Store(Claim(c, idx, 0), |c.objs|, content);
            CacheInv(file, max, r) && Mapped(r.objs, r.segs, |c.objs|) && !r.objs[|c.objs|].listed
  {
    ClaimKeeps(file, max, c, idx, 0);
    StoreKeeps(file, max, Claim(c, idx, 0), |c.objs|, content);
  }

  lemma {:induction false} FailedFetchLeaves(c: Cache, idx: nat, max: int)
    requires idx !in c.segs && IdsInRange(c.objs, c.lru)
    ensures var r := Fetched(c, idx, Failed, max);
            r.segs == c.segs && r.lru == c.lru && r.cached == c.cached
  {
  }

  lemma {:induction false} ClosedKeeps(file: seq<Bytes>, max: int, c: Cache, id: nat)
    requires CacheInv(file, max, c) && Mapped(c.objs, c.segs, id)
    requires !c.objs[id].listed && !c.objs[id].content.Pending?
    ensures var r := Publish(c, id, max);
            && CacheInv(file, max, Closed(c, id, max))
            && (c.objs[id].content.Failed? ==> c.objs[id].idx !in r.segs && r.objs == c.objs)
            && (c.objs[id].content.Ready? ==> r.objs == List(c, id).objs)
            && FlightKept(c, r, id)
  {
    PublishKeeps(file, max, c, id);
    CloseKeeps(file, max, Publish(c, id, max), id);
  }

  lemma {:induction false} FetchedQuiet(c: Cache, idx: nat, content: Content, published: Cache)
    requires Quiet(c) && idx !in c.segs && !content.Pending?
    requires var stored := Store(Claim(c, idx, 0), |c.objs|, content);
             && published.objs == (if content.Failed? then stored.objs else List(stored, |c.objs|).objs)
             && (content.Failed? ==> idx !in published.segs)
             && FlightKept(stored, published, |c.objs|)
    ensures Quiet(Close(published, |c.objs|))
  {
    var r := Close(published, |c.objs|);
    forall i | i in r.segs ensures r.segs[i] < |r.objs| && r.objs[r.segs[i]].listed && r.objs[r.segs[i]].done {
      if i != idx {
        assert i in c.segs && r.segs[i] == c.segs[i];
      }
    }
  }

  class CosDisk {
    const cfg: Config
    var objs: seq<Segment>
    var segs: map<nat, nat>
    var lru: seq<nat>
    var cached: int
    var clock: nat

    ghost function View(): (c: Cache)
      reads this
    {
      Cache(objs, segs, lru, cached, clock)
    }

    ghost predicate Valid()
      reads this
    {
      cfg.Valid() && CacheInv(cfg.File(), cfg.max, View())
    }

    /** No fetch is under way. */
    ghost predicate Settled()
      reads this
    {
      Quiet(View())
    }

    constructor (src: Bytes, segmentSize: int, readAhead: int, maxBytes: int)
      ensures cfg == Configure(src, segmentSize, readAhead, maxBytes)
      ensures Valid() && Settled() && View() == EMPTY
    {
      cfg := Configure(src, segmentSize, readAhead, maxBytes);
      objs, segs, lru, cached, clock := [], map[], [], 0, 0;
      new;
      EmptyInv(cfg.File(), cfg.max, View());
    }

    /** The first critical section of `get`. `mine` says the caller must fetch. */
    method Look(idx: nat, me: nat) returns (id: nat, mine: bool)
      requires Valid() && idx < |cfg.File()|
      modifies this
      ensures Valid()
      ensures mine <==> idx !in old(segs)
      ensures mine ==> View() == Claim(old(View()), idx, me) && id == |old(objs)|
      ensures !mine ==> old(segs)[idx] < |old(objs)| && View() == Touch(old(View()), idx) && id == old(segs)[idx]
    {
      mine := idx !in segs;
      if mine {
        id := Enter(idx, me);
      } else {
        id := Hit(idx);
      }
    }

    method Hit(idx: nat) returns (id: nat)
      requires Valid() && idx in segs
      modifies this
      ensures Valid() && id == old(segs)[idx] < |old(objs)| && View() == Touch(old(View()), idx)
    {
      TouchKeeps(cfg.File(), cfg.max, View(), idx);
      id := segs[idx];
      MoveToFront(idx);
    }

    method MoveToFront(idx: nat)
      requires idx in segs && segs[idx] < |objs|
      modifies this`objs, this`lru, this`clock
      ensures View() == Touch(old(View()), idx)
    {
      var id := segs[idx];
      if objs[id].listed {
        clock := clock + 1;
        objs := objs[id := objs[id].(used := clock)];
        lru := [id] + Without(lru, id);
      }
    }

    method Enter(idx: nat, me: nat) returns (id: nat)
      requires Valid() && idx !in segs && idx < |cfg.File()|
      modifies this
      ensures Valid() && id == |old(objs)| && View() == Claim(old(View()), idx, me)
    {
      ClaimKeeps(cfg.File(), cfg.max, View(), idx, me);
      id := |objs|;
      objs := objs + [Segment(idx, me, Pending, false, false, clock)];
      segs := segs[idx := id];
    }

    /** Takes segments from the back of the list, as `Evict` says. */
    method EvictLoop()
      requires cfg.Valid() && Consistent(cfg.File(), View())
      modifies this`segs, this`lru, this`cached
      ensures Valid()
      ensures View() == Evict(old(View()), cfg.max)
    {
      EvictTrims(cfg.File(), cfg.max, View());
      while cached > cfg.max && |lru| > 1
        invariant IdsInRange(objs, lru)
        invariant Evict(View(), cfg.max) == Evict(old(View()), cfg.max)
        decreases |lru|
      {
        var s := objs[lru[|lru| - 1]];
        lru := lru[..|lru| - 1];
        segs := segs - {s.idx};
        cached := cached - s.Length();
      }
    }

    method PushFront(id: nat)
      requires id < |objs|
      modifies this`objs, this`lru, this`cached, this`clock
      ensures View() == List(old(View()), id)
    {
      clock := clock + 1;
      objs := objs[id := objs[id].(listed := true, used := clock)];
      lru := [id] + lru;
      cached := cached + objs[id].Length();
    }

    /** The second critical section of `get`. */
    method PublishSegment(id: nat)
      requires Valid() && Mapped(objs, segs, id) && !objs[id].listed && !objs[id].content.Pending?
      modifies this
      ensures Valid()
      ensures View() == Publish(old(View()), id, cfg.max)
    {
      PublishKeeps(cfg.File(), cfg.max, View(), id);
      if objs[id].content.Failed? {
        segs := segs - {objs[id].idx};
      } else {
        ListKeeps(cfg.File(), View(), id);
        PushFront(id);
        EvictLoop();
      }
    }

    /** The part of `get` after a claim, by a caller that is alone: the fetch, the
        publication and the close. */
    method FetchAlone(idx: nat, ok: bool) returns (content: Content)
      requires Valid() && Settled() && idx !in segs && idx < |cfg.File()|
      modifies this
      ensures Valid() && Settled()
      ensures content == (if ok then Ready(cfg.File()[idx]) else Failed)
      ensures View() == Fetched(old(View()), idx, content, cfg.max)
    {
      FetchReadsPiece(cfg.src, cfg.seg, idx);
      assert FetchBytes(cfg, idx) == FetchBytes(Config(cfg.src, cfg.seg, 1, 0), idx);
      content := if ok then Ready(FetchBytes(cfg, idx)) else Failed;
      KeepFetched(idx, content);
    }

    method KeepFetched(idx: nat, content: Content)
      requires Valid() && Settled() && idx !in segs && idx < |cfg.File()|
      requires content == Ready(cfg.File()[idx]) || content == Failed
      modifies this
      ensures Valid() && Settled()
      ensures View() == Fetched(old(View()), idx, content, cfg.max)
    {
      FetchedKeeps(cfg.File(), cfg.max, View(), idx, content);
      var id := Stored(idx, content);
      PublishAndClose(id);
    }

    method PublishAndClose(id: nat)
      requires Valid() && Mapped(objs, segs, id) && !objs[id].listed && !objs[id].content.Pending?
      modifies this
      ensures cfg.Valid() && View() == Closed(old(View()), id, cfg.max)
    {
      PublishKeeps(cfg.File(), cfg.max, View(), id);
      PublishSegment(id);
      objs := objs[id := objs[id].(done := true)];
    }

    method Stored(idx: nat, content: Content) returns (id: nat)
      requires Valid() && idx !in segs && idx < |cfg.File()|
      requires content == Ready(cfg.File()[idx]) || content == Failed
      modifies this
      ensures Valid() && id == old(|objs|)
      ensures Mapped(objs, segs, id) && !objs[id].listed && objs[id].content == content
      ensures View() == Store(Claim(old(View()), idx, 0), id, content)
    {
      var mine;
      id, mine := Look(idx, 0);
      StoreKeeps(cfg.File(), cfg.max, View(), id, content);
      objs := objs[id := objs[id].(content := content)];
    }

    /** `get` by a caller that is alone. `fails` says which segments cannot be
        fetched now: a segment in the cache is served all the same. */
    method Get(idx: nat, fails: nat -> bool) returns (data: Bytes, failed: bool)
      requires Valid() && Settled() && idx < |cfg.File()|
      modifies this
      ensures Valid() && Settled()
      ensures !failed ==> data == cfg.File()[idx]
      ensures failed <==> idx !in old(segs) && fails(idx)
      ensures failed ==> segs == old(segs) && lru == old(lru) && cached == old(cached)
    {
      if idx in segs {
        var id, _ := Look(idx, 0);
        assert SegmentOk(cfg.File(), objs[id], clock);
        return objs[id].content.data, false;
      }
      FetchedKeeps(cfg.File(), cfg.max, View(), idx, if fails(idx) then Failed else Ready(cfg.File()[idx]));
      var content := FetchAlone(idx, !fails(idx));
      return if content.Ready? then content.data else [], fails(idx);
    }

    /** One turn of the copy loop of `ReadAt`. */
    method CopyNext(off: nat, buf: Bytes, n: nat, fails: nat -> bool) returns (more: Bytes, failed: bool)
      requires Valid() && Settled() && off + n <= |cfg.src| && |buf| < n && buf == cfg.src[off..off + |buf|]
      modifies this
      ensures Valid() && Settled()
      ensures failed ==> exists i: nat :: fails(i)
      ensures failed ==> more == buf
      ensures !failed ==> |buf| < |more| <= n && more == cfg.src[off..off + |more|]
    {
      NextChunkIsRight(cfg.src, cfg.seg, off, buf, n);
      var data;
      data, failed := Get(SegmentOf(off + |buf|, cfg.seg), fails);
      more := if failed then buf else buf + NextChunk(cfg.seg, off, buf, n, data);
    }

    /** `ReadAt` by a caller that is alone. */
    method ReadAt(off: int, want: nat, fails: nat -> bool) returns (buf: Bytes, outcome: Outcome)
      requires Valid() && Settled()
      modifies this
      ensures Valid() && Settled()
      ensures ResultOk(cfg, off, want, buf, outcome)
      ensures outcome == Fault ==> exists i: nat :: fails(i)
    {
      buf := [];
      if off < 0 {
        return buf, Refused;
      }
      if off >= |cfg.src| {
        return buf, Eof;
      }
      var n := if off + want > |cfg.src| then |cfg.src| - off else want;
      while |buf| < n
        invariant Valid() && Settled()
        invariant |buf| <= n && buf == cfg.src[off..off + |buf|]
        decreases n - |buf|
      {
        var failed;
        buf, failed := CopyNext(off, buf, n, fails);
        if failed {
          return buf, Fault;
        }
      }
      outcome := if n < want then Eof else Clean;
    }
  }
}
