/** Eviction over every run of a COS disk: the segment that leaves was used longest ago.

  A segment is used when it is asked for and when its bytes arrive. When that was is read
  off the events of the run, not off the cache.
 */
module DiskLru {
  import opened Order
  import opened SegmentCache
  import opened DiskProtocol
  import opened DiskRuns

  // ---- the states of a run ----

  /** The state after the first `k` events. */
  ghost function At(cfg: Config, events: seq<Event>, k: nat): (s: Sys)
    requires cfg.Valid() && k <= |events|
    ensures Inv(cfg, s)
  {
    if k == 0 then
      IdleInv(cfg);
      IDLE
    else Next(cfg, At(cfg, events, k - 1), events[k - 1])
  }

  // ---- uses ----

  /** In this event segment `idx` is asked for, or its bytes arrive. */
  ghost predicate Uses(s: Sys, e: Event, idx: nat) {
    Asks(s, e, idx) || Brings(s, e, idx)
  }

  /** In this event segment `idx` is asked for. */
  ghost predicate Asks(s: Sys, e: Event, idx: nat) {
    e.Go? && Enabled(s, e.t) && s.threads[e.t].pc == AtGet(idx)
  }

  /** In this event the bytes of segment `idx` arrive. */
  ghost predicate Brings(s: Sys, e: Event, idx: nat) {
    Arrives(s, e) && s.cache.objs[s.threads[e.t].pc.id].idx == idx
  }

  /** In this event the bytes of a segment arrive in the cache. */
  ghost predicate Arrives(s: Sys, e: Event) {
    && e.Go? && Enabled(s, e.t) && s.threads[e.t].pc.AtPublish?
    && s.threads[e.t].pc.id < |s.cache.objs| && s.cache.objs[s.threads[e.t].pc.id].content.Ready?
  }

  /** The last of the first `k` events in which segment `idx` was used, or -1. */
  ghost function LastUse(cfg: Config, events: seq<Event>, k: nat, idx: nat): (n: int)
    requires cfg.Valid() && k <= |events|
    ensures -1 <= n < k
  {
    if k == 0 then -1
    else if Uses(At(cfg, events, k - 1), events[k - 1], idx) then k - 1
    else LastUse(cfg, events, k - 1, idx)
  }

  // ---- the list is in the order of the last uses ----

  ghost predicate Recent(objs: seq<Segment>, ids: seq<nat>, last: nat -> int) {
    && IdsInRange(objs, ids)
    && (forall j, k :: 0 <= j < k < |ids| ==> last(objs[ids[j]].idx) > last(objs[ids[k]].idx))
  }

  /** The same list, whose segments were not used. */
  lemma {:induction false} RecentSame(a: seq<Segment>, b: seq<Segment>, ids: seq<nat>, old_: nat -> int,
                                      now: nat -> int)
    requires Recent(a, ids, old_) && IdsInRange(b, ids)
    requires forall k :: 0 <= k < |ids| ==> b[ids[k]].idx == a[ids[k]].idx
    requires forall k :: 0 <= k < |ids| ==> now(a[ids[k]].idx) == old_(a[ids[k]].idx)
    ensures Recent(b, ids, now)
  {
  }

  /** A segment that was used after all others goes to the front. */
  lemma {:induction false} RecentFront(objs: seq<Segment>, ids: seq<nat>, last: nat -> int, id: nat)
    requires Recent(objs, ids, last) && id < |objs|
    requires forall k :: 0 <= k < |ids| ==> last(objs[ids[k]].idx) < last(objs[id].idx)
    ensures Recent(objs, [id] + ids, last)
  {
  }

  lemma {:induction false} RecentCut(objs: seq<Segment>, ids: seq<nat>, last: nat -> int, p: nat)
    requires Recent(objs, ids, last) && p < |ids|
    ensures Recent(objs, ids[..p] + ids[p + 1..], last)
  {
    var cut := ids[..p] + ids[p + 1..];
    forall j | 0 <= j < |cut| ensures cut[j] == if j < p then ids[j] else ids[j + 1] {
    }
  }

  ghost function Last(cfg: Config, events: seq<Event>, k: nat): (last: nat -> int)
    requires cfg.Valid() && k <= |events|
  {
    (i: nat) => LastUse(cfg, events, k, i)
  }

  /** Different places of the list are different segments of the file. */
  lemma {:induction false} ListedApart(c: Cache, j: nat, k: nat)
    requires ListedIsReady(c.objs, c.segs, c.lru) && ByUse(c.objs, c.lru) && j < |c.lru| && k < |c.lru| && j != k
    ensures c.objs[c.lru[j]].idx != c.objs[c.lru[k]].idx
  {
    assert Mapped(c.objs, c.segs, c.lru[j]) && Mapped(c.objs, c.segs, c.lru[k]);
    ByUseDistinct(c.objs, c.lru);
  }

  // ---- each event keeps the order ----

  /** `now` is `last` after an event, the `n`th, that uses exactly `idx`. */
  ghost predicate UsedNow(last: nat -> int, now: nat -> int, n: int, idx: nat) {
    now(idx) == n && forall i: nat :: i != idx ==> now(i) == last(i)
  }

  ghost predicate AllBefore(last: nat -> int, n: int) {
    forall i: nat :: last(i) < n
  }

  lemma {:induction false} HitRecent(file: seq<Bytes>, max: int, c: Cache, idx: nat, last: nat -> int,
                                     now: nat -> int, n: int)
    requires CacheInv(file, max, c) && idx in c.segs && Recent(c.objs, c.lru, last) && AllBefore(last, n)
    requires UsedNow(last, now, n, idx)
    ensures Recent(Touch(c, idx).objs, Touch(c, idx).lru, now)
  {
    if c.objs[c.segs[idx]].listed {
      ListedHitRecent(file, max, c, idx, last, now, n);
    } else {
      NotListedRecent(c, idx, last, now, n);
    }
  }

  lemma {:induction false} ListedHitRecent(file: seq<Bytes>, max: int, c: Cache, idx: nat, last: nat -> int,
                                           now: nat -> int, n: int)
    requires CacheInv(file, max, c) && idx in c.segs && c.objs[c.segs[idx]].listed
    requires Recent(c.objs, c.lru, last) && AllBefore(last, n) && UsedNow(last, now, n, idx)
    ensures Recent(Touch(c, idx).objs, Touch(c, idx).lru, now)
  {
    TouchMovesToFront(file, max, c, idx);
    var r := Touch(c, idx);
    var p :| 0 <= p < |c.lru| && c.lru[p] == c.segs[idx] && r.lru == Fronted(c.lru, p);
    FrontedRecent(c, p, r.objs, last, now, n);
  }

  lemma {:induction false} NotListedRecent(c: Cache, idx: nat, last: nat -> int, now: nat -> int, n: int)
    requires ListedIsReady(c.objs, c.segs, c.lru) && Recent(c.objs, c.lru, last) && UsedNow(last, now, n, idx)
    requires idx in c.segs ==> c.segs[idx] < |c.objs| && !c.objs[c.segs[idx]].listed
    ensures Recent(c.objs, c.lru, now)
  {
    forall k | 0 <= k < |c.lru| ensures c.objs[c.lru[k]].idx != idx {
      assert Mapped(c.objs, c.segs, c.lru[k]) && c.objs[c.lru[k]].listed;
    }
    RecentSame(c.objs, c.objs, c.lru, last, now);
  }

  lemma {:induction false} FrontedRecent(c: Cache, p: nat, objs: seq<Segment>, last: nat -> int,
                                         now: nat -> int, n: int)
    requires ListedIsReady(c.objs, c.segs, c.lru) && ByUse(c.objs, c.lru) && p < |c.lru|
    requires Recent(c.objs, c.lru, last) && AllBefore(last, n) && UsedNow(last, now, n, c.objs[c.lru[p]].idx)
    requires |objs| == |c.objs| && forall k :: 0 <= k < |objs| ==> objs[k].idx == c.objs[k].idx
    ensures Recent(objs, Fronted(c.lru, p), now)
  {
    var cut := c.lru[..p] + c.lru[p + 1..];
    RecentCut(c.objs, c.lru, last, p);
    forall k | 0 <= k < |cut| ensures c.objs[cut[k]].idx != c.objs[c.lru[p]].idx && last(c.objs[cut[k]].idx) < n {
      var q := if k < p then k else k + 1;
      assert cut[k] == c.lru[q];
      ListedApart(c, q, p);
    }
    RecentSame(c.objs, objs, cut, last, now);
    RecentFront(objs, cut, now, c.lru[p]);
    assert Fronted(c.lru, p) == [c.lru[p]] + cut;
  }

  lemma {:induction false} MissRecent(c: Cache, idx: nat, t: nat, last: nat -> int, now: nat -> int, n: int)
    requires ListedIsReady(c.objs, c.segs, c.lru) && idx !in c.segs
    requires Recent(c.objs, c.lru, last) && UsedNow(last, now, n, idx)
    ensures Recent(Claim(c, idx, t).objs, c.lru, now)
  {
    NotListedRecent(c, idx, last, now, n);
    RecentSame(c.objs, Claim(c, idx, t).objs, c.lru, now, now);
  }

  /** With the bytes that arrive in front, the old list is still in order. */
  lemma {:induction false} ListRecent(c: Cache, id: nat, last: nat -> int, now: nat -> int, n: int)
    requires ListedIsReady(c.objs, c.segs, c.lru) && Mapped(c.objs, c.segs, id) && !c.objs[id].listed
    requires Recent(c.objs, c.lru, last) && AllBefore(last, n) && UsedNow(last, now, n, c.objs[id].idx)
    ensures Recent(List(c, id).objs, [id] + c.lru, now)
  {
    var l := List(c, id);
    forall k | 0 <= k < |c.lru| ensures c.objs[c.lru[k]].idx != c.objs[id].idx {
      assert Mapped(c.objs, c.segs, c.lru[k]) && c.objs[c.lru[k]].listed;
    }
    RecentSame(c.objs, l.objs, c.lru, last, now);
    RecentFront(l.objs, c.lru, now, id);
  }

  lemma {:induction false} PublishedPrefix(c: Cache, id: nat, max: int)
    requires id < |c.objs| && c.objs[id].content.Ready? && IdsInRange(c.objs, c.lru)
    ensures var r := Publish(c, id, max);
            r.objs == List(c, id).objs && r.lru <= [id] + c.lru && SameIndices(c.objs, r.objs)
  {
    EvictStopsInTime(List(c, id), max);
  }

  /** The segments of the file that the objects stand for are what they were. */
  ghost predicate SameIndices(a: seq<Segment>, b: seq<Segment>) {
    |a| <= |b| && forall k :: 0 <= k < |a| ==> b[k].idx == a[k].idx
  }

  /** A step that neither asks for a segment nor brings one leaves the list alone, and of
      the map it takes at most an entry that is not in the list. */
  ghost predicate ListLeft(c: Cache, r: Cache) {
    && SameIndices(c.objs, r.objs) && r.lru == c.lru
    && (forall i :: i in c.segs && c.segs[i] < |c.objs| && c.objs[c.segs[i]].listed ==> i in r.segs)
  }

  lemma {:induction false} OtherStep(cfg: Config, s: Sys, t: nat, ok: bool)
    requires Inv(cfg, s) && Enabled(s, t) && !s.threads[t].pc.AtGet? && !Arrives(s, Go(t, ok))
    ensures ListLeft(s.cache, Run(cfg, s, t, ok).cache)
  {
    assert ThreadOk(cfg, s.cache, t, s.threads[t]);
  }

  lemma {:induction false} GetStep(cfg: Config, s: Sys, t: nat, ok: bool)
    requires Inv(cfg, s) && Enabled(s, t) && s.threads[t].pc.AtGet?
    ensures var c, idx := s.cache, s.threads[t].pc.idx;
            && (idx in c.segs ==> c.segs[idx] < |c.objs| && Run(cfg, s, t, ok).cache == Touch(c, idx))
            && (idx !in c.segs ==> Run(cfg, s, t, ok).cache == Claim(c, idx, t))
  {
    assert ThreadOk(cfg, s.cache, t, s.threads[t]);
  }

  lemma {:induction false} ArriveStep(cfg: Config, s: Sys, t: nat, ok: bool)
    requires Inv(cfg, s) && Enabled(s, t) && Arrives(s, Go(t, ok))
    ensures var c, id := s.cache, s.threads[t].pc.id;
            && Mapped(c.objs, c.segs, id) && !c.objs[id].listed && c.objs[id].content.Ready?
            && Run(cfg, s, t, ok).cache == Publish(c, id, cfg.max)
  {
    assert ThreadOk(cfg, s.cache, t, s.threads[t]);
  }

  /** `now` is `last` after the event, which is the `n`th. */
  ghost predicate Ticks(s: Sys, e: Event, last: nat -> int, now: nat -> int, n: int) {
    forall i: nat :: now(i) == if Uses(s, e, i) then n else last(i)
  }

  /** The list is in the order of the last uses, all of which were before `n`. */
  ghost predicate InOrder(c: Cache, last: nat -> int, n: int) {
    Recent(c.objs, c.lru, last) && AllBefore(last, n)
  }

  lemma {:induction false} OrderAfterGet(cfg: Config, s: Sys, e: Event, last: nat -> int, now: nat -> int, n: int)
    requires Inv(cfg, s) && e.Go? && Enabled(s, e.t) && s.threads[e.t].pc.AtGet?
    requires InOrder(s.cache, last, n) && Ticks(s, e, last, now, n)
    ensures var r := Next(cfg, s, e).cache;
            Recent(r.objs, r.lru, now)
  {
    var c, idx := s.cache, s.threads[e.t].pc.idx;
    assert UsedNow(last, now, n, idx);
    GetStep(cfg, s, e.t, e.ok);
    if idx in c.segs {
      HitRecent(cfg.File(), cfg.max, c, idx, last, now, n);
    } else {
      MissRecent(c, idx, e.t, last, now, n);
    }
  }

  lemma {:induction false} OrderAfterArrival(cfg: Config, s: Sys, e: Event, last: nat -> int, now: nat -> int, n: int)
    requires Inv(cfg, s) && Arrives(s, e) && InOrder(s.cache, last, n) && Ticks(s, e, last, now, n)
    ensures var c, r := s.cache, Next(cfg, s, e).cache;
            var all := [s.threads[e.t].pc.id] + c.lru;
            && Recent(r.objs, r.lru, now)
            && r.lru <= all && Recent(r.objs, all, now) && SameIndices(c.objs, r.objs)
  {
    var c, id := s.cache, s.threads[e.t].pc.id;
    assert UsedNow(last, now, n, c.objs[id].idx);
    ArriveStep(cfg, s, e.t, e.ok);
    ListRecent(c, id, last, now, n);
    PublishedPrefix(c, id, cfg.max);
  }

  lemma {:induction false} OrderAfterOther(cfg: Config, s: Sys, e: Event, last: nat -> int, now: nat -> int, n: int)
    requires Inv(cfg, s) && !Arrives(s, e) && !(e.Go? && Enabled(s, e.t) && s.threads[e.t].pc.AtGet?)
    requires InOrder(s.cache, last, n) && Ticks(s, e, last, now, n)
    ensures var r := Next(cfg, s, e).cache;
            Recent(r.objs, r.lru, now)
  {
    OtherLeft(cfg, s, e);
    RecentSame(s.cache.objs, Next(cfg, s, e).cache.objs, s.cache.lru, last, now);
  }

  lemma {:induction false} OtherLeft(cfg: Config, s: Sys, e: Event)
    requires Inv(cfg, s) && !Arrives(s, e) && !(e.Go? && Enabled(s, e.t) && s.threads[e.t].pc.AtGet?)
    ensures ListLeft(s.cache, Next(cfg, s, e).cache)
  {
    if e.Go? && Enabled(s, e.t) {
      OtherStep(cfg, s, e.t, e.ok);
    }
  }

  lemma {:induction false} OrderStep(cfg: Config, s: Sys, e: Event, last: nat -> int, now: nat -> int, n: int)
    requires Inv(cfg, s) && InOrder(s.cache, last, n) && Ticks(s, e, last, now, n)
    ensures InOrder(Next(cfg, s, e).cache, now, n + 1)
  {
    if Arrives(s, e) {
      OrderAfterArrival(cfg, s, e, last, now, n);
    } else if e.Go? && Enabled(s, e.t) && s.threads[e.t].pc.AtGet? {
      OrderAfterGet(cfg, s, e, last, now, n);
    } else {
      OrderAfterOther(cfg, s, e, last, now, n);
    }
  }

  lemma {:induction false} LastTicks(cfg: Config, events: seq<Event>, k: nat)
    requires cfg.Valid() && k < |events|
    ensures Ticks(At(cfg, events, k), events[k], Last(cfg, events, k), Last(cfg, events, k + 1), k)
  {
  }

  ghost predicate OrderedAt(cfg: Config, events: seq<Event>, k: nat) {
    cfg.Valid() && k <= |events| && InOrder(At(cfg, events, k).cache, Last(cfg, events, k), k)
  }

  lemma {:induction false} StartInOrder(cfg: Config, events: seq<Event>)
    requires cfg.Valid()
    ensures OrderedAt(cfg, events, 0)
  {
    assert At(cfg, events, 0) == IDLE;
  }

  lemma {:induction false} NextInOrder(cfg: Config, events: seq<Event>, k: nat)
    requires k < |events| && OrderedAt(cfg, events, k)
    ensures OrderedAt(cfg, events, k + 1)
  {
    LastTicks(cfg, events, k);
    OrderStep(cfg, At(cfg, events, k), events[k], Last(cfg, events, k), Last(cfg, events, k + 1), k);
  }

  lemma {:induction false} AlwaysInOrder(cfg: Config, events: seq<Event>, k: nat)
    requires cfg.Valid() && k <= |events|
    ensures OrderedAt(cfg, events, k)
  {
    StartInOrder(cfg, events);
    for i := 0 to k
      invariant OrderedAt(cfg, events, i)
    {
      NextInOrder(cfg, events, i);
    }
  }

  // ---- what is evicted ----

  /** The cache holds the bytes of segment `i`. */
  ghost predicate Holds(c: Cache, i: nat) {
    i in c.segs && c.segs[i] < |c.objs| && c.objs[c.segs[i]].listed
  }

  /** Only the arrival of a segment takes bytes out of the cache. */
  lemma {:induction false} OnlyArrivalEvicts(cfg: Config, s: Sys, e: Event, d: nat)
    requires Inv(cfg, s) && Holds(s.cache, d) && d !in Next(cfg, s, e).cache.segs
    ensures Arrives(s, e)
  {
    if !Arrives(s, e) {
      if e.Go? && Enabled(s, e.t) && s.threads[e.t].pc.AtGet? {
        GetStep(cfg, s, e.t, e.ok);
        if s.threads[e.t].pc.idx in s.cache.segs {
          TouchMovesToFront(cfg.File(), cfg.max, s.cache, s.threads[e.t].pc.idx);
        }
      } else {
        OtherLeft(cfg, s, e);
      }
    }
  }

  lemma {:induction false} EvictedAt(cfg: Config, s: Sys, e: Event, last: nat -> int, now: nat -> int, n: int,
                                     d: nat, k: nat)
    requires Inv(cfg, s) && InOrder(s.cache, last, n) && Ticks(s, e, last, now, n)
    requires Holds(s.cache, d) && d !in Next(cfg, s, e).cache.segs && Holds(Next(cfg, s, e).cache, k)
    ensures now(d) < now(k)
  {
    OnlyArrivalEvicts(cfg, s, e, d);
    OrderAfterArrival(cfg, s, e, last, now, n);
    DroppedIsBehind(s.cache, Next(cfg, s, e).cache, s.threads[e.t].pc.id, now, d, k);
  }

  /** The LRU law, over every run: of a segment that the cache drops and one that it keeps,
      the dropped one was last used before the other was, where a segment is used when it
      is asked for and when its bytes arrive. */
  lemma {:induction false} EvictedWasUsedLongestAgo(cfg: Config, events: seq<Event>, n: nat, d: nat, k: nat)
    requires cfg.Valid() && n < |events|
    requires Holds(At(cfg, events, n).cache, d) && d !in At(cfg, events, n + 1).cache.segs
    requires Holds(At(cfg, events, n + 1).cache, k)
    ensures LastUse(cfg, events, n + 1, d) < LastUse(cfg, events, n + 1, k)
  {
    AlwaysInOrder(cfg, events, n);
    LastTicks(cfg, events, n);
    EvictedAt(cfg, At(cfg, events, n), events[n], Last(cfg, events, n), Last(cfg, events, n + 1), n, d, k);
  }

  lemma {:induction false} DroppedIsBehind(c: Cache, r: Cache, id: nat, last: nat -> int, d: nat, k: nat)
    requires MapOk(c.objs, c.segs) && ReadyIsListed(c.objs, c.segs, c.lru)
    requires MapOk(r.objs, r.segs) && ReadyIsListed(r.objs, r.segs, r.lru) && ListedIsReady(r.objs, r.segs, r.lru)
    requires r.lru <= [id] + c.lru && Recent(r.objs, [id] + c.lru, last) && SameIndices(c.objs, r.objs)
    requires Holds(c, d) && d !in r.segs && Holds(r, k)
    ensures last(d) < last(k)
  {
    var all := [id] + c.lru;
    assert c.segs[d] in c.lru && r.segs[k] in r.lru;
    var i :| 0 <= i < |c.lru| && c.lru[i] == c.segs[d];
    var j :| 0 <= j < |r.lru| && r.lru[j] == r.segs[k];
    assert all[i + 1] == c.segs[d] && all[j] == r.segs[k];
    assert r.objs[all[i + 1]].idx == d && r.objs[all[j]].idx == k;
    assert forall p :: 0 <= p < |r.lru| ==> Mapped(r.objs, r.segs, r.lru[p]) && r.lru[p] == all[p];
  }

  // ---- by the times a segment was asked for ----

  lemma {:induction false} LastIsNotBefore(last: seq<int>, used: seq<bool>, i: nat)
    requires i < |used| == |last| - 1 && used[i]
    requires forall j :: 0 <= j < |used| ==> last[j + 1] == if used[j] then j else last[j]
    ensures last[|used|] >= i
  {
    for j := i + 1 to |used|
      invariant last[j] >= i
    {
    }
  }

  ghost function LastUses(cfg: Config, events: seq<Event>, n: nat, idx: nat): (r: seq<int>)
    requires cfg.Valid() && n <= |events|
    ensures |r| == n + 1
    ensures forall j :: 0 <= j <= n ==> r[j] == LastUse(cfg, events, j, idx)
  {
    seq(n + 1, j requires 0 <= j <= n => LastUse(cfg, events, j, idx))
  }

  ghost function Used(cfg: Config, events: seq<Event>, n: nat, idx: nat): (r: seq<bool>)
    requires cfg.Valid() && n <= |events|
    ensures |r| == n
    ensures forall j :: 0 <= j < n ==> r[j] == Uses(At(cfg, events, j), events[j], idx)
  {
    seq(n, j requires 0 <= j < n => Uses(At(cfg, events, j), events[j], idx))
  }

  lemma {:induction false} LastUseNext(cfg: Config, events: seq<Event>, j: nat, idx: nat)
    requires cfg.Valid() && j < |events|
    ensures LastUse(cfg, events, j + 1, idx) ==
            if Uses(At(cfg, events, j), events[j], idx) then j else LastUse(cfg, events, j, idx)
  {
  }

  lemma {:induction false} UsedStep(cfg: Config, events: seq<Event>, n: nat, idx: nat, j: nat)
    requires cfg.Valid() && j < n <= |events|
    ensures LastUses(cfg, events, n, idx)[j + 1] ==
            if Used(cfg, events, n, idx)[j] then j else LastUses(cfg, events, n, idx)[j]
  {
    LastUseNext(cfg, events, j, idx);
  }

  lemma {:induction false} UsedAt(cfg: Config, events: seq<Event>, n: nat, idx: nat, i: nat)
    requires cfg.Valid() && i < n <= |events| && Used(cfg, events, n, idx)[i]
    ensures LastUses(cfg, events, n, idx)[n] >= i
  {
    var last, used := LastUses(cfg, events, n, idx), Used(cfg, events, n, idx);
    forall j | 0 <= j < n ensures last[j + 1] == if used[j] then j else last[j] {
      UsedStep(cfg, events, n, idx, j);
    }
    LastIsNotBefore(last, used, i);
  }

  lemma {:induction false} LastIsAUse(last: seq<int>, used: seq<bool>)
    requires |used| == |last| - 1 && last[0] == -1
    requires forall j :: 0 <= j < |used| ==> last[j + 1] == if used[j] then j else last[j]
    ensures -1 <= last[|used|] < |used| && (last[|used|] >= 0 ==> used[last[|used|]])
  {
    for j := 0 to |used|
      invariant -1 <= last[j] < j && (last[j] >= 0 ==> used[last[j]])
    {
    }
  }

  lemma {:induction false} UsedThen(cfg: Config, events: seq<Event>, n: nat, idx: nat)
    requires cfg.Valid() && n <= |events| && LastUses(cfg, events, n, idx)[n] >= 0
    ensures LastUses(cfg, events, n, idx)[n] < n && Used(cfg, events, n, idx)[LastUses(cfg, events, n, idx)[n]]
  {
    var last, used := LastUses(cfg, events, n, idx), Used(cfg, events, n, idx);
    forall j | 0 <= j < n ensures last[j + 1] == if used[j] then j else last[j] {
      UsedStep(cfg, events, n, idx, j);
    }
    LastIsAUse(last, used);
  }

  lemma {:induction false} AskIsUse(cfg: Config, events: seq<Event>, n: nat, d: nat, i: nat)
    requires cfg.Valid() && i <= n < |events| && Asks(At(cfg, events, i), events[i], d)
    ensures LastUse(cfg, events, n + 1, d) >= i
  {
    UsedAt(cfg, events, n + 1, d, i);
  }

  ghost predicate UsedSince(cfg: Config, events: seq<Event>, n: nat, k: nat, i: int)
    requires cfg.Valid() && n < |events|
  {
    exists j :: i < j && 0 <= j <= n && Uses(At(cfg, events, j), events[j], k)
  }

  lemma {:induction false} LastIsSince(cfg: Config, events: seq<Event>, n: nat, k: nat, i: int)
    requires cfg.Valid() && n < |events| && i < LastUse(cfg, events, n + 1, k) && -1 <= i
    ensures UsedSince(cfg, events, n, k, i)
  {
    UsedThen(cfg, events, n + 1, k);
  }

  lemma {:induction false} SinceBefore(cfg: Config, events: seq<Event>, n: nat, k: nat, i: int, last: int)
    requires cfg.Valid() && n < |events| && i <= last && UsedSince(cfg, events, n, k, last)
    ensures UsedSince(cfg, events, n, k, i)
  {
  }

  /** Since the dropped segment was last used, the kept one was used. */
  lemma {:induction false} KeptSinceLast(cfg: Config, events: seq<Event>, n: nat, d: nat, k: nat)
    requires cfg.Valid() && n < |events|
    requires Holds(At(cfg, events, n).cache, d) && d !in At(cfg, events, n + 1).cache.segs
    requires Holds(At(cfg, events, n + 1).cache, k)
    ensures UsedSince(cfg, events, n, k, LastUse(cfg, events, n + 1, d))
  {
    EvictedWasUsedLongestAgo(cfg, events, n, d, k);
    LastIsSince(cfg, events, n, k, LastUse(cfg, events, n + 1, d));
  }

  /** The same law by the times of asking: since any time the dropped segment was asked for,
      the kept one was asked for or its bytes arrived. */
  lemma {:induction false} KeptWasUsedSince(cfg: Config, events: seq<Event>, n: nat, d: nat, k: nat, i: nat)
    requires cfg.Valid() && i <= n < |events| && Asks(At(cfg, events, i), events[i], d)
    requires Holds(At(cfg, events, n).cache, d) && d !in At(cfg, events, n + 1).cache.segs
    requires Holds(At(cfg, events, n + 1).cache, k)
    ensures UsedSince(cfg, events, n, k, i)
  {
    KeptSinceLast(cfg, events, n, d, k);
    AskIsUse(cfg, events, n, d, i);
    SinceBefore(cfg, events, n, k, i, LastUse(cfg, events, n + 1, d));
  }
}
