/** What holds over every run of a COS disk: reads return the file's bytes, each
  segment is fetched by one goroutine at a time, and every read ends.
 */
module DiskRuns {
  import opened Order
  import opened SegmentCache
  import opened DiskProtocol

  // ---- a step of one goroutine, seen by the others ----

  /** A step of `t` changes only segments that `t` made, except for their last use. */
  ghost predicate SegmentKept(a: Segment, b: Segment, t: nat) {
    && b.idx == a.idx && b.owner == a.owner && (a.done ==> b.done)
    && (a.owner != t ==> b.content == a.content && b.done == a.done && b.listed == a.listed)
  }

  ghost predicate InMapUnlisted(c: Cache, id: nat) {
    Mapped(c.objs, c.segs, id) && !c.objs[id].listed
  }

  ghost predicate Evolves(c: Cache, r: Cache, t: nat) {
    && |c.objs| <= |r.objs|
    && (forall id :: 0 <= id < |c.objs| ==> SegmentKept(c.objs[id], r.objs[id], t))
    && (forall id :: 0 <= id < |c.objs| && c.objs[id].owner != t && InMapUnlisted(c, id) ==> Mapped(r.objs, r.segs, id))
    && (forall id :: |c.objs| <= id < |r.objs| ==> r.objs[id].owner == t)
    && (forall i :: i in r.segs ==> r.segs[i] >= |c.objs| || (i in c.segs && c.segs[i] == r.segs[i]))
  }

  lemma {:induction false} OtherOk(cfg: Config, c: Cache, r: Cache, t: nat, u: nat, th: Thread)
    requires cfg.Valid() && Evolves(c, r, t) && ThreadOk(cfg, c, u, th) && u != t
    ensures ThreadOk(cfg, r, u, th)
  {
    if th.pc.AtFetch? || th.pc.AtPublish? || th.pc.AtClose? || th.pc.AtWait? || th.pc.AtGot? {
      assert SegmentKept(c.objs[th.pc.id], r.objs[th.pc.id], t);
      assert th.pc.AtFetch? || th.pc.AtPublish? ==> InMapUnlisted(c, th.pc.id);
    }
  }

  /** What the segments made by `t` say about where `t` is. */
  ghost predicate OwnSegments(c: Cache, t: nat, pc: Pc) {
    && (forall id :: 0 <= id < |c.objs| && c.objs[id].owner == t && !c.objs[id].done ==> OnSegment(pc, id))
    && (forall id :: 0 <= id < |c.objs| && c.objs[id].owner == t && InMapUnlisted(c, id) ==>
          !c.objs[id].done && (pc == AtFetch(id) || pc == AtPublish(id)))
  }

  /** The part of the invariant that a step of `t` must re-establish itself. */
  ghost predicate OwnPart(cfg: Config, r: Sys, t: nat)
    requires cfg.Valid()
  {
    && t < |r.threads|
    && ThreadOk(cfg, r.cache, t, r.threads[t])
    && OwnSegments(r.cache, t, r.threads[t].pc)
  }

  /** `r` has the goroutines of `s`, with `t` moved and perhaps one background fetch more. */
  ghost predicate OthersSame(cfg: Config, s: Sys, r: Sys, t: nat) {
    && cfg.Valid()
    && |s.threads| <= |r.threads|
    && (forall u :: 0 <= u < |s.threads| && u != t ==> r.threads[u] == s.threads[u])
    && (forall u :: |s.threads| <= u < |r.threads| && u != t ==> r.threads[u].pc.AtGet?)
    && (forall u :: |s.threads| <= u < |r.threads| && u != t ==> ThreadOk(cfg, r.cache, u, r.threads[u]))
  }

  lemma {:induction false} StepKeeps(cfg: Config, s: Sys, r: Sys, t: nat)
    requires Inv(cfg, s) && OthersSame(cfg, s, r, t) && Evolves(s.cache, r.cache, t) && OwnPart(cfg, r, t)
    requires CacheInv(cfg.File(), cfg.max, r.cache) && r.tokens == Running(r.threads) <= cfg.ahead
    ensures Inv(cfg, r)
  {
    forall u | 0 <= u < |r.threads| ensures ThreadOk(cfg, r.cache, u, r.threads[u]) {
      if u != t && u < |s.threads| {
        OtherOk(cfg, s.cache, r.cache, t, u, s.threads[u]);
      }
    }
    StepKeepsOwned(cfg, s, r, t);
    StepKeepsFlight(cfg, s, r, t);
  }

  lemma {:induction false} StepKeepsOwned(cfg: Config, s: Sys, r: Sys, t: nat)
    requires Owned(s.cache.objs, s.threads) && OthersSame(cfg, s, r, t) && Evolves(s.cache, r.cache, t)
    requires OwnPart(cfg, r, t)
    ensures Owned(r.cache.objs, r.threads)
  {
    forall id | 0 <= id < |r.cache.objs| && !r.cache.objs[id].done
      ensures r.cache.objs[id].owner < |r.threads| && OnSegment(r.threads[r.cache.objs[id].owner].pc, id)
    {
      if r.cache.objs[id].owner != t {
        assert SegmentKept(s.cache.objs[id], r.cache.objs[id], t);
      }
    }
  }

  lemma {:induction false} StepKeepsFlight(cfg: Config, s: Sys, r: Sys, t: nat)
    requires InFlight(s.cache, s.threads) && OthersSame(cfg, s, r, t) && Evolves(s.cache, r.cache, t)
    requires OwnPart(cfg, r, t)
    requires MapOk(r.cache.objs, r.cache.segs)
    ensures InFlight(r.cache, r.threads)
  {
    forall i | i in r.cache.segs && r.cache.segs[i] < |r.cache.objs| && !r.cache.objs[r.cache.segs[i]].listed
      ensures var x := r.cache.objs[r.cache.segs[i]];
              && !x.done && x.owner < |r.threads|
              && (|| r.threads[x.owner].pc == AtFetch(r.cache.segs[i])
                  || r.threads[x.owner].pc == AtPublish(r.cache.segs[i]))
    {
      if r.cache.objs[r.cache.segs[i]].owner != t {
        assert SegmentKept(s.cache.objs[r.cache.segs[i]], r.cache.objs[r.cache.segs[i]], t);
      } else {
        assert InMapUnlisted(r.cache, r.cache.segs[i]);
      }
    }
  }

  predicate OffSegment(pc: Pc) {
    pc.AheadLook? || pc.AheadTake? || pc.AtGet? || pc.AtWait? || pc.AtGot? || pc.Ended?
  }

  /** A goroutine that is on no segment owns no open one. */
  lemma {:induction false} IdleOwnsNothing(s: Sys, t: nat)
    requires Owned(s.cache.objs, s.threads) && InFlight(s.cache, s.threads) && t < |s.threads|
    requires OffSegment(s.threads[t].pc)
    ensures forall pc :: OffSegment(pc) ==> OwnSegments(s.cache, t, pc)
    ensures OwnsNothing(s.cache, t)
  {
    forall id | 0 <= id < |s.cache.objs| && s.cache.objs[id].owner == t
      ensures s.cache.objs[id].done && !InMapUnlisted(s.cache, id)
    {
      assert !OnSegment(s.threads[t].pc, id);
    }
  }

  ghost predicate OwnsNothing(c: Cache, t: nat) {
    forall id :: 0 <= id < |c.objs| && c.objs[id].owner == t ==> c.objs[id].done && !InMapUnlisted(c, id)
  }

  // ---- each step keeps the invariant ----

  /** Steps that leave the cache alone. */
  lemma {:induction false} QuietStep(cfg: Config, s: Sys, t: nat, th: Thread, tokens: nat)
    requires Inv(cfg, s) && t < |s.threads| && OffSegment(s.threads[t].pc) && OffSegment(th.pc)
    requires ThreadOk(cfg, s.cache, t, th)
    requires tokens + B(s.threads[t]) == s.tokens + B(th) && tokens <= cfg.ahead
    ensures Inv(cfg, s.(threads := s.threads[t := th], tokens := tokens))
  {
    var r := s.(threads := s.threads[t := th], tokens := tokens);
    IdleOwnsNothing(s, t);
    RunningUpdate(s.threads, t, th);
    assert Evolves(s.cache, r.cache, t) by {
      assert forall id :: 0 <= id < |s.cache.objs| ==> SegmentKept(s.cache.objs[id], r.cache.objs[id], t);
    }
    StepKeeps(cfg, s, r, t);
  }

  lemma {:induction false} AdvanceOk(cfg: Config, c: Cache, t: nat, th: Thread)
    requires cfg.Valid() && th.task.Read? && Partial(cfg, th)
    ensures ThreadOk(cfg, c, t, Advance(cfg, th))
    ensures !Background(Advance(cfg, th))
  {
    var n := cfg.Clip(th.task.off, th.task.want);
    if |th.buf| < n {
      PieceHolds(cfg.src, cfg.seg, th.task.off + |th.buf|);
    }
  }

  lemma {:induction false} AheadStep(cfg: Config, s: Sys, t: nat, ok: bool)
    requires Inv(cfg, s) && Enabled(s, t)
    requires s.threads[t].pc.AheadLook? || (s.threads[t].pc.AheadTake? && s.tokens == cfg.ahead)
    ensures Inv(cfg, Run(cfg, s, t, ok))
  {
    var th := s.threads[t];
    assert ThreadOk(cfg, s.cache, t, th);
    AdvanceOk(cfg, s.cache, t, th);
    FetchReadsPiece(cfg.src, cfg.seg, th.pc.j);
    var r := Run(cfg, s, t, ok);
    QuietStep(cfg, s, t, r.threads[t], s.tokens);
  }

  lemma {:induction false} SpawnStep(cfg: Config, s: Sys, t: nat, ok: bool)
    requires Inv(cfg, s) && Enabled(s, t) && s.threads[t].pc.AheadTake? && s.tokens < cfg.ahead
    ensures Inv(cfg, Run(cfg, s, t, ok))
  {
    var m, j := Looked(s, t), s.threads[t].pc.j;
    LookedKeeps(cfg, s, t);
    PrefetchOk(cfg, s.cache, t, s.threads[t], |m.threads|);
    AddThread(cfg, m, Thread(Prefetch(j), AtGet(j), []), s.tokens + 1);
    assert Run(cfg, s, t, ok) == m.(threads := m.threads + [Thread(Prefetch(j), AtGet(j), [])], tokens := s.tokens + 1);
  }

  /** The reader has dealt with one segment ahead and looks at the next. */
  function Looked(s: Sys, t: nat): (r: Sys)
    requires t < |s.threads| && s.threads[t].pc.AheadTake?
  {
    s.(threads := s.threads[t := s.threads[t].(pc := AheadLook(s.threads[t].pc.j + 1))], tokens := s.tokens)
  }

  lemma {:induction false} LookedKeeps(cfg: Config, s: Sys, t: nat)
    requires Inv(cfg, s) && t < |s.threads| && s.threads[t].pc.AheadTake?
    ensures Inv(cfg, Looked(s, t)) && Looked(s, t).cache == s.cache && Looked(s, t).tokens == s.tokens
    ensures ThreadOk(cfg, s.cache, t, s.threads[t])
  {
    assert ThreadOk(cfg, s.cache, t, s.threads[t]);
    LookedOk(cfg, s.cache, t, s.threads[t]);
    QuietStep(cfg, s, t, s.threads[t].(pc := AheadLook(s.threads[t].pc.j + 1)), s.tokens);
  }

  lemma {:induction false} LookedOk(cfg: Config, c: Cache, t: nat, th: Thread)
    requires cfg.Valid() && ThreadOk(cfg, c, t, th) && th.pc.AheadTake?
    ensures var next := th.(pc := AheadLook(th.pc.j + 1));
            ThreadOk(cfg, c, t, next) && B(next) == B(th)
  {
  }

  lemma {:induction false} PrefetchOk(cfg: Config, c: Cache, t: nat, th: Thread, u: nat)
    requires cfg.Valid() && ThreadOk(cfg, c, t, th) && th.pc.AheadTake?
    ensures ThreadOk(cfg, c, u, Thread(Prefetch(th.pc.j), AtGet(th.pc.j), []))
  {
  }

  /** A goroutine that starts outside `get` disturbs nothing. */
  lemma {:induction false} AddThread(cfg: Config, s: Sys, th: Thread, tokens: nat)
    requires Inv(cfg, s) && ThreadOk(cfg, s.cache, |s.threads|, th)
    requires OffSegment(th.pc)
    requires tokens == s.tokens + B(th) <= cfg.ahead
    ensures Inv(cfg, s.(threads := s.threads + [th], tokens := tokens))
  {
    var r := s.(threads := s.threads + [th], tokens := tokens);
    RunningAppend(s.threads, th);
    assert AllOk(cfg, r.cache, r.threads);
    assert InFlight(r.cache, r.threads);
  }

  /** Steps of a critical section that change the cache. */
  lemma {:induction false} CacheStep(cfg: Config, s: Sys, t: nat, c: Cache, th: Thread)
    requires Inv(cfg, s) && t < |s.threads| && B(th) == B(s.threads[t])
    requires CacheInv(cfg.File(), cfg.max, c) && Evolves(s.cache, c, t)
    requires ThreadOk(cfg, c, t, th) && OwnSegments(c, t, th.pc)
    ensures Inv(cfg, s.(cache := c, threads := s.threads[t := th]))
  {
    RunningUpdate(s.threads, t, th);
    StepKeeps(cfg, s, s.(cache := c, threads := s.threads[t := th]), t);
  }

  lemma {:induction false} HitStep(cfg: Config, s: Sys, t: nat, ok: bool)
    requires Inv(cfg, s) && Enabled(s, t) && s.threads[t].pc.AtGet? && s.threads[t].pc.idx in s.cache.segs
    ensures Inv(cfg, Run(cfg, s, t, ok))
  {
    var th, c := s.threads[t], s.cache;
    assert ThreadOk(cfg, c, t, th);
    TouchKeeps(cfg.File(), cfg.max, c, th.pc.idx);
    IdleOwnsNothing(s, t);
    HitOk(cfg, c, t, th);
    CacheStep(cfg, s, t, Touch(c, th.pc.idx), th.(pc := AtWait(c.segs[th.pc.idx])));
  }

  /** A goroutine that waits for a segment it found keeps its part of the invariant. */
  lemma {:induction false} HitOk(cfg: Config, c: Cache, t: nat, th: Thread)
    requires cfg.Valid() && MapOk(c.objs, c.segs) && OwnsNothing(c, t) && ThreadOk(cfg, c, t, th)
    requires th.pc.AtGet? && th.pc.idx in c.segs
    ensures var r, w := Touch(c, th.pc.idx), th.(pc := AtWait(c.segs[th.pc.idx]));
            Evolves(c, r, t) && ThreadOk(cfg, r, t, w) && OwnSegments(r, t, w.pc)
  {
    TouchEvolves(c, th.pc.idx, t);
  }

  lemma {:induction false} TouchEvolves(c: Cache, idx: nat, t: nat)
    requires MapOk(c.objs, c.segs) && idx in c.segs
    ensures Evolves(c, Touch(c, idx), t)
    ensures OwnsNothing(c, t) ==> OwnsNothing(Touch(c, idx), t)
    ensures |Touch(c, idx).objs| == |c.objs| && Touch(c, idx).objs[c.segs[idx]].idx == idx
  {
    var r := Touch(c, idx);
    forall id | 0 <= id < |c.objs| ensures SegmentKept(c.objs[id], r.objs[id], t) {
    }
    if OwnsNothing(c, t) {
      forall id | 0 <= id < |r.objs| && r.objs[id].owner == t ensures r.objs[id].done && !InMapUnlisted(r, id) {
        assert c.objs[id].done && !InMapUnlisted(c, id);
      }
    }
  }

  lemma {:induction false} MissStep(cfg: Config, s: Sys, t: nat, ok: bool)
    requires Inv(cfg, s) && Enabled(s, t) && s.threads[t].pc.AtGet? && s.threads[t].pc.idx !in s.cache.segs
    ensures Inv(cfg, Run(cfg, s, t, ok))
  {
    var th, c := s.threads[t], s.cache;
    var idx := th.pc.idx;
    assert ThreadOk(cfg, c, t, th);
    ClaimKeeps(cfg.File(), cfg.max, c, idx, t);
    IdleOwnsNothing(s, t);
    MissOk(cfg, c, t, th);
    CacheStep(cfg, s, t, Claim(c, idx, t), th.(pc := AtFetch(|c.objs|)));
  }

  /** A goroutine that claims a segment to fetch keeps its part of the invariant. */
  lemma {:induction false} MissOk(cfg: Config, c: Cache, t: nat, th: Thread)
    requires cfg.Valid() && MapOk(c.objs, c.segs) && OwnsNothing(c, t) && ThreadOk(cfg, c, t, th)
    requires th.pc.AtGet? && th.pc.idx !in c.segs
    ensures var r, f := Claim(c, th.pc.idx, t), th.(pc := AtFetch(|c.objs|));
            Evolves(c, r, t) && ThreadOk(cfg, r, t, f) && OwnSegments(r, t, f.pc)
  {
    ClaimEvolves(c, th.pc.idx, t);
  }

  lemma {:induction false} ClaimEvolves(c: Cache, idx: nat, t: nat)
    requires MapOk(c.objs, c.segs) && idx !in c.segs && OwnsNothing(c, t)
    ensures Evolves(c, Claim(c, idx, t), t)
    ensures OwnSegments(Claim(c, idx, t), t, AtFetch(|c.objs|))
  {
    var r := Claim(c, idx, t);
    assert forall id :: 0 <= id < |c.objs| ==> r.objs[id] == c.objs[id];
    forall id | 0 <= id < |c.objs| ensures InMapUnlisted(r, id) <==> InMapUnlisted(c, id) {
    }
  }

  /** Steps on a segment that the goroutine made. */
  lemma {:induction false} OwnStep(cfg: Config, s: Sys, t: nat, id: nat, c: Cache, pc: Pc)
    requires Inv(cfg, s) && t < |s.threads| && OnSegment(s.threads[t].pc, id) && !pc.Ended?
    requires CacheInv(cfg.File(), cfg.max, c) && ThreadOk(cfg, c, t, s.threads[t].(pc := pc))
    requires OnlyChanges(s.cache, c, t, id)
    requires !c.objs[id].done ==> OnSegment(pc, id)
    requires InMapUnlisted(c, id) ==> !c.objs[id].done && (pc == AtFetch(id) || pc == AtPublish(id))
    ensures Inv(cfg, s.(cache := c, threads := s.threads[t := s.threads[t].(pc := pc)]))
  {
    assert ThreadOk(cfg, s.cache, t, s.threads[t]);
    OwnStepEvolves(s.cache, c, t, id);
    OwnStepOwns(s.cache, c, t, id, s.threads, pc);
    CacheStep(cfg, s, t, c, s.threads[t].(pc := pc));
  }

  /** Only segment `id`, which `t` made, differs; other segments in flight stay in the map. */
  ghost predicate OnlyChanges(c: Cache, r: Cache, t: nat, id: nat) {
    && id < |c.objs| == |r.objs|
    && SegmentKept(c.objs[id], r.objs[id], t)
    && (forall k :: 0 <= k < |c.objs| && k != id ==> r.objs[k] == c.objs[k])
    && FlightKept(c, r, id)
  }

  lemma {:induction false} OwnStepEvolves(c: Cache, r: Cache, t: nat, id: nat)
    requires OnlyChanges(c, r, t, id) && c.objs[id].owner == t
    ensures Evolves(c, r, t)
  {
    forall k | 0 <= k < |c.objs| && c.objs[k].owner != t && InMapUnlisted(c, k)
      ensures Mapped(r.objs, r.segs, k)
    {
      assert c.segs[c.objs[k].idx] == k;
    }
  }

  lemma {:induction false} OwnStepOwns(c: Cache, r: Cache, t: nat, id: nat, threads: seq<Thread>, pc: Pc)
    requires OnlyChanges(c, r, t, id) && Owned(c.objs, threads) && InFlight(c, threads)
    requires t < |threads| && OnSegment(threads[t].pc, id)
    requires !r.objs[id].done ==> OnSegment(pc, id)
    requires InMapUnlisted(r, id) ==> !r.objs[id].done && (pc == AtFetch(id) || pc == AtPublish(id))
    ensures OwnSegments(r, t, pc)
  {
    forall k | 0 <= k < |r.objs| && r.objs[k].owner == t && k != id
      ensures r.objs[k].done && !InMapUnlisted(r, k)
    {
      assert !OnSegment(threads[t].pc, k);
      assert !InMapUnlisted(c, k);
    }
  }

  /** What a fetch leaves: the segment's bytes, or its error. */
  function Fetched(cfg: Config, idx: nat, ok: bool): (content: Content)
    requires cfg.Valid() && idx * cfg.seg < |cfg.src|
  {
    if ok then Ready(FetchBytes(cfg, idx)) else Failed
  }

  lemma {:induction false} FetchedOk(cfg: Config, c: Cache, t: nat, th: Thread, ok: bool)
    requires cfg.Valid() && CacheInv(cfg.File(), cfg.max, c) && th.pc.AtFetch? && ThreadOk(cfg, c, t, th)
    ensures var id := th.pc.id;
            && c.objs[id].idx * cfg.seg < |cfg.src|
            && var r := Store(c, id, Fetched(cfg, c.objs[id].idx, ok));
               && CacheInv(cfg.File(), cfg.max, r) && OnlyChanges(c, r, t, id)
               && ThreadOk(cfg, r, t, th.(pc := AtPublish(id)))
  {
    var id := th.pc.id;
    FetchReadsPiece(cfg.src, cfg.seg, c.objs[id].idx);
    assert FetchBytes(cfg, c.objs[id].idx) == FetchBytes(Config(cfg.src, cfg.seg, 1, 0), c.objs[id].idx);
    StoreKeeps(cfg.File(), cfg.max, c, id, Fetched(cfg, c.objs[id].idx, ok));
  }

  lemma {:induction false} FetchStep(cfg: Config, s: Sys, t: nat, ok: bool)
    requires Inv(cfg, s) && Enabled(s, t) && s.threads[t].pc.AtFetch?
    ensures Inv(cfg, Run(cfg, s, t, ok))
  {
    var c, id := s.cache, s.threads[t].pc.id;
    assert ThreadOk(cfg, c, t, s.threads[t]);
    FetchedOk(cfg, c, t, s.threads[t], ok);
    OwnStep(cfg, s, t, id, Store(c, id, Fetched(cfg, c.objs[id].idx, ok)), AtPublish(id));
  }

  /** What a publication must leave for the goroutine to go on to the close. */
  ghost predicate Published(c: Cache, r: Cache, t: nat, id: nat) {
    && OnlyChanges(c, r, t, id) && !InMapUnlisted(r, id)
    && r.objs[id].content == c.objs[id].content && r.objs[id].done == c.objs[id].done
  }

  lemma {:induction false} PublishedStep(cfg: Config, s: Sys, t: nat, id: nat, r: Cache)
    requires Inv(cfg, s) && t < |s.threads| && s.threads[t].pc == AtPublish(id)
    requires CacheInv(cfg.File(), cfg.max, r) && Published(s.cache, r, t, id)
    ensures Inv(cfg, s.(cache := r, threads := s.threads[t := s.threads[t].(pc := AtClose(id))]))
  {
    assert ThreadOk(cfg, s.cache, t, s.threads[t]);
    OwnStep(cfg, s, t, id, r, AtClose(id));
  }

  lemma {:induction false} PublishStep(cfg: Config, s: Sys, t: nat, ok: bool)
    requires Inv(cfg, s) && Enabled(s, t) && s.threads[t].pc.AtPublish?
    ensures Inv(cfg, Run(cfg, s, t, ok))
  {
    var id := s.threads[t].pc.id;
    assert ThreadOk(cfg, s.cache, t, s.threads[t]);
    PublishChanges(cfg.File(), cfg.max, s.cache, id, t);
    PublishedStep(cfg, s, t, id, Publish(s.cache, id, cfg.max));
  }

  lemma {:induction false} PublishChanges(file: seq<Bytes>, max: int, c: Cache, id: nat, t: nat)
    requires CacheInv(file, max, c) && InMapUnlisted(c, id) && !c.objs[id].content.Pending? && c.objs[id].owner == t
    ensures var r := Publish(c, id, max);
            CacheInv(file, max, r) && Published(c, r, t, id)
  {
    PublishKeeps(file, max, c, id);
    PublishedIs(c, Publish(c, id, max), t, id);
  }

  lemma {:induction false} PublishedIs(c: Cache, r: Cache, t: nat, id: nat)
    requires InMapUnlisted(c, id) && c.objs[id].owner == t && FlightKept(c, r, id)
    requires (r.objs == c.objs && c.objs[id].idx !in r.segs) || r.objs == List(c, id).objs
    ensures Published(c, r, t, id)
  {
  }

  lemma {:induction false} CloseStep(cfg: Config, s: Sys, t: nat, ok: bool)
    requires Inv(cfg, s) && Enabled(s, t) && s.threads[t].pc.AtClose?
    ensures Inv(cfg, Run(cfg, s, t, ok))
  {
    var c, id := s.cache, s.threads[t].pc.id;
    assert ThreadOk(cfg, c, t, s.threads[t]);
    CloseKeeps(cfg.File(), cfg.max, c, id);
    assert !InMapUnlisted(c, id);
    OwnStep(cfg, s, t, id, Close(c, id), AtGot(id));
  }

  lemma {:induction false} WaitStep(cfg: Config, s: Sys, t: nat, ok: bool)
    requires Inv(cfg, s) && Enabled(s, t) && s.threads[t].pc.AtWait?
    ensures Inv(cfg, Run(cfg, s, t, ok))
  {
    assert ThreadOk(cfg, s.cache, t, s.threads[t]);
    QuietStep(cfg, s, t, s.threads[t].(pc := AtGot(s.threads[t].pc.id)), s.tokens);
  }

  /** Each turn of the copy loop copies at least one byte, and the right ones. */
  lemma {:induction false} CopyAdvances(cfg: Config, c: Cache, t: nat, th: Thread, id: nat)
    requires cfg.Valid() && CacheInv(cfg.File(), cfg.max, c) && id < |c.objs| && Wants(cfg, th, c.objs[id].idx)
    requires th.task.Read?
    requires c.objs[id].content == Ready(cfg.File()[c.objs[id].idx])
    ensures |Chunk(cfg, c, th, id)| > 0
    ensures Partial(cfg, th.(buf := th.buf + Chunk(cfg, c, th, id)))
  {
    NextChunkIsRight(cfg.src, cfg.seg, th.task.off, th.buf, cfg.Clip(th.task.off, th.task.want));
  }

  lemma {:induction false} GotStep(cfg: Config, s: Sys, t: nat, ok: bool)
    requires Inv(cfg, s) && Enabled(s, t) && s.threads[t].pc.AtGot?
    ensures Inv(cfg, Run(cfg, s, t, ok))
  {
    var th, c := s.threads[t], s.cache;
    assert ThreadOk(cfg, c, t, th);
    var id := th.pc.id;
    assert SegmentOk(cfg.File(), c.objs[id], c.clock);
    if th.task.Prefetch? {
      RunningAt(s.threads, t);
      QuietStep(cfg, s, t, th.(pc := Ended(Clean)), s.tokens - 1);
    } else if c.objs[id].content.Failed? {
      QuietStep(cfg, s, t, th.(pc := Ended(Fault)), s.tokens);
    } else {
      CopyAdvances(cfg, c, t, th, id);
      var more := th.(buf := th.buf + Chunk(cfg, c, th, id));
      AdvanceOk(cfg, c, t, more);
      QuietStep(cfg, s, t, Advance(cfg, more), s.tokens);
    }
  }

  /** Every atomic step of every goroutine keeps the invariant. */
  lemma {:induction false} RunKeeps(cfg: Config, s: Sys, t: nat, ok: bool)
    requires Inv(cfg, s) && Enabled(s, t)
    ensures Inv(cfg, Run(cfg, s, t, ok))
  {
    match s.threads[t].pc
    case AheadLook(_) => AheadStep(cfg, s, t, ok);
    case AheadTake(_) =>
      if s.tokens < cfg.ahead {
        SpawnStep(cfg, s, t, ok);
      } else {
        AheadStep(cfg, s, t, ok);
      }
    case AtGet(idx) =>
      if idx in s.cache.segs {
        HitStep(cfg, s, t, ok);
      } else {
        MissStep(cfg, s, t, ok);
      }
    case AtFetch(_) => FetchStep(cfg, s, t, ok);
    case AtPublish(_) => PublishStep(cfg, s, t, ok);
    case AtClose(_) => CloseStep(cfg, s, t, ok);
    case AtWait(_) => WaitStep(cfg, s, t, ok);
    case AtGot(_) => GotStep(cfg, s, t, ok);
  }

  lemma {:induction false} StartKeeps(cfg: Config, s: Sys, off: int, want: nat)
    requires Inv(cfg, s)
    ensures Inv(cfg, s.(threads := s.threads + [StartRead(cfg, off, want)]))
  {
    var th := StartRead(cfg, off, want);
    if 0 <= off < |cfg.src| {
      AdvanceOk(cfg, s.cache, |s.threads|, Thread(Read(off, want), Ended(Refused), []));
      assert Partial(cfg, th);
    }
    AddThread(cfg, s, th, s.tokens);
  }

  // ---- runs ----

  /** A new read, or a step of goroutine `t`. A step that is not possible is not taken. */
  datatype Event = Start(off: int, want: nat) | Go(t: nat, ok: bool)

  ghost function Next(cfg: Config, s: Sys, e: Event): (r: Sys)
    requires Inv(cfg, s)
    ensures Inv(cfg, r)
  {
    match e
    case Start(off, want) =>
      StartKeeps(cfg, s, off, want);
      s.(threads := s.threads + [StartRead(cfg, off, want)])
    case Go(t, ok) =>
      if Enabled(s, t) then
        RunKeeps(cfg, s, t, ok);
        Run(cfg, s, t, ok)
      else s
  }

  /** The state after a schedule: any interleaving is one. */
  ghost function After(cfg: Config, s: Sys, events: seq<Event>): (r: Sys)
    requires Inv(cfg, s)
    ensures Inv(cfg, r)
    decreases |events|
  {
    if events == [] then s else After(cfg, Next(cfg, s, events[0]), events[1..])
  }

  lemma {:induction false} IdleInv(cfg: Config)
    requires cfg.Valid()
    ensures Inv(cfg, IDLE)
  {
    EmptyInv(cfg.File(), cfg.max, IDLE.cache);
    NoThreadsInv(cfg, IDLE);
  }

  /** The states a disk can reach. */
  ghost function Reached(cfg: Config, events: seq<Event>): (r: Sys)
    requires cfg.Valid()
    ensures Inv(cfg, r)
  {
    IdleInv(cfg);
    After(cfg, IDLE, events)
  }

  lemma {:induction false} NoThreadsInv(cfg: Config, s: Sys)
    requires cfg.Valid() && CacheInv(cfg.File(), cfg.max, s.cache)
    requires s.threads == [] && s.cache.objs == [] && s.cache.segs == map[] && s.tokens == 0
    ensures Inv(cfg, s)
  {
  }

  /** Under every schedule, a read that has ended returned exactly the file's
      bytes from its offset, up to its length or the end; a clean end means all
      of them, and EOF means the request started at or passed the end. */
  lemma {:induction false} EveryRunReadsTheFile(cfg: Config, events: seq<Event>, t: nat)
    requires cfg.Valid()
    requires t < |Reached(cfg, events).threads|
    ensures var th := Reached(cfg, events).threads[t];
            th.task.Read? && th.pc.Ended? ==> ResultOk(cfg, th.task.off, th.task.want, th.buf, th.pc.outcome)
  {
    EndedReadIsRight(cfg, Reached(cfg, events), t);
  }

  // ---- where a failed read comes from ----

  ghost predicate NoneFailed(objs: seq<Segment>) {
    forall id :: 0 <= id < |objs| ==> !objs[id].content.Failed?
  }

  /** No fetch has failed and no read has ended with a fault. */
  ghost predicate Unfailed(s: Sys) {
    NoneFailed(s.cache.objs) && forall t :: 0 <= t < |s.threads| ==> s.threads[t].pc != Ended(Fault)
  }

  lemma {:induction false} PublishNoneFailed(file: seq<Bytes>, max: int, c: Cache, id: nat)
    requires CacheInv(file, max, c) && InMapUnlisted(c, id) && c.objs[id].content.Ready? && NoneFailed(c.objs)
    ensures NoneFailed(Publish(c, id, max).objs)
  {
    PublishKeeps(file, max, c, id);
    assert NoneFailed(List(c, id).objs);
  }

  /** A step of a goroutine whose fetch works leaves no error in the cache. */
  lemma {:induction false} RunNoneFailed(cfg: Config, s: Sys, t: nat)
    requires Inv(cfg, s) && Enabled(s, t) && NoneFailed(s.cache.objs)
    ensures NoneFailed(Run(cfg, s, t, true).cache.objs)
  {
    assert ThreadOk(cfg, s.cache, t, s.threads[t]);
    if s.threads[t].pc.AtPublish? {
      PublishNoneFailed(cfg.File(), cfg.max, s.cache, s.threads[t].pc.id);
    }
  }

  /** Nor does it end a read with a fault. */
  lemma {:induction false} RunNoFault(cfg: Config, s: Sys, t: nat)
    requires Inv(cfg, s) && Enabled(s, t) && NoneFailed(s.cache.objs)
    ensures Run(cfg, s, t, true).threads[t].pc != Ended(Fault)
  {
    assert ThreadOk(cfg, s.cache, t, s.threads[t]);
  }

  lemma {:induction false} FetchedStaysUnfailed(cfg: Config, s: Sys, t: nat)
    requires Inv(cfg, s) && Enabled(s, t) && Unfailed(s)
    ensures Unfailed(Run(cfg, s, t, true))
  {
    RunNoneFailed(cfg, s, t);
    RunNoFault(cfg, s, t);
    StepShape(cfg, s, t, true);
  }

  /** A read ends with a fault only if a fetch failed: in a run in which every fetch
      works, no read does, and no segment holds an error. */
  lemma {:induction false} NoFaultWithoutAFailedFetch(cfg: Config, s: Sys, events: seq<Event>)
    requires Inv(cfg, s) && Unfailed(s) && forall k :: 0 <= k < |events| && events[k].Go? ==> events[k].ok
    ensures Unfailed(After(cfg, s, events))
    decreases |events|
  {
    if events != [] {
      var e := events[0];
      if e.Go? && Enabled(s, e.t) {
        FetchedStaysUnfailed(cfg, s, e.t);
      }
      NoFaultWithoutAFailedFetch(cfg, Next(cfg, s, e), events[1..]);
    }
  }

  /** A read that has ended has every byte that it can get. */
  ghost predicate HasAllBytes(cfg: Config, th: Thread) {
    th.task.Read? && th.pc.Ended? && 0 <= th.task.off < |cfg.src| ==>
      th.buf == cfg.src[th.task.off..th.task.off + cfg.Clip(th.task.off, th.task.want)]
  }

  lemma {:induction false} UnfailedHasAllBytes(cfg: Config, s: Sys, t: nat)
    requires cfg.Valid() && AllOk(cfg, s.cache, s.threads) && Unfailed(s) && t < |s.threads|
    ensures HasAllBytes(cfg, s.threads[t])
  {
    EndedReadIsRight(cfg, s, t);
  }

  /** So from the start, under every schedule whose fetches work, every read that ends has
      all of its bytes. */
  lemma {:induction false} FetchesWorkReadsEndWell(cfg: Config, events: seq<Event>, t: nat)
    requires cfg.Valid() && t < |Reached(cfg, events).threads|
    requires forall k :: 0 <= k < |events| && events[k].Go? ==> events[k].ok
    ensures HasAllBytes(cfg, Reached(cfg, events).threads[t])
  {
    FetchesWork(cfg, events);
    UnfailedHasAllBytes(cfg, Reached(cfg, events), t);
  }

  lemma {:induction false} FetchesWork(cfg: Config, events: seq<Event>)
    requires cfg.Valid() && forall k :: 0 <= k < |events| && events[k].Go? ==> events[k].ok
    ensures Unfailed(Reached(cfg, events))
  {
    IdleInv(cfg);
    NoFaultWithoutAFailedFetch(cfg, IDLE, events);
  }

  lemma {:induction false} EndedReadIsRight(cfg: Config, s: Sys, t: nat)
    requires cfg.Valid() && AllOk(cfg, s.cache, s.threads) && t < |s.threads|
    ensures var th := s.threads[t];
            th.task.Read? && th.pc.Ended? ==> ResultOk(cfg, th.task.off, th.task.want, th.buf, th.pc.outcome)
  {
    assert ThreadOk(cfg, s.cache, t, s.threads[t]);
  }

  /** Under every schedule, whenever the lock is free: a segment in the map is
      ready, in the list and holds the file's bytes, or it is in flight with one
      goroutine that fetches it; the byte count is what the list holds and at
      most the limit or one segment; no more background fetches run than allowed. */
  lemma {:induction false} EveryRunKeepsTheCache(cfg: Config, events: seq<Event>)
    requires cfg.Valid()
    ensures var s := Reached(cfg, events);
            && (forall i :: i in s.cache.segs ==>
                  && s.cache.segs[i] < |s.cache.objs|
                  && var x := s.cache.objs[s.cache.segs[i]];
                     if x.listed then
                       s.cache.segs[i] in s.cache.lru && i < |cfg.File()| && x.content == Ready(cfg.File()[i])
                     else
                       && s.cache.segs[i] !in s.cache.lru && x.owner < |s.threads|
                       && OnSegment(s.threads[x.owner].pc, s.cache.segs[i]))
            && Distinct(s.cache.lru)
            && IdsInRange(s.cache.objs, s.cache.lru) && s.cache.cached == Held(s.cache.objs, s.cache.lru)
            && (s.cache.cached <= cfg.max || s.cache.cached <= cfg.seg)
            && Running(s.threads) <= cfg.ahead
  {
    var s := Reached(cfg, events);
    ByUseDistinct(s.cache.objs, s.cache.lru);
    PieceLengths(cfg.src, cfg.seg);
    CachedBytesBounded(cfg.File(), cfg.max, cfg.seg, s.cache);
    forall i | i in s.cache.segs
      ensures s.cache.segs[i] < |s.cache.objs| && var x := s.cache.objs[s.cache.segs[i]];
              if x.listed then
                s.cache.segs[i] in s.cache.lru && i < |cfg.File()| && x.content == Ready(cfg.File()[i])
              else
                && s.cache.segs[i] !in s.cache.lru && x.owner < |s.threads|
                && OnSegment(s.threads[x.owner].pc, s.cache.segs[i])
    {
      assert SegmentOk(cfg.File(), s.cache.objs[s.cache.segs[i]], s.cache.clock);
    }
  }

  /** Single flight: two goroutines never fetch the same segment at once. */
  lemma {:induction false} NoSegmentFetchedTwice(cfg: Config, s: Sys, t: nat, u: nat)
    requires Inv(cfg, s) && t < |s.threads| && u < |s.threads| && t != u
    requires s.threads[t].pc.AtFetch? && s.threads[u].pc.AtFetch?
    ensures s.threads[t].pc.id < |s.cache.objs| && s.threads[u].pc.id < |s.cache.objs|
    ensures s.cache.objs[s.threads[t].pc.id].idx != s.cache.objs[s.threads[u].pc.id].idx
  {
    assert ThreadOk(cfg, s.cache, t, s.threads[t]);
    assert ThreadOk(cfg, s.cache, u, s.threads[u]);
  }

  // ---- every read ends ----

  /** No wait is for ever: if a goroutine has not ended, some goroutine can move. */
  lemma {:induction false} NoDeadlock(cfg: Config, s: Sys, t: nat)
    requires Inv(cfg, s) && t < |s.threads| && !s.threads[t].pc.Ended?
    ensures exists u: nat :: Enabled(s, u)
  {
    assert ThreadOk(cfg, s.cache, t, s.threads[t]);
    if Enabled(s, t) {
    } else {
      var x := s.cache.objs[s.threads[t].pc.id];
      assert OnSegment(s.threads[x.owner].pc, s.threads[t].pc.id);
      assert Enabled(s, x.owner);
    }
  }

  function Rank(pc: Pc): nat {
    match pc
    case AtGet(_) => 7
    case AtFetch(_) => 6
    case AtPublish(_) => 5
    case AtClose(_) => 4
    case AtWait(_) => 4
    case AtGot(_) => 3
    case AheadLook(_) => 9
    case AheadTake(_) => 8
    case Ended(_) => 0
  }

  /** How many segments `readAhead` may still look at. */
  function AheadLeft(cfg: Config, th: Thread): (n: nat)
    requires cfg.Valid()
  {
    if th.task.Read? && (th.pc.AheadLook? || th.pc.AheadTake?)
    then var left := th.task.off / cfg.seg + cfg.ahead + 1 - th.pc.j; if left > 0 then left else 0
    else 0
  }

  function BytesLeft(cfg: Config, th: Thread): (n: nat) {
    if th.task.Read? && 0 <= th.task.off < |cfg.src| && |th.buf| <= cfg.Clip(th.task.off, th.task.want)
    then cfg.Clip(th.task.off, th.task.want) - |th.buf|
    else 0
  }

  /** A bound on the steps a goroutine, and those it starts, can still take. */
  function Weight(cfg: Config, th: Thread): (n: nat)
    requires cfg.Valid()
  {
    if th.pc.Ended? then 0 else 10 * BytesLeft(cfg, th) + 10 * AheadLeft(cfg, th) + Rank(th.pc)
  }

  function Work(cfg: Config, threads: seq<Thread>): (n: nat)
    requires cfg.Valid()
  {
    if threads == [] then 0 else Weight(cfg, threads[0]) + Work(cfg, threads[1..])
  }

  lemma {:induction false} WorkUpdate(cfg: Config, threads: seq<Thread>, t: nat, th: Thread)
    requires cfg.Valid() && t < |threads|
    ensures Work(cfg, threads[t := th]) == Work(cfg, threads) - Weight(cfg, threads[t]) + Weight(cfg, th)
  {
    if t > 0 {
      WorkUpdate(cfg, threads[1..], t - 1, th);
      assert threads[t := th][1..] == threads[1..][t - 1 := th];
    } else {
      assert threads[0 := th][1..] == threads[1..];
    }
  }

  lemma {:induction false} WorkAppend(cfg: Config, threads: seq<Thread>, th: Thread)
    requires cfg.Valid()
    ensures Work(cfg, threads + [th]) == Work(cfg, threads) + Weight(cfg, th)
  {
    if threads == [] {
      assert ([th])[1..] == [];
    } else {
      WorkAppend(cfg, threads[1..], th);
      assert (threads + [th])[1..] == threads[1..] + [th];
    }
  }

  lemma {:induction false} AdvanceWeight(cfg: Config, th: Thread)
    requires cfg.Valid() && th.task.Read? && Partial(cfg, th)
    ensures Weight(cfg, Advance(cfg, th)) <= 10 * BytesLeft(cfg, th) + 7
  {
  }

  /** A step makes its own goroutine lighter, by more than what it starts. */
  lemma {:induction false} OwnWeight(cfg: Config, s: Sys, t: nat, ok: bool)
    requires Inv(cfg, s) && Enabled(s, t)
    ensures var r := Run(cfg, s, t, ok);
            Weight(cfg, r.threads[t]) + (if |r.threads| > |s.threads| then 7 else 0) < Weight(cfg, s.threads[t])
  {
    var th := s.threads[t];
    assert ThreadOk(cfg, s.cache, t, th);
    match th.pc
    case AheadLook(_) => AheadWeight(cfg, s, t, ok);
    case AheadTake(_) => AheadWeight(cfg, s, t, ok);
    case AtGot(_) => DoneWeight(cfg, s, t, ok);
    case _ =>
  }

  lemma {:induction false} DoneWeight(cfg: Config, s: Sys, t: nat, ok: bool)
    requires Inv(cfg, s) && Enabled(s, t) && s.threads[t].pc.AtGot?
    ensures var r := Run(cfg, s, t, ok);
            |r.threads| == |s.threads| && Weight(cfg, r.threads[t]) < Weight(cfg, s.threads[t])
  {
    var th := s.threads[t];
    assert ThreadOk(cfg, s.cache, t, th);
    if th.task.Read? && !s.cache.objs[th.pc.id].content.Failed? {
      GotWeight(cfg, s.cache, t, th);
    }
  }

  lemma {:induction false} AheadWeight(cfg: Config, s: Sys, t: nat, ok: bool)
    requires Inv(cfg, s) && Enabled(s, t) && (s.threads[t].pc.AheadLook? || s.threads[t].pc.AheadTake?)
    ensures var r := Run(cfg, s, t, ok);
            Weight(cfg, r.threads[t]) + (if |r.threads| > |s.threads| then 7 else 0) < Weight(cfg, s.threads[t])
  {
    assert ThreadOk(cfg, s.cache, t, s.threads[t]);
    AdvanceWeight(cfg, s.threads[t]);
  }

  lemma {:induction false} GotWeight(cfg: Config, c: Cache, t: nat, th: Thread)
    requires cfg.Valid() && CacheInv(cfg.File(), cfg.max, c) && ThreadOk(cfg, c, t, th)
    requires th.pc.AtGot? && th.task.Read? && !c.objs[th.pc.id].content.Failed?
    ensures var more := th.(buf := th.buf + Chunk(cfg, c, th, th.pc.id));
            Weight(cfg, Advance(cfg, more)) < Weight(cfg, th)
  {
    assert SegmentOk(cfg.File(), c.objs[th.pc.id], c.clock);
    CopyAdvances(cfg, c, t, th, th.pc.id);
    AdvanceWeight(cfg, th.(buf := th.buf + Chunk(cfg, c, th, th.pc.id)));
  }

  /** A step moves one goroutine and starts at most one background fetch. */
  lemma {:induction false} StepShape(cfg: Config, s: Sys, t: nat, ok: bool)
    requires Inv(cfg, s) && Enabled(s, t)
    ensures var r := Run(cfg, s, t, ok);
            || r.threads == s.threads[t := r.threads[t]]
            || (|r.threads| == |s.threads| + 1
                && r.threads == s.threads[t := r.threads[t]] + [r.threads[|s.threads|]]
                && Weight(cfg, r.threads[|s.threads|]) == 7)
  {
    assert ThreadOk(cfg, s.cache, t, s.threads[t]);
  }

  /** Every step of every goroutine uses up work: there is no livelock. */
  lemma {:induction false} StepUsesWork(cfg: Config, s: Sys, t: nat, ok: bool)
    requires Inv(cfg, s) && Enabled(s, t)
    ensures Work(cfg, Run(cfg, s, t, ok).threads) < Work(cfg, s.threads)
  {
    var r := Run(cfg, s, t, ok);
    StepShape(cfg, s, t, ok);
    OwnWeight(cfg, s, t, ok);
    WorkUpdate(cfg, s.threads, t, r.threads[t]);
    if |r.threads| > |s.threads| {
      WorkAppend(cfg, s.threads[t := r.threads[t]], r.threads[|s.threads|]);
    }
  }

  /** Every event is a step that is possible when its turn comes. */
  ghost predicate AllTaken(cfg: Config, s: Sys, events: seq<Event>)
    requires Inv(cfg, s)
    decreases |events|
  {
    events != [] ==> events[0].Go? && Enabled(s, events[0].t) && AllTaken(cfg, Next(cfg, s, events[0]), events[1..])
  }

  /** Without new reads, no schedule takes more steps than the work at hand; and
      when no goroutine can move, every read has ended. */
  lemma {:induction false} EveryReadEnds(cfg: Config, s: Sys, events: seq<Event>)
    requires Inv(cfg, s) && AllTaken(cfg, s, events)
    ensures |events| <= Work(cfg, s.threads)
    ensures var r := After(cfg, s, events);
            (forall u: nat :: !Enabled(r, u)) ==> forall t :: 0 <= t < |r.threads| ==> r.threads[t].pc.Ended?
    decreases |events|
  {
    var r := After(cfg, s, events);
    if forall u: nat :: !Enabled(r, u) {
      forall t | 0 <= t < |r.threads| ensures r.threads[t].pc.Ended? {
        if !r.threads[t].pc.Ended? {
          NoDeadlock(cfg, r, t);
        }
      }
    }
    if events != [] {
      StepUsesWork(cfg, s, events[0].t, events[0].ok);
      EveryReadEnds(cfg, Next(cfg, s, events[0]), events[1..]);
    }
  }
}
