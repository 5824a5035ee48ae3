/** Read-ahead over every run of a COS disk: of the segments after the one a read starts
  in, none is forgotten while a background fetch may still be started.
 */
module DiskAhead {
  import opened Order
  import Common
  import opened SegmentCache
  import opened DiskProtocol
  import opened DiskRuns
  import opened DiskLru

  /** The read has not come out of `readAhead`. */
  predicate Looking(pc: Pc) {
    pc.AheadLook? || pc.AheadTake?
  }

  /** `readAhead` is done with segment `j`. */
  predicate Passed(pc: Pc, j: nat) {
    match pc
    case AheadLook(k) => j < k
    case AheadTake(k) => j < k
    case _ => true
  }

  /** Segment `j` is one of those that this read is to fetch ahead. */
  predicate InWindow(cfg: Config, th: Thread, j: nat)
    requires cfg.Valid()
  {
    && th.task.Read? && 0 <= th.task.off < |cfg.src|
    && th.task.off / cfg.seg < j <= th.task.off / cfg.seg + cfg.ahead
    && j * cfg.seg < |cfg.src|
  }

  ghost predicate Prefetched(s: Sys, t: nat, j: nat) {
    exists u :: t < u < |s.threads| && s.threads[u].task == Prefetch(j)
  }

  /** Once the read was there, the map held segment `j`. */
  ghost predicate WasThere(cfg: Config, events: seq<Event>, n: nat, t: nat, j: nat)
    requires cfg.Valid() && n <= |events|
  {
    exists i :: 0 <= i <= n && t < |At(cfg, events, i).threads| && j in At(cfg, events, i).cache.segs
  }

  /** Once the read was there, as many background fetches ran as may. */
  ghost predicate WasFull(cfg: Config, events: seq<Event>, n: nat, t: nat)
    requires cfg.Valid() && n <= |events|
  {
    exists i :: 0 <= i <= n && t < |At(cfg, events, i).threads| && At(cfg, events, i).tokens == cfg.ahead
  }

  ghost predicate Cared(cfg: Config, events: seq<Event>, n: nat, t: nat, j: nat)
    requires cfg.Valid() && n <= |events|
  {
    var s := At(cfg, events, n);
    t < |s.threads| && InWindow(cfg, s.threads[t], j) && Passed(s.threads[t].pc, j) ==>
      || WasThere(cfg, events, n, t, j)
      || Prefetched(s, t, j)
      || (!Looking(s.threads[t].pc) && WasFull(cfg, events, n, t))
  }

  // ---- one step ----

  /** What the read does in `readAhead`. */
  lemma {:induction false} LookMoves(cfg: Config, s: Sys, t: nat, ok: bool)
    requires Inv(cfg, s) && Enabled(s, t) && s.threads[t].pc.AheadLook?
    ensures var th, r := s.threads[t], Run(cfg, s, t, ok);
            && r.threads == s.threads[t := r.threads[t]] && th.task.Read? && r.threads[t].task == th.task
            && var j := th.pc.j;
               if j <= th.task.off / cfg.seg + cfg.ahead && j * cfg.seg < |cfg.src|
               then r.threads[t].pc == (if j in s.cache.segs then AheadLook(j + 1) else AheadTake(j))
               else !Looking(r.threads[t].pc)
  {
    assert ThreadOk(cfg, s.cache, t, s.threads[t]);
  }

  lemma {:induction false} TakeMoves(cfg: Config, s: Sys, t: nat, ok: bool)
    requires Inv(cfg, s) && Enabled(s, t) && s.threads[t].pc.AheadTake?
    ensures var th, r := s.threads[t], Run(cfg, s, t, ok);
            && t < |r.threads| && r.threads[t].task == th.task
            && if s.tokens < cfg.ahead
               then && |r.threads| == |s.threads| + 1 && r.threads[..|s.threads|] == s.threads[t := r.threads[t]]
                    && r.threads[|s.threads|].task == Prefetch(th.pc.j) && r.threads[t].pc == AheadLook(th.pc.j + 1)
               else r.threads == s.threads[t := r.threads[t]] && s.tokens == cfg.ahead && !Looking(r.threads[t].pc)
  {
    assert ThreadOk(cfg, s.cache, t, s.threads[t]);
  }

  lemma {:induction false} OthersMove(cfg: Config, s: Sys, t: nat, ok: bool)
    requires Inv(cfg, s) && Enabled(s, t) && !Looking(s.threads[t].pc)
    ensures var r := Run(cfg, s, t, ok);
            && r.threads == s.threads[t := r.threads[t]] && r.threads[t].task == s.threads[t].task
            && !Looking(r.threads[t].pc)
  {
    assert ThreadOk(cfg, s.cache, t, s.threads[t]);
  }

  /** Goroutine `u` is after the event what it was, or has taken a step. */
  lemma {:induction false} RunMoves(cfg: Config, s: Sys, t: nat, ok: bool)
    requires Inv(cfg, s) && Enabled(s, t)
    ensures var r := Run(cfg, s, t, ok);
            && |s.threads| <= |r.threads|
            && (forall u :: 0 <= u < |s.threads| ==> r.threads[u].task == s.threads[u].task)
            && (forall u :: 0 <= u < |s.threads| && u != t ==> r.threads[u] == s.threads[u])
            && (forall u :: |s.threads| <= u < |r.threads| ==> r.threads[u].task.Prefetch?)
  {
    if s.threads[t].pc.AheadLook? {
      LookMoves(cfg, s, t, ok);
    } else if s.threads[t].pc.AheadTake? {
      TakeMoves(cfg, s, t, ok);
      TookOne(s.threads, Run(cfg, s, t, ok).threads, t);
    } else {
      OthersMove(cfg, s, t, ok);
    }
  }

  lemma {:induction false} TookOne(a: seq<Thread>, b: seq<Thread>, t: nat)
    requires t < |a| <= |b| && b[..|a|] == a[t := b[t]] && b[t].task == a[t].task
    ensures forall u :: 0 <= u < |a| ==> b[u].task == a[u].task
    ensures forall u :: 0 <= u < |a| && u != t ==> b[u] == a[u]
  {
    forall u | 0 <= u < |a| ensures b[u] == a[t := b[t]][u] {
      assert b[..|a|][u] == b[u];
    }
  }

  lemma {:induction false} TasksStay(cfg: Config, s: Sys, e: Event)
    requires Inv(cfg, s)
    ensures |s.threads| <= |Next(cfg, s, e).threads|
    ensures forall u :: 0 <= u < |s.threads| ==> Next(cfg, s, e).threads[u].task == s.threads[u].task
  {
    if e.Go? && Enabled(s, e.t) {
      RunMoves(cfg, s, e.t, e.ok);
    }
  }

  /** What an event does to a read that is there. */
  lemma {:induction false} StepCares(cfg: Config, s: Sys, e: Event, t: nat, j: nat)
    requires Inv(cfg, s) && t < |s.threads| && t < |Next(cfg, s, e).threads|
    requires InWindow(cfg, s.threads[t], j) && Passed(Next(cfg, s, e).threads[t].pc, j)
    ensures || Passed(s.threads[t].pc, j) || j in s.cache.segs || Prefetched(Next(cfg, s, e), t, j)
            || (!Looking(Next(cfg, s, e).threads[t].pc) && s.tokens == cfg.ahead)
    ensures !Looking(s.threads[t].pc) ==> !Looking(Next(cfg, s, e).threads[t].pc)
  {
    if e.Go? && Enabled(s, e.t) {
      if e.t != t {
        RunMoves(cfg, s, e.t, e.ok);
      } else if s.threads[t].pc.AheadLook? {
        LookCares(cfg, s, t, e.ok, j);
      } else if s.threads[t].pc.AheadTake? {
        TakeCares(cfg, s, t, e.ok, j);
      } else {
        OthersMove(cfg, s, t, e.ok);
      }
    }
  }

  lemma {:induction false} LookCares(cfg: Config, s: Sys, t: nat, ok: bool, j: nat)
    requires Inv(cfg, s) && Enabled(s, t) && s.threads[t].pc.AheadLook? && InWindow(cfg, s.threads[t], j)
    requires t < |Run(cfg, s, t, ok).threads| && Passed(Run(cfg, s, t, ok).threads[t].pc, j)
    ensures Passed(s.threads[t].pc, j) || j in s.cache.segs
  {
    LookMoves(cfg, s, t, ok);
    var k := s.threads[t].pc.j;
    if j >= k {
      StartsBefore(k, j, cfg.seg);
    }
  }

  lemma {:induction false} StartsBefore(k: nat, j: nat, seg: int)
    requires k <= j && seg > 0
    ensures k * seg <= j * seg
  {
    if k < j {
      Common.MulAtLeast(j - k, seg);
      Common.MulDistributes(j, k, seg);
    }
  }

  lemma {:induction false} TakeCares(cfg: Config, s: Sys, t: nat, ok: bool, j: nat)
    requires Inv(cfg, s) && Enabled(s, t) && s.threads[t].pc.AheadTake?
    requires t < |Run(cfg, s, t, ok).threads| && Passed(Run(cfg, s, t, ok).threads[t].pc, j)
    ensures || Passed(s.threads[t].pc, j) || Prefetched(Run(cfg, s, t, ok), t, j)
            || (!Looking(Run(cfg, s, t, ok).threads[t].pc) && s.tokens == cfg.ahead)
  {
    TakeMoves(cfg, s, t, ok);
    if s.tokens < cfg.ahead && j == s.threads[t].pc.j {
      assert Run(cfg, s, t, ok).threads[|s.threads|].task == Prefetch(j);
    }
  }

  /** A goroutine that an event adds has passed nothing of a window. */
  lemma {:induction false} NewHasPassedNothing(cfg: Config, s: Sys, e: Event, t: nat, j: nat)
    requires Inv(cfg, s) && |s.threads| <= t < |Next(cfg, s, e).threads|
    requires InWindow(cfg, Next(cfg, s, e).threads[t], j)
    ensures !Passed(Next(cfg, s, e).threads[t].pc, j)
  {
    if e.Go? && Enabled(s, e.t) {
      RunMoves(cfg, s, e.t, e.ok);
    }
  }

  // ---- every run ----

  lemma {:induction false} StillThere(cfg: Config, events: seq<Event>, n: nat, t: nat, j: nat)
    requires cfg.Valid() && n < |events|
    ensures WasThere(cfg, events, n, t, j) ==> WasThere(cfg, events, n + 1, t, j)
    ensures WasFull(cfg, events, n, t) ==> WasFull(cfg, events, n + 1, t)
    ensures t < |At(cfg, events, n).threads| && j in At(cfg, events, n).cache.segs ==>
              WasThere(cfg, events, n + 1, t, j)
    ensures t < |At(cfg, events, n).threads| && At(cfg, events, n).tokens == cfg.ahead ==>
              WasFull(cfg, events, n + 1, t)
  {
    var s := At(cfg, events, n);
    if t < |s.threads| && j in s.cache.segs {
      assert 0 <= n <= n + 1 && t < |At(cfg, events, n).threads| && j in At(cfg, events, n).cache.segs;
    }
    if t < |s.threads| && s.tokens == cfg.ahead {
      assert 0 <= n <= n + 1 && t < |At(cfg, events, n).threads| && At(cfg, events, n).tokens == cfg.ahead;
    }
  }

  lemma {:induction false} NextCares(cfg: Config, events: seq<Event>, n: nat, t: nat, j: nat)
    requires cfg.Valid() && n < |events| && Cared(cfg, events, n, t, j)
    ensures Cared(cfg, events, n + 1, t, j)
  {
    var s, e, r := At(cfg, events, n), events[n], At(cfg, events, n + 1);
    assert r == Next(cfg, s, e);
    if t < |r.threads| && InWindow(cfg, r.threads[t], j) && Passed(r.threads[t].pc, j) {
      TasksStay(cfg, s, e);
      if t >= |s.threads| {
        NewHasPassedNothing(cfg, s, e, t, j);
      } else {
        StepCares(cfg, s, e, t, j);
        StillThere(cfg, events, n, t, j);
        PrefetchStays(s, r, t, j);
      }
    }
  }

  lemma {:induction false} PrefetchStays(s: Sys, r: Sys, t: nat, j: nat)
    requires |s.threads| <= |r.threads|
    requires forall u :: 0 <= u < |s.threads| ==> r.threads[u].task == s.threads[u].task
    ensures Prefetched(s, t, j) ==> Prefetched(r, t, j)
  {
    if Prefetched(s, t, j) {
      var u :| t < u < |s.threads| && s.threads[u].task == Prefetch(j);
      assert r.threads[u].task == Prefetch(j);
    }
  }

  /** A read that has come out of `readAhead` has cared for every segment of its window: it
      was in the map, or a background fetch of it was started, or at that time as many
      background fetches ran as may. */
  lemma {:induction false} ReadAheadForgetsNothing(cfg: Config, events: seq<Event>, n: nat, t: nat, j: nat)
    requires cfg.Valid() && n <= |events| && t < |At(cfg, events, n).threads|
    requires InWindow(cfg, At(cfg, events, n).threads[t], j) && !Looking(At(cfg, events, n).threads[t].pc)
    ensures || WasThere(cfg, events, n, t, j) || Prefetched(At(cfg, events, n), t, j) || WasFull(cfg, events, n, t)
  {
    assert Cared(cfg, events, 0, t, j);
    for i := 0 to n
      invariant Cared(cfg, events, i, t, j)
    {
      NextCares(cfg, events, i, t, j);
    }
  }
}
