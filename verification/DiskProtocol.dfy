/** Every interleaving of the goroutines that read a COS disk.

  A goroutine runs `ReadAt`, or a background fetch that a read started. It
  advances in atomic steps: a critical section, the fetch between two sections,
  the close of `done`, or a wait for it. Fetches succeed or fail freely.
 */
module DiskProtocol {
  import opened Order
  import opened SegmentCache
  import Common

  datatype Config = Config(src: Bytes, seg: int, max: int, ahead: nat) {
    predicate Valid() {
      seg > 0 && max > 0
    }

    function File(): seq<Bytes>
      requires Valid()
    {
      Pieces(src, seg)
    }

    /** How many bytes a read that starts inside the file can get. */
    function Clip(off: int, want: nat): (n: nat)
      requires 0 <= off < |src|
      ensures off + n <= |src| && n <= want && (n < want <==> off + want > |src|)
    {
      if off + want > |src| then |src| - off else want
    }
  }

  const DEFAULT_SEGMENT := 4 * 1024 * 1024
  const DEFAULT_MAX_BYTES := 64 * 1024 * 1024

  /** The shape `New` gives a disk: options that are not positive take the defaults. */
  function Configure(src: Bytes, segmentSize: int, readAhead: int, maxBytes: int): (cfg: Config)
    ensures cfg.Valid() && cfg.src == src
  {
    Config(src,
           if segmentSize <= 0 then DEFAULT_SEGMENT else segmentSize,
           if maxBytes <= 0 then DEFAULT_MAX_BYTES else maxBytes,
           if readAhead > 0 then readAhead else 0)
  }

  /** The file cut into segments. */
  function Pieces(src: Bytes, seg: int): (r: seq<Bytes>)
    requires seg > 0
    decreases |src|
  {
    if src == [] then []
    else if |src| <= seg then [src]
    else [src[..seg]] + Pieces(src[seg..], seg)
  }

  /** The bytes that a fetch of segment `idx` asks the source for. */
  function FetchBytes(cfg: Config, idx: nat): (b: Bytes)
    requires cfg.Valid() && idx * cfg.seg < |cfg.src|
  {
    var off := idx * cfg.seg;
    assert 0 <= off;
    var n := if off + cfg.seg > |cfg.src| then |cfg.src| - off else cfg.seg;
    cfg.src[off..off + n]
  }

  lemma {:induction false} PieceLengths(src: Bytes, seg: int)
    requires seg > 0
    ensures forall i :: 0 <= i < |Pieces(src, seg)| ==> 0 < |Pieces(src, seg)[i]| <= seg
    decreases |src|
  {
    if |src| > seg {
      PieceLengths(src[seg..], seg);
    }
  }

  /** Segment `idx` exists exactly when it starts inside the file, and its piece
      is what a fetch asks for. */
  lemma {:induction false} FetchReadsPiece(src: Bytes, seg: int, idx: nat)
    requires seg > 0
    ensures idx < |Pieces(src, seg)| <==> idx * seg < |src|
    ensures idx * seg < |src| ==> FetchBytes(Config(src, seg, 1, 0), idx) == Pieces(src, seg)[idx]
    decreases |src|
  {
    if idx > 0 {
      assert idx * seg == (idx - 1) * seg + seg;
      assert (idx - 1) * seg >= 0;
      if |src| > seg {
        var rest := src[seg..];
        FetchReadsPiece(rest, seg, idx - 1);
        if idx * seg < |src| {
          assert FetchBytes(Config(src, seg, 1, 0), idx) == FetchBytes(Config(rest, seg, 1, 0), idx - 1);
        }
      }
    } else {
      assert idx * seg == 0;
    }
  }

  /** The copy in `ReadAt`: the segment of a position holds it, and from there on
      it is the file's own bytes. */
  lemma {:induction false} PieceHolds(src: Bytes, seg: int, pos: nat)
    requires seg > 0 && pos < |src|
    ensures pos / seg < |Pieces(src, seg)|
    ensures var p := Pieces(src, seg)[pos / seg];
            && pos % seg < |p|
            && pos + (|p| - pos % seg) <= |src|
            && p[pos % seg..] == src[pos..pos + (|p| - pos % seg)]
    decreases |src|
  {
    if pos < seg {
      assert pos / seg == 0 && pos % seg == pos by { DivSmall(pos, seg); }
    } else {
      var rest := src[seg..];
      PieceHolds(rest, seg, pos - seg);
      assert (pos - seg) / seg == pos / seg - 1 && (pos - seg) % seg == pos % seg by { DivShift(pos, seg); }
      var p := Pieces(src, seg)[pos / seg];
      assert p == Pieces(rest, seg)[(pos - seg) / seg];
      assert rest[pos - seg..pos - seg + (|p| - pos % seg)] == src[pos..pos + (|p| - pos % seg)];
    }
  }

  lemma {:induction false} DivSmall(a: nat, b: int)
    requires 0 <= a < b
    ensures a / b == 0 && a % b == a
  {
  }

  lemma {:induction false} DivShift(a: nat, b: int)
    requires 0 < b <= a
    ensures (a - b) / b == a / b - 1 && (a - b) % b == a % b
  {
    var q, r := (a - b) / b, (a - b) % b;
    assert a == (q + 1) * b + r by {
      assert (q + 1) * b == q * b + b;
    }
    Common.DivUnique(a, b, q + 1, r);
  }

  // ---- goroutines ----

  datatype Outcome = Clean | Eof | Refused | Fault

  datatype Task = Read(off: int, want: nat) | Prefetch(j: nat)

  datatype Pc =
    | AheadLook(j: nat)   // readAhead, about to look for segment j
    | AheadTake(j: nat)   // readAhead, about to take a token for segment j
    | AtGet(idx: nat)     // get, about to lock
    | AtFetch(id: nat)    // get, fetching its own segment
    | AtPublish(id: nat)  // get, about to lock again
    | AtClose(id: nat)    // get, about to close done
    | AtWait(id: nat)     // get, waiting for another goroutine's fetch
    | AtGot(id: nat)      // get returned segment id
    | Ended(outcome: Outcome)

  datatype Thread = Thread(task: Task, pc: Pc, buf: Bytes)

  datatype Sys = Sys(cache: Cache, tokens: nat, threads: seq<Thread>)

  const IDLE := Sys(EMPTY, 0, [])

  /** The head of the copy loop of a read: the next `get`, or the result. */
  function Advance(cfg: Config, th: Thread): (r: Thread)
    requires cfg.Valid() && th.task.Read? && 0 <= th.task.off < |cfg.src|
  {
    var n := cfg.Clip(th.task.off, th.task.want);
    if |th.buf| < n then th.(pc := AtGet((th.task.off + |th.buf|) / cfg.seg))
    else th.(pc := Ended(if n < th.task.want then Eof else Clean))
  }

  /** A new `ReadAt`. */
  function StartRead(cfg: Config, off: int, want: nat): (th: Thread)
    requires cfg.Valid()
  {
    var born := Thread(Read(off, want), Ended(Refused), []);
    if off < 0 then born
    else if off >= |cfg.src| then born.(pc := Ended(Eof))
    else if cfg.ahead > 0 then born.(pc := AheadLook(off / cfg.seg + 1))
    else Advance(cfg, born)
  }

  predicate Background(th: Thread) {
    th.task.Prefetch? && !th.pc.Ended?
  }

  /** How many background fetches run. */
  function Running(threads: seq<Thread>): (n: nat) {
    if threads == [] then 0
    else (if Background(threads[0]) then 1 else 0) + Running(threads[1..])
  }

  // ---- the invariant ----

  /** What a read may return: exactly the bytes of the file, and EOF exactly when
      the request starts at or past the end or passes it. */
  ghost predicate ResultOk(cfg: Config, off: int, want: nat, buf: Bytes, outcome: Outcome) {
    if off < 0 then outcome == Refused && buf == []
    else if off >= |cfg.src| then outcome == Eof && buf == []
    else
      && off + |buf| <= |cfg.src| && buf == cfg.src[off..off + |buf|]
      && match outcome
         case Clean => |buf| == want
         case Eof => off + want > |cfg.src| && off + |buf| == |cfg.src|
         case Fault => |buf| < cfg.Clip(off, want)
         case Refused => false
  }

  /** A running read has copied a front part of what it asked for. */
  ghost predicate Partial(cfg: Config, th: Thread) {
    th.task.Read? ==>
      && 0 <= th.task.off < |cfg.src|
      && |th.buf| <= cfg.Clip(th.task.off, th.task.want)
      && th.buf == cfg.src[th.task.off..th.task.off + |th.buf|]
  }

  /** The goroutine is after segment `idx`. */
  ghost predicate Wants(cfg: Config, th: Thread, idx: nat)
    requires cfg.Valid()
  {
    && Partial(cfg, th)
    && idx < |cfg.File()|
    && (th.task.Prefetch? ==> idx == th.task.j)
    && (th.task.Read? ==>
          |th.buf| < cfg.Clip(th.task.off, th.task.want) && idx == (th.task.off + |th.buf|) / cfg.seg)
  }

  /** The goroutine made segment `id` and has not closed it. */
  ghost predicate Working(objs: seq<Segment>, t: nat, id: nat) {
    id < |objs| && objs[id].owner == t && !objs[id].done
  }

  ghost predicate ThreadOk(cfg: Config, c: Cache, t: nat, th: Thread)
    requires cfg.Valid()
  {
    match th.pc
    case AheadLook(j) => th.task.Read? && Partial(cfg, th) && j > th.task.off / cfg.seg
    case AheadTake(j) => th.task.Read? && Partial(cfg, th) && j > th.task.off / cfg.seg && j < |cfg.File()|
                         && j <= th.task.off / cfg.seg + cfg.ahead
    case AtGet(idx) => Wants(cfg, th, idx)
    case AtFetch(id) =>
      && Working(c.objs, t, id) && Mapped(c.objs, c.segs, id) && !c.objs[id].listed
      && c.objs[id].content.Pending? && Wants(cfg, th, c.objs[id].idx)
    case AtPublish(id) =>
      && Working(c.objs, t, id) && Mapped(c.objs, c.segs, id) && !c.objs[id].listed
      && !c.objs[id].content.Pending? && Wants(cfg, th, c.objs[id].idx)
    case AtClose(id) => Working(c.objs, t, id) && !c.objs[id].content.Pending? && Wants(cfg, th, c.objs[id].idx)
    case AtWait(id) => id < |c.objs| && Wants(cfg, th, c.objs[id].idx)
    case AtGot(id) => id < |c.objs| && c.objs[id].done && Wants(cfg, th, c.objs[id].idx)
    case Ended(outcome) => th.task.Read? ==> ResultOk(cfg, th.task.off, th.task.want, th.buf, outcome)
  }

  ghost predicate AllOk(cfg: Config, c: Cache, threads: seq<Thread>)
    requires cfg.Valid()
  {
    forall t :: 0 <= t < |threads| ==> ThreadOk(cfg, c, t, threads[t])
  }

  predicate OnSegment(pc: Pc, id: nat) {
    pc == AtFetch(id) || pc == AtPublish(id) || pc == AtClose(id)
  }

  /** A segment whose `done` is open is being worked on by the goroutine that made it. */
  ghost predicate Owned(objs: seq<Segment>, threads: seq<Thread>) {
    forall id :: 0 <= id < |objs| && !objs[id].done ==>
                   objs[id].owner < |threads| && OnSegment(threads[objs[id].owner].pc, id)
  }

  /** A segment in the map that is not in the list is in flight. */
  ghost predicate InFlight(c: Cache, threads: seq<Thread>) {
    forall i :: i in c.segs && c.segs[i] < |c.objs| && !c.objs[c.segs[i]].listed ==>
                  var s := c.objs[c.segs[i]];
                  && !s.done && s.owner < |threads|
                  && (threads[s.owner].pc == AtFetch(c.segs[i]) || threads[s.owner].pc == AtPublish(c.segs[i]))
  }

  ghost predicate Inv(cfg: Config, s: Sys) {
    && cfg.Valid()
    && CacheInv(cfg.File(), cfg.max, s.cache)
    && AllOk(cfg, s.cache, s.threads)
    && Owned(s.cache.objs, s.threads)
    && InFlight(s.cache, s.threads)
    && s.tokens == Running(s.threads) <= cfg.ahead
  }

  // ---- steps ----

  ghost predicate Enabled(s: Sys, t: nat) {
    && t < |s.threads|
    && !s.threads[t].pc.Ended?
    && (s.threads[t].pc.AtWait? ==> s.threads[t].pc.id < |s.cache.objs| && s.cache.objs[s.threads[t].pc.id].done)
  }

  /** One atomic step of goroutine `t`. `ok` says whether a fetch succeeds. */
  ghost function Run(cfg: Config, s: Sys, t: nat, ok: bool): (r: Sys)
    requires Inv(cfg, s) && Enabled(s, t)
  {
    assert ThreadOk(cfg, s.cache, t, s.threads[t]);
    var th := s.threads[t];
    var c := s.cache;
    match th.pc
    case AheadLook(j) =>
      if j <= th.task.off / cfg.seg + cfg.ahead && j * cfg.seg < |cfg.src| then
        s.(threads := s.threads[t := th.(pc := if j in c.segs then AheadLook(j + 1) else AheadTake(j))])
      else s.(threads := s.threads[t := Advance(cfg, th)])
    case AheadTake(j) =>
      if s.tokens < cfg.ahead then
        s.(tokens := s.tokens + 1,
           threads := s.threads[t := th.(pc := AheadLook(j + 1))] + [Thread(Prefetch(j), AtGet(j), [])])
      else s.(threads := s.threads[t := Advance(cfg, th)])
    case AtGet(idx) =>
      if idx in c.segs then s.(cache := Touch(c, idx), threads := s.threads[t := th.(pc := AtWait(c.segs[idx]))])
      else s.(cache := Claim(c, idx, t), threads := s.threads[t := th.(pc := AtFetch(|c.objs|))])
    case AtFetch(id) =>
      FetchReadsPiece(cfg.src, cfg.seg, c.objs[id].idx);
      s.(cache := Store(c, id, if ok then Ready(FetchBytes(cfg, c.objs[id].idx)) else Failed),
         threads := s.threads[t := th.(pc := AtPublish(id))])
    case AtPublish(id) => s.(cache := Publish(c, id, cfg.max), threads := s.threads[t := th.(pc := AtClose(id))])
    case AtClose(id) => s.(cache := Close(c, id), threads := s.threads[t := th.(pc := AtGot(id))])
    case AtWait(id) => s.(threads := s.threads[t := th.(pc := AtGot(id))])
    case AtGot(id) =>
      if th.task.Prefetch? then
        assert s.tokens > 0 by { RunningAt(s.threads, t); }
        s.(tokens := s.tokens - 1, threads := s.threads[t := th.(pc := Ended(Clean))])
      else if c.objs[id].content.Failed? then s.(threads := s.threads[t := th.(pc := Ended(Fault))])
      else s.(threads := s.threads[t := Advance(cfg, th.(buf := th.buf + Chunk(cfg, c, th, id)))])
  }

  /** One turn of the copy loop: what is left of the segment is the file's own
      bytes, and at least one of them is copied. */
  lemma {:induction false} ChunkIsRight(src: Bytes, off: nat, buf: Bytes, n: nat, rest: Bytes, chunk: Bytes)
    requires off + n <= |src| && |buf| < n && buf == src[off..off + |buf|]
    requires 0 < |rest| <= |src| - off - |buf| && rest == src[off + |buf|..off + |buf| + |rest|]
    requires chunk == (if |rest| <= n - |buf| then rest else rest[..n - |buf|])
    ensures 0 < |chunk| <= n - |buf|
    ensures buf + chunk == src[off..off + |buf + chunk|]
  {
    var cur := off + |buf|;
    assert chunk == rest[..|chunk|] == src[cur..cur + |chunk|];
    assert src[off..cur] + src[cur..cur + |chunk|] == src[off..cur + |chunk|];
  }

  function SegmentOf(pos: nat, seg: int): (idx: nat)
    requires seg > 0
  {
    pos / seg
  }

  /** What one turn of the copy loop takes from the segment at hand. */
  function NextChunk(seg: int, off: nat, buf: Bytes, n: nat, data: Bytes): (chunk: Bytes)
    requires seg > 0 && |buf| < n && (off + |buf|) % seg <= |data|
  {
    var rest := data[(off + |buf|) % seg..];
    if |rest| <= n - |buf| then rest else rest[..n - |buf|]
  }

  lemma {:induction false} NextChunkIsRight(src: Bytes, seg: int, off: nat, buf: Bytes, n: nat)
    requires seg > 0 && off + n <= |src| && |buf| < n && buf == src[off..off + |buf|]
    ensures SegmentOf(off + |buf|, seg) < |Pieces(src, seg)|
    ensures var data := Pieces(src, seg)[SegmentOf(off + |buf|, seg)];
            && (off + |buf|) % seg <= |data|
            && var more := buf + NextChunk(seg, off, buf, n, data);
               |buf| < |more| <= n && more == src[off..off + |more|]
  {
    var cur := off + |buf|;
    PieceHolds(src, seg, cur);
    var data := Pieces(src, seg)[cur / seg];
    ChunkIsRight(src, off, buf, n, data[cur % seg..], NextChunk(seg, off, buf, n, data));
  }


  /** What one turn of the copy loop copies: the rest of the segment, or less if
      the caller's buffer is full. */
  ghost function Chunk(cfg: Config, c: Cache, th: Thread, id: nat): (b: Bytes)
    requires cfg.Valid() && id < |c.objs| && Wants(cfg, th, c.objs[id].idx) && th.task.Read?
    requires c.objs[id].content == Ready(cfg.File()[c.objs[id].idx])
  {
    NextChunkIsRight(cfg.src, cfg.seg, th.task.off, th.buf, cfg.Clip(th.task.off, th.task.want));
    NextChunk(cfg.seg, th.task.off, th.buf, cfg.Clip(th.task.off, th.task.want), c.objs[id].content.data)
  }

  lemma {:induction false} RunningAt(threads: seq<Thread>, t: nat)
    requires t < |threads| && Background(threads[t])
    ensures Running(threads) > 0
  {
    if t > 0 {
      RunningAt(threads[1..], t - 1);
    }
  }

  function B(th: Thread): nat {
    if Background(th) then 1 else 0
  }

  lemma {:induction false} RunningUpdate(threads: seq<Thread>, t: nat, th: Thread)
    requires t < |threads|
    ensures Running(threads[t := th]) == Running(threads) - B(threads[t]) + B(th)
  {
    if t > 0 {
      RunningUpdate(threads[1..], t - 1, th);
      assert threads[t := th][1..] == threads[1..][t - 1 := th];
    } else {
      assert threads[0 := th][1..] == threads[1..];
    }
  }

  lemma {:induction false} RunningAppend(threads: seq<Thread>, th: Thread)
    ensures Running(threads + [th]) == Running(threads) + B(th)
  {
    if threads == [] {
      assert ([th])[1..] == [];
    } else {
      RunningAppend(threads[1..], th);
      assert (threads + [th])[1..] == threads[1..] + [th];
    }
  }
}
