/** Which Job a finished Failover finished from.

  A Job has a name and no owner, and a Job of the right name that exists already is
  taken for the one that was to be made. So a Failover can end with what a Job of
  an earlier Failover of its name has done.
 */
module JobOwners {
  import opened Order
  import opened Common
  import opened Job
  import opened Gate
  import opened ControllerSteps
  import opened ControllerRuns

  // ---- the name of a Job ----

  const JOB_PREFIX: Bytes := [102, 97, 105, 108, 111, 118, 101, 114, 45] // "failover-"
  const JOB_NAME_MAX := 52
  const DASH := 45

  /** A Job name fits the limit: a long one is cut and ends with 8 digits of a hash. */
  function JobName(hash: Bytes -> Bytes, name: Bytes): (n: Bytes) {
    var long := JOB_PREFIX + name;
    if |long| <= JOB_NAME_MAX then long else long[..JOB_NAME_MAX - 9] + [DASH] + hash(name)
  }

  /** No other Failover has a Job of the same name. */
  ghost predicate Apart(cfg: Settings, name: Bytes) {
    forall other :: cfg.jobName(other) == cfg.jobName(name) ==> other == name
  }

  /** A name of up to 42 bytes shares its Job name with no other, whatever the hash. */
  lemma {:induction false} ShortNamesAreApart(cfg: Settings, hash: Bytes -> Bytes, name: Bytes)
    requires (forall x :: |hash(x)| == 8) && (forall x :: cfg.jobName(x) == JobName(hash, x)) && |name| <= 42
    ensures Apart(cfg, name)
  {
    forall other | cfg.jobName(other) == cfg.jobName(name) ensures other == name {
      assert |JobName(hash, other)| == |JobName(hash, name)| < JOB_NAME_MAX;
      assert (JOB_PREFIX + other)[|JOB_PREFIX|..] == other && (JOB_PREFIX + name)[|JOB_PREFIX|..] == name;
    }
  }

  // ---- names and owners in every run ----

  ghost predicate OnList(items: seq<Failover>, f: Failover) {
    exists k :: 0 <= k < |items| && items[k].uid == f.uid && items[k].name == f.name
  }

  /** Names are unique, in the store and in the list, and a Failover that was begun is in the list. */
  ghost predicate NamesInv(w: World) {
    && (forall u, v :: u in w.store && v in w.store && w.store[u].name == w.store[v].name ==> u == v)
    && (forall j, k :: 0 <= j < k < |w.items| ==> w.items[j].name != w.items[k].name)
    && (forall u :: u in w.store && w.store[u].status.phase != New ==> OnList(w.items, w.store[u]))
  }

  /** A Job does what the Failover that it was made for asks. */
  ghost predicate JobsInv(s: State) {
    forall n :: n in s.w.jobs ==>
      && s.w.jobs[n].madeFor in s.born
      && (s.w.jobs[n].madeFor in s.w.store ==> s.w.jobs[n].action == s.w.store[s.w.jobs[n].madeFor].spec.action)
  }

  ghost predicate OwnersInv(s: State) {
    Inv(s) && NamesInv(s.w) && JobsInv(s)
  }

  lemma {:induction false} StepNames(cfg: Settings, w: World, r: World, i: nat, gateNow: Instant)
    requires i < |w.items| && StepOn(cfg, w, r, i, gateNow) && NamesInv(w)
    requires w.items[i].uid in w.store ==> w.store[w.items[i].uid] == w.items[i]
    requires forall u :: u in w.store ==> w.store[u].uid == u
    ensures NamesInv(r)
  {
    assert forall k :: 0 <= k < |w.items| ==> r.items[k].uid == w.items[k].uid && r.items[k].name == w.items[k].name;
    forall u | u in r.store && r.store[u].status.phase != New ensures OnList(r.items, r.store[u]) {
      if u == w.items[i].uid {
        assert r.items[i].uid == u && r.items[i].name == r.store[u].name;
      } else {
        var k :| 0 <= k < |w.items| && w.items[k].uid == u && w.items[k].name == w.store[u].name;
        assert r.items[k].uid == u;
      }
    }
  }

  lemma {:induction false} ListedNames(w: World, order: seq<Failover>)
    requires NamesInv(w) && Uids(order, w.store) && forall u :: u in w.store ==> w.store[u].uid == u
    ensures NamesInv(w.(items := order, next := 0, lost := {}))
  {
    forall j, k | 0 <= j < k < |order| ensures order[j].name != order[k].name {
      assert order[j].uid != order[k].uid;
    }
    forall u | u in w.store ensures OnList(order, w.store[u]) {
      assert w.store[u] in order;
      var k :| 0 <= k < |order| && order[k] == w.store[u];
    }
  }

  lemma {:induction false} NamesKeep(cfg: Settings, s: State, e: Event)
    requires Inv(s) && NamesInv(s.w)
    ensures NamesInv(Next(cfg, s, e).w)
  {
    var w := s.w;
    if e.Processed? && w.next < |w.items| {
      ProcessStep(cfg, w, w.next, e.a);
      StepNames(cfg, w, ProcessAt(cfg, w, w.next, e.a), w.next, e.a.gateNow);
    } else if e.Listed? && w.next == |w.items| && Uids(e.order, w.store) {
      ListedNames(w, e.order);
    } else if e.Created? && e.f.uid !in s.born && !NameTaken(w.store, e.f.name) {
      assert forall u :: u in w.store ==> w.store[u].name != e.f.name;
    }
  }

  lemma {:induction false} JobsKeep(cfg: Settings, s: State, e: Event)
    requires Inv(s) && JobsInv(s)
    ensures JobsInv(Next(cfg, s, e))
  {
    var w := s.w;
    if e.Processed? && w.next < |w.items| {
      ProcessStep(cfg, w, w.next, e.a);
      assert InStepAt(w.store, w.lost, w.items[w.next]);
    }
  }

  lemma {:induction false} OwnersKeep(cfg: Settings, s: State, e: Event)
    requires OwnersInv(s)
    ensures OwnersInv(Next(cfg, s, e))
  {
    NextKeeps(cfg, s, e);
    NamesKeep(cfg, s, e);
    JobsKeep(cfg, s, e);
  }

  lemma {:induction false} OwnersAfter(cfg: Settings, s: State, events: seq<Event>)
    requires OwnersInv(s)
    ensures OwnersInv(After(cfg, s, events))
    decreases |events|
  {
    if events != [] {
      OwnersKeep(cfg, s, events[0]);
      OwnersAfter(cfg, Next(cfg, s, events[0]), events[1..]);
    }
  }

  lemma {:induction false} OwnersReached(cfg: Settings, events: seq<Event>)
    ensures OwnersInv(Reached(cfg, events))
  {
    StartInv();
    assert START.w.store == map[] && START.w.items == [] && START.w.jobs == map[];
    OwnersAfter(cfg, START, events);
  }

  // ---- one event ----

  /** No Job of the Failover's name was made for another. */
  ghost predicate OwnOrNone(cfg: Settings, w: World, f: Failover) {
    var n := cfg.jobName(f.name);
    n in w.jobs ==> w.jobs[n].madeFor == f.uid
  }

  /** Beginning an Execute makes its Job, unless one of its name is there. */
  lemma {:induction false} EnteringTakesTheJob(cfg: Settings, s: State, e: Event, u: nat)
    requires Inv(s) && Enters(cfg, s, e, Next(cfg, s, e), u)
    ensures var n := cfg.jobName(s.w.store[u].name);
            var jobs := Next(cfg, s, e).w.jobs;
            && n in jobs
            && (n in s.w.jobs ==> jobs[n] == s.w.jobs[n])
            && (n !in s.w.jobs ==> jobs[n].madeFor == u && jobs[n].action == ExecuteAction)
    ensures Next(cfg, s, e).w.store[u].name == s.w.store[u].name
  {
    var w := s.w;
    assert w.next < |w.items|;
    ProcessStep(cfg, w, w.next, e.a);
    assert w.items[w.next].uid == u;
    assert InStepAt(w.store, w.lost, w.items[w.next]);
    StartedJob(cfg, w, w.next, e.a);
  }

  lemma {:induction false} StartedJob(cfg: Settings, w: World, i: nat, a: Answers)
    requires i < |w.items| && w.items[i].status.phase != Executing
    requires ProcessAt(cfg, w, i, a).items[i].status.phase == Executing
    ensures JobTaken(cfg, w, ProcessAt(cfg, w, i, a), w.items[i])
  {
    if w.items[i].status.phase != New {
      CheckBegins(cfg, w, i, a);
    }
    BegunJob(cfg, w, i, a);
  }

  /** A look at a Job leads to Executing only where the Job is gone. */
  lemma {:induction false} CheckBegins(cfg: Settings, w: World, i: nat, a: Answers)
    requires i < |w.items| && w.items[i].status.phase != Executing
    requires CheckAt(cfg, w, i, a).items[i].status.phase == Executing
    ensures CheckAt(cfg, w, i, a) == BeginAt(cfg, w, i, a)
  {
    CheckMeans(cfg, w, i, a);
  }

  /** The Job of `f` is there, as it was or made for `f`. */
  ghost predicate JobTaken(cfg: Settings, w: World, r: World, f: Failover) {
    var n := cfg.jobName(f.name);
    && n in r.jobs
    && (n in w.jobs ==> r.jobs[n] == w.jobs[n])
    && (n !in w.jobs ==> r.jobs[n].madeFor == f.uid && r.jobs[n].action == ExecuteAction)
  }

  lemma {:induction false} BegunJob(cfg: Settings, w: World, i: nat, a: Answers)
    requires i < |w.items| && w.items[i].status.phase != Executing
    requires BeginAt(cfg, w, i, a).items[i].status.phase == Executing
    ensures JobTaken(cfg, w, BeginAt(cfg, w, i, a), w.items[i])
  {
  }

  /** A Failover ends as Done only when a Job of its name has succeeded. */
  lemma {:induction false} DoneNeedsAJob(cfg: Settings, s: State, e: Event, u: nat)
    requires Inv(s) && u in s.w.store && u in Next(cfg, s, e).w.store
    requires s.w.store[u].status.phase != Done && Next(cfg, s, e).w.store[u].status.phase == Done
    ensures s.w.store[u].status.phase == Executing
    ensures var n := cfg.jobName(s.w.store[u].name);
            n in s.w.jobs && s.w.jobs[n].state == Succeeded
  {
    var w := s.w;
    StoredMoves(cfg, s, e, u);
    assert e.Processed? && w.next < |w.items|;
    ProcessStep(cfg, w, w.next, e.a);
    assert w.items[w.next].uid == u;
    assert InStepAt(w.store, w.lost, w.items[w.next]);
    FinishedJob(cfg, w, w.next, e.a);
  }

  lemma {:induction false} FinishedJob(cfg: Settings, w: World, i: nat, a: Answers)
    requires i < |w.items| && w.items[i].status.phase == Executing && w.items[i].spec.action == ExecuteAction
    requires ProcessAt(cfg, w, i, a).items[i].status.phase == Done
    ensures var n := cfg.jobName(w.items[i].name);
            n in w.jobs && w.jobs[n].state == Succeeded
  {
  }

  /** Once a Failover is begun, no Job of its name is made for another. */
  lemma {:induction false} OwnOrNoneStays(cfg: Settings, s: State, e: Event, u: nat)
    requires OwnersInv(s) && u in s.w.store && u in Next(cfg, s, e).w.store && s.w.store[u].status.phase != New
    requires Apart(cfg, s.w.store[u].name) && OwnOrNone(cfg, s.w, s.w.store[u])
    ensures OwnOrNone(cfg, Next(cfg, s, e).w, s.w.store[u])
  {
    var w, f := s.w, s.w.store[u];
    if e.Processed? && w.next < |w.items| {
      ProcessStep(cfg, w, w.next, e.a);
      var k :| 0 <= k < |w.items| && w.items[k].uid == f.uid && w.items[k].name == f.name;
      assert w.items[w.next].name == f.name ==> k == w.next;
    }
  }

  /** A Job that is there before and after an event is the same Job. */
  lemma {:induction false} OwnerStays(cfg: Settings, s: State, e: Event, n: Bytes)
    requires Inv(s) && n in s.w.jobs && n in Next(cfg, s, e).w.jobs
    ensures Next(cfg, s, e).w.jobs[n].madeFor == s.w.jobs[n].madeFor
  {
    if e.Processed? && s.w.next < |s.w.items| {
      ProcessStep(cfg, s.w, s.w.next, e.a);
    }
  }

  // ---- whole runs ----

  /** The state after the first `k` events of a run. */
  ghost function At(cfg: Settings, events: seq<Event>, k: nat): (s: State)
    requires k <= |events|
  {
    Reached(cfg, events[..k])
  }

  lemma {:induction false} AtNext(cfg: Settings, events: seq<Event>, k: nat)
    requires k < |events|
    ensures At(cfg, events, k + 1) == Next(cfg, At(cfg, events, k), events[k])
  {
    StartInv();
    assert events[..k + 1] == events[..k] + [events[k]];
    AfterAppend(cfg, START, events[..k], events[k]);
  }

  /** A Failover that was begun is never new again. */
  lemma {:induction false} NeverNewAgain(cfg: Settings, events: seq<Event>, n: nat, k: nat, u: nat)
    requires n <= k <= |events| && u in At(cfg, events, n).w.store && At(cfg, events, n).w.store[u].status.phase != New
    ensures u in At(cfg, events, k).born
    ensures u in At(cfg, events, k).w.store ==> At(cfg, events, k).w.store[u].status.phase != New
    decreases k
  {
    if n < k {
      NeverNewAgain(cfg, events, n, k - 1, u);
      AtNext(cfg, events, k - 1);
      var s, e := At(cfg, events, k - 1), events[k - 1];
      BornStays(cfg, s, e, u);
      if u in Next(cfg, s, e).w.store {
        InStoreBefore(cfg, s, e, u);
        StoredMoves(cfg, s, e, u);
      }
    }
  }

  lemma {:induction false} InStoreBefore(cfg: Settings, s: State, e: Event, u: nat)
    requires Inv(s) && u in s.born && u in Next(cfg, s, e).w.store
    ensures u in s.w.store
  {
    if e.Processed? && s.w.next < |s.w.items| {
      ProcessStep(cfg, s.w, s.w.next, e.a);
    }
  }

  /** The Job of that name is there after every event from `n` on, up to `k`. */
  ghost predicate Kept(cfg: Settings, events: seq<Event>, n: nat, k: nat, job: Bytes)
    requires k <= |events|
  {
    forall i :: n < i <= k ==> job in At(cfg, events, i).w.jobs
  }

  /** At time `k` no Job of another Failover has the name exactly if none had it when `f`
      began at event `n`, or the Job was missing at some time since. */
  ghost predicate OwnedExactly(cfg: Settings, events: seq<Event>, n: nat, k: nat, f: Failover)
    requires n < k <= |events|
  {
    OwnOrNone(cfg, At(cfg, events, k).w, f) <==>
      OwnOrNone(cfg, At(cfg, events, n).w, f) || !Kept(cfg, events, n, k, cfg.jobName(f.name))
  }

  /** While a Failover executes, its Job is another's exactly as long as it is the one
      that was there when it began. */
  lemma {:induction false} OwnedExactlyWhen(cfg: Settings, events: seq<Event>, n: nat, k: nat, u: nat)
    requires LetThrough(cfg, events, n, u) && n < k <= |events|
    requires u in At(cfg, events, k).w.store && At(cfg, events, k).w.store[u].status.phase == Executing
    requires Apart(cfg, At(cfg, events, n).w.store[u].name)
    ensures OwnedExactly(cfg, events, n, k, At(cfg, events, n).w.store[u])
    decreases k
  {
    if k == n + 1 {
      OwnedFirst(cfg, events, n, u);
    } else {
      ExecutesBefore(cfg, events, n, k, u);
      OwnedExactlyWhen(cfg, events, n, k - 1, u);
      OwnedLater(cfg, events, n, k, u);
    }
  }

  lemma {:induction false} OwnedLater(cfg: Settings, events: seq<Event>, n: nat, k: nat, u: nat)
    requires LetThrough(cfg, events, n, u) && n + 1 < k <= |events|
    requires u in At(cfg, events, k - 1).w.store && At(cfg, events, k - 1).w.store[u].status.phase == Executing
    requires u in At(cfg, events, k).w.store
    requires Apart(cfg, At(cfg, events, n).w.store[u].name)
    requires OwnedExactly(cfg, events, n, k - 1, At(cfg, events, n).w.store[u])
    ensures OwnedExactly(cfg, events, n, k, At(cfg, events, n).w.store[u])
  {
    OwnedFirst(cfg, events, n, u);
    NameFrom(cfg, events, n, k - 1, u);
    AtNext(cfg, events, k - 1);
    OwnersReached(cfg, events[..k - 1]);
    OwnedStep(cfg, events, n, k, u, At(cfg, events, n).w.store[u]);
  }

  lemma {:induction false} OwnedFirst(cfg: Settings, events: seq<Event>, n: nat, u: nat)
    requires LetThrough(cfg, events, n, u)
    ensures u in At(cfg, events, n).w.store && u in At(cfg, events, n + 1).w.store
    ensures At(cfg, events, n + 1).w.store[u].name == At(cfg, events, n).w.store[u].name
    ensures At(cfg, events, n + 1).w.store[u].status.phase == Executing && At(cfg, events, n).w.store[u].uid == u
    ensures OwnedExactly(cfg, events, n, n + 1, At(cfg, events, n).w.store[u])
  {
    var s, e := At(cfg, events, n), events[n];
    AtNext(cfg, events, n);
    assert Enters(cfg, s, e, Next(cfg, s, e), u);
    EnteringTakesTheJob(cfg, s, e, u);
    assert s.w.store[u].uid == u;
  }

  /** A Failover that executes later than it began has executed all the time. */
  lemma {:induction false} ExecutesBefore(cfg: Settings, events: seq<Event>, n: nat, k: nat, u: nat)
    requires LetThrough(cfg, events, n, u) && n + 1 < k <= |events|
    requires u in At(cfg, events, k).w.store && At(cfg, events, k).w.store[u].status.phase == Executing
    ensures u in At(cfg, events, k - 1).w.store && At(cfg, events, k - 1).w.store[u].status.phase == Executing
    ensures At(cfg, events, k).w.store[u].name == At(cfg, events, k - 1).w.store[u].name
  {
    OwnedFirst(cfg, events, n, u);
    NeverNewAgain(cfg, events, n + 1, k - 1, u);
    AtNext(cfg, events, k - 1);
    ExecutedAlready(cfg, At(cfg, events, k - 1), events[k - 1], u);
  }

  lemma {:induction false} ExecutedAlready(cfg: Settings, s: State, e: Event, u: nat)
    requires Inv(s) && u in s.born && (u in s.w.store ==> s.w.store[u].status.phase != New)
    requires u in Next(cfg, s, e).w.store && Next(cfg, s, e).w.store[u].status.phase == Executing
    ensures u in s.w.store && s.w.store[u].status.phase == Executing
    ensures s.w.store[u].name == Next(cfg, s, e).w.store[u].name
  {
    InStoreBefore(cfg, s, e, u);
    StoredMoves(cfg, s, e, u);
  }

  /** It keeps its name. */
  lemma {:induction false} NameFrom(cfg: Settings, events: seq<Event>, n: nat, k: nat, u: nat)
    requires LetThrough(cfg, events, n, u) && n < k <= |events|
    requires u in At(cfg, events, k).w.store && At(cfg, events, k).w.store[u].status.phase == Executing
    ensures At(cfg, events, k).w.store[u].name == At(cfg, events, n).w.store[u].name
    decreases k
  {
    OwnedFirst(cfg, events, n, u);
    if k > n + 1 {
      ExecutesBefore(cfg, events, n, k, u);
      NameFrom(cfg, events, n, k - 1, u);
    }
  }

  /** One event more: the Job is still nobody else's, or it is missing now. */
  lemma {:induction false} OwnedNext(cfg: Settings, s: State, e: Event, u: nat, f: Failover)
    requires OwnersInv(s) && u in s.w.store && u in Next(cfg, s, e).w.store && s.w.store[u].status.phase != New
    requires f.uid == u && f.name == s.w.store[u].name && Apart(cfg, f.name)
    ensures var r := Next(cfg, s, e).w;
            OwnOrNone(cfg, r, f) <==> OwnOrNone(cfg, s.w, f) || cfg.jobName(f.name) !in r.jobs
  {
    var job := cfg.jobName(f.name);
    assert s.w.store[u].uid == u;
    if OwnOrNone(cfg, s.w, f) {
      OwnOrNoneStays(cfg, s, e, u);
    } else if job in Next(cfg, s, e).w.jobs {
      OwnerStays(cfg, s, e, job);
    }
  }

  lemma {:induction false} OwnedStep(cfg: Settings, events: seq<Event>, n: nat, k: nat, u: nat, f: Failover)
    requires n + 1 < k <= |events| && f.uid == u && Apart(cfg, f.name) && OwnedExactly(cfg, events, n, k - 1, f)
    requires OwnersInv(At(cfg, events, k - 1)) && At(cfg, events, k) == Next(cfg, At(cfg, events, k - 1), events[k - 1])
    requires u in At(cfg, events, k - 1).w.store && u in At(cfg, events, k).w.store
    requires At(cfg, events, k - 1).w.store[u].name == f.name && At(cfg, events, k - 1).w.store[u].status.phase != New
    ensures OwnedExactly(cfg, events, n, k, f)
  {
    OwnedNext(cfg, At(cfg, events, k - 1), events[k - 1], u, f);
    KeptLonger(cfg, events, n, k, cfg.jobName(f.name));
  }

  lemma {:induction false} KeptLonger(cfg: Settings, events: seq<Event>, n: nat, k: nat, job: Bytes)
    requires n + 1 < k <= |events|
    ensures Kept(cfg, events, n, k, job) <==> Kept(cfg, events, n, k - 1, job) && job in At(cfg, events, k).w.jobs
    ensures Kept(cfg, events, n, k - 1, job) ==> job in At(cfg, events, k - 1).w.jobs
  {
  }

  /** Event `d` of the run ends Failover `u` as Done, which began at event `n`: from a
      Job of its name that had succeeded. It is its own Execute's exactly if no other
      Failover's Job of that name was there when it began, or the Job was missing since. */
  ghost predicate EndsFrom(cfg: Settings, events: seq<Event>, n: nat, d: nat, u: nat) {
    && n < d < |events| && LetThrough(cfg, events, n, u)
    && var s, t, r := At(cfg, events, n), At(cfg, events, d), At(cfg, events, d + 1);
       && u in s.w.store && u in t.w.store && u in r.w.store
       && t.w.store[u].status.phase == Executing && r.w.store[u].status.phase == Done
       && var f := s.w.store[u];
          var job := cfg.jobName(f.name);
          && job in t.w.jobs && t.w.jobs[job].state == Succeeded
          && (t.w.jobs[job].madeFor == u <==> OwnOrNone(cfg, s.w, f) || !Kept(cfg, events, n, d, job))
          && (t.w.jobs[job].madeFor == u ==> t.w.jobs[job].action == ExecuteAction)
  }

  lemma {:induction false} EndsNow(cfg: Settings, events: seq<Event>, n: nat, d: nat, u: nat)
    requires n < d < |events| && LetThrough(cfg, events, n, u) && Apart(cfg, At(cfg, events, n).w.store[u].name)
    requires u in At(cfg, events, d).w.store && u in At(cfg, events, d + 1).w.store
    requires At(cfg, events, d).w.store[u].status.phase != Done
    requires At(cfg, events, d + 1).w.store[u].status.phase == Done
    ensures EndsFrom(cfg, events, n, d, u)
  {
    AtNext(cfg, events, d);
    DoneNeedsAJob(cfg, At(cfg, events, d), events[d], u);
    NameFrom(cfg, events, n, d, u);
    OwnedExactlyWhen(cfg, events, n, d, u);
    var t := At(cfg, events, d);
    OwnersReached(cfg, events[..d]);
    var job := cfg.jobName(t.w.store[u].name);
    assert t.w.store[u].uid == u && Good(t.w.store[u]);
    assert t.w.jobs[job].madeFor == u ==> t.w.jobs[job].action == t.w.store[u].spec.action;
  }

  /** A Failover that executes after `k` events was let through by one of them. */
  lemma {:induction false} BeganBefore(cfg: Settings, events: seq<Event>, k: nat, u: nat) returns (n: nat)
    requires k <= |events| && u in At(cfg, events, k).w.store && At(cfg, events, k).w.store[u].status.phase == Executing
    ensures n < k && LetThrough(cfg, events, n, u)
  {
    var front := events[..k];
    ExecutedOnlyBehindTheGate(cfg, front, u);
    n :| LetThrough(cfg, front, n, u);
    assert front[..n] == events[..n] && front[..n + 1] == events[..n + 1];
  }

  lemma {:induction false} DoneBy(cfg: Settings, events: seq<Event>, k: nat, u: nat)
    requires k <= |events| && u in At(cfg, events, k).w.store && At(cfg, events, k).w.store[u].status.phase == Done
    requires Apart(cfg, At(cfg, events, k).w.store[u].name)
    ensures exists n: nat, d: nat :: EndsFrom(cfg, events, n, d, u)
    decreases k
  {
    if k > 0 {
      AtNext(cfg, events, k - 1);
      var s, e := At(cfg, events, k - 1), events[k - 1];
      ExecutesAfter(cfg, s, e, u);
      StoredMoves(cfg, s, e, u);
      if s.w.store[u].status.phase == Done {
        DoneBy(cfg, events, k - 1, u);
      } else {
        DoneNeedsAJob(cfg, s, e, u);
        var n := BeganBefore(cfg, events, k - 1, u);
        NameFrom(cfg, events, n, k - 1, u);
        EndsNow(cfg, events, n, k - 1, u);
      }
    }
  }

  /** Over every run: a Failover that is Done began at some event and ended at a later
      one, from a Job of its name that had succeeded. The Job was its own Execute's exactly
      if no Job of that name from another Failover was there when it began, or that Job
      was removed before the end. */
  lemma {:induction false} DoneFromWhichJob(cfg: Settings, events: seq<Event>, u: nat)
    requires u in Reached(cfg, events).w.store && Reached(cfg, events).w.store[u].status.phase == Done
    requires Apart(cfg, Reached(cfg, events).w.store[u].name)
    ensures exists n: nat, d: nat :: EndsFrom(cfg, events, n, d, u)
  {
    assert events[..|events|] == events;
    DoneBy(cfg, events, |events|, u);
  }
}
