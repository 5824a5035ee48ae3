/** Every run of the failover controller: passes in any number, with lost updates,
  Jobs that end or are removed, and Failovers that come and go between any two
  steps.
 */
module ControllerRuns {
  import opened Order
  import opened Common
  import opened Job
  import opened Gate
  import opened ControllerSteps

  datatype Event =
    | Created(f: Failover)
    | Deleted(uid: nat)
    | JobEnds(job: Bytes, ok: bool)
    | JobRemoved(job: Bytes)
    | Listed(order: seq<Failover>)
    | Processed(a: Answers)

  /** `born` are the UIDs ever given: the API server never gives one twice. */
  datatype State = State(w: World, born: set<nat>)

  ghost predicate Uids(items: seq<Failover>, store: map<nat, Failover>) {
    && (forall j, k :: 0 <= j < k < |items| ==> items[j].uid != items[k].uid)
    && (forall k :: 0 <= k < |items| ==> items[k].uid in store && store[items[k].uid] == items[k])
    && (forall u :: u in store ==> store[u] in items)
  }

  predicate Newborn(f: Failover) {
    f.status.phase == New && f.status.finishedAt.None?
  }

  /** The API server keeps one Failover of a name at a time. */
  ghost predicate NameTaken(store: map<nat, Failover>, name: Bytes) {
    exists u :: u in store && store[u].name == name
  }

  /** One event. An event that cannot happen now changes nothing. */
  ghost function Next(cfg: Settings, s: State, e: Event): (r: State) {
    var w := s.w;
    match e
    case Created(f) =>
      if f.uid in s.born || !Newborn(f) || NameTaken(w.store, f.name) then s
      else State(w.(store := w.store[f.uid := f]), s.born + {f.uid})
    case Deleted(uid) => s.(w := w.(store := w.store - {uid}))
    case JobEnds(job, ok) =>
      if job in w.jobs && w.jobs[job].state == Running
      then s.(w := w.(jobs := w.jobs[job := w.jobs[job].(state := if ok then Succeeded else Broken)])) else s
    case JobRemoved(job) => s.(w := w.(jobs := w.jobs - {job}))
    case Listed(order) =>
      if w.next == |w.items| && Uids(order, w.store) then s.(w := w.(items := order, next := 0, lost := {})) else s
    case Processed(a) =>
      if w.next < |w.items| then
        s.(w := ProcessAt(cfg, w, w.next, a).(next := w.next + 1))
      else s
  }

  // ---- the invariant ----

  ghost predicate StoreOk(store: map<nat, Failover>, born: set<nat>) {
    forall u :: u in store ==> u in born && store[u].uid == u && Good(store[u])
  }

  ghost predicate ItemsOk(items: seq<Failover>, born: set<nat>) {
    && (forall k :: 0 <= k < |items| ==> items[k].uid in born && Good(items[k]))
    && (forall j, k :: 0 <= j < k < |items| ==> items[j].uid != items[k].uid)
  }

  /** What the pass sees of one Failover is what is stored, except where this pass
      lost its update; an end that was lost is not stored. */
  ghost predicate InStepAt(store: map<nat, Failover>, lost: set<nat>, f: Failover) {
    f.uid in store ==>
      && (f.uid !in lost ==> store[f.uid] == f)
      && (f.uid in lost && Terminal(f.status.phase) ==> !Terminal(store[f.uid].status.phase))
  }

  ghost predicate InStep(w: World) {
    && w.next <= |w.items|
    && (forall k :: 0 <= k < |w.items| ==> InStepAt(w.store, w.lost, w.items[k]))
    && (forall k :: w.next <= k < |w.items| ==> w.items[k].uid !in w.lost)
  }

  ghost predicate Inv(s: State) {
    StoreOk(s.w.store, s.born) && ItemsOk(s.w.items, s.born) && InStep(s.w)
  }

  lemma {:induction false} StepInStep(cfg: Settings, w: World, r: World, i: nat, gateNow: Instant, k: nat)
    requires i < |w.items| && k < |w.items| && StepOn(cfg, w, r, i, gateNow) && !Terminal(w.items[i].status.phase)
    requires InStepAt(w.store, w.lost, w.items[k]) && w.items[i].uid !in w.lost && InStepAt(w.store, w.lost, w.items[i])
    requires k != i ==> w.items[k].uid != w.items[i].uid
    ensures InStepAt(r.store, r.lost, r.items[k])
  {
    if k != i {
      assert r.items[k] == w.items[k];
    }
  }

  lemma {:induction false} StepGood(cfg: Settings, w: World, r: World, i: nat, gateNow: Instant, born: set<nat>)
    requires i < |w.items| && StepOn(cfg, w, r, i, gateNow) && StoreOk(w.store, born) && ItemsOk(w.items, born)
    ensures StoreOk(r.store, born) && ItemsOk(r.items, born)
  {
    assert forall k :: 0 <= k < |w.items| && k != i ==> r.items[k] == w.items[k];
  }

  lemma {:induction false} ProcessedKeeps(cfg: Settings, s: State, a: Answers)
    requires Inv(s) && s.w.next < |s.w.items|
    ensures Inv(Next(cfg, s, Processed(a)))
  {
    var w, i := s.w, s.w.next;
    var r := ProcessAt(cfg, w, i, a);
    ProcessStep(cfg, w, i, a);
    StepGood(cfg, w, r, i, a.gateNow, s.born);
    forall k | 0 <= k < |r.items| ensures InStepAt(r.store, r.lost, r.items[k]) {
      if !Terminal(w.items[i].status.phase) {
        StepInStep(cfg, w, r, i, a.gateNow, k);
      }
    }
    forall k | i + 1 <= k < |r.items| ensures r.items[k].uid !in r.lost {
      assert r.items[k] == w.items[k] && w.items[k].uid !in w.lost && w.items[k].uid != w.items[i].uid;
    }
  }

  lemma {:induction false} NextKeeps(cfg: Settings, s: State, e: Event)
    requires Inv(s)
    ensures Inv(Next(cfg, s, e))
  {
    if e.Processed? && s.w.next < |s.w.items| {
      ProcessedKeeps(cfg, s, e.a);
    } else if e.Listed? && s.w.next == |s.w.items| && Uids(e.order, s.w.store) {
      forall k | 0 <= k < |e.order| ensures e.order[k].uid in s.born && Good(e.order[k]) {
        assert e.order[k].uid in s.w.store;
      }
    } else if e.Created? && e.f.uid !in s.born {
      assert forall k :: 0 <= k < |s.w.items| ==> s.w.items[k].uid != e.f.uid;
    }
  }

  ghost function After(cfg: Settings, s: State, events: seq<Event>): (r: State)
    requires Inv(s)
    ensures Inv(r)
    decreases |events|
  {
    if events == [] then s
    else
      NextKeeps(cfg, s, events[0]);
      After(cfg, Next(cfg, s, events[0]), events[1..])
  }

  const START := State(World(map[], map[], [], 0, {}), {})

  // ---- one event ----

  /** An ended Failover is left as it is, and a phase moves only as the machine allows. */
  lemma {:induction false} StoredMoves(cfg: Settings, s: State, e: Event, u: nat)
    requires Inv(s) && u in s.w.store && u in Next(cfg, s, e).w.store
    ensures Moved(s.w.store[u], Next(cfg, s, e).w.store[u])
  {
    var w := s.w;
    if e.Processed? && w.next < |w.items| {
      ProcessStep(cfg, w, w.next, e.a);
      var f := w.items[w.next];
      if u == f.uid {
        assert w.store[u] == f;
      }
    } else if e.Created? {
      assert u in s.born;
    }
  }

  /** A Failover starts to execute only in a pass that lists a Plan it may rely on. */
  lemma {:induction false} ExecutingNeedsAPlan(cfg: Settings, s: State, e: Event, u: nat)
    requires Inv(s) && u in s.w.store && u in Next(cfg, s, e).w.store
    requires s.w.store[u].status.phase != Executing && Next(cfg, s, e).w.store[u].status.phase == Executing
    ensures e.Processed? && exists p :: p in s.w.items && RealPlanFor(cfg, p, s.w.store[u], e.a.gateNow)
  {
    var w := s.w;
    if e.Processed? && w.next < |w.items| {
      ProcessStep(cfg, w, w.next, e.a);
      var f := w.items[w.next];
      if u == f.uid {
        assert w.store[u] == f;
        var p :| p in w.items && Eligible(p, f, cfg.defaultSource, e.a.gateNow);
        StartedBase(cfg, w, w.next, e.a);
        ListedPlanIsReal(cfg, s, p, f, e.a.gateNow);
      }
    }
  }

  /** An Execute's Job is made only behind the gate, also when a removed Job is made again. */
  lemma {:induction false} ExecuteJobNeedsAPlan(cfg: Settings, s: State, e: Event, n: Bytes)
    requires Inv(s) && n !in s.w.jobs && n in Next(cfg, s, e).w.jobs
    requires Next(cfg, s, e).w.jobs[n].action == ExecuteAction
    ensures e.Processed? && s.w.next < |s.w.items|
    ensures var f := s.w.items[s.w.next];
            var job := Next(cfg, s, e).w.jobs[n];
            && n == cfg.jobName(f.name) && f.spec.action == ExecuteAction
            && job.plan.Some? && job.plan.value in s.w.items && RealPlanFor(cfg, job.plan.value, f, e.a.gateNow)
  {
    var w := s.w;
    assert e.Processed? && w.next < |w.items|;
    ProcessStep(cfg, w, w.next, e.a);
    var f := w.items[w.next];
    var job := Next(cfg, s, e).w.jobs[n];
    assert Backed(cfg, w, f, job.plan, e.a.gateNow);
    StartedBase(cfg, w, w.next, e.a);
    ListedPlanIsReal(cfg, s, job.plan.value, f, e.a.gateNow);
  }

  /** An eligible Plan whose base path, like the Execute's, is a real one. */
  ghost predicate RealPlanFor(cfg: Settings, p: Failover, f: Failover, now: Instant) {
    && Eligible(p, f, cfg.defaultSource, now)
    && BasePathOf(p.spec).Some? && BasePathOf(p.spec) == BasePathOf(f.spec)
  }

  lemma {:induction false} ListedPlanIsReal(cfg: Settings, s: State, p: Failover, f: Failover, now: Instant)
    requires ItemsOk(s.w.items, s.born) && p in s.w.items && Eligible(p, f, cfg.defaultSource, now)
    requires BasePathOf(f.spec).Some?
    ensures RealPlanFor(cfg, p, f, now)
  {
    var k :| 0 <= k < |s.w.items| && s.w.items[k] == p;
    assert Good(p);
  }

  /** A step that starts a Job, or enters Executing, has checked the base path. */
  lemma {:induction false} StartedBase(cfg: Settings, w: World, i: nat, a: Answers)
    requires i < |w.items|
    ensures var r := ProcessAt(cfg, w, i, a);
            BasePathOf(w.items[i].spec).None? ==>
              && r.jobs.Keys <= w.jobs.Keys
              && |r.items| == |w.items|
              && (r.items[i].status.phase == Executing ==> w.items[i].status.phase == Executing)
  {
  }

  // ---- whole runs ----

  lemma {:induction false} StartInv()
    ensures Inv(START)
  {
    var s := START;
    assert s.w.store == map[] && s.w.items == [];
  }

  ghost function Reached(cfg: Settings, events: seq<Event>): (s: State)
    ensures Inv(s)
  {
    StartInv();
    After(cfg, START, events)
  }

  lemma {:induction false} AfterAppend(cfg: Settings, s: State, events: seq<Event>, e: Event)
    requires Inv(s)
    ensures After(cfg, s, events + [e]) == Next(cfg, After(cfg, s, events), e)
    decreases |events|
  {
    if events == [] {
      assert (events + [e])[1..] == [];
      NextKeeps(cfg, s, e);
    } else {
      NextKeeps(cfg, s, events[0]);
      AfterAppend(cfg, Next(cfg, s, events[0]), events[1..], e);
      assert (events + [e])[1..] == events[1..] + [e];
    }
  }

  /** In every reachable state a finish time is set exactly in the ended phases,
      and the phase fits the action. */
  lemma {:induction false} StatusIsConsistent(cfg: Settings, events: seq<Event>, u: nat)
    requires u in Reached(cfg, events).w.store
    ensures var f := Reached(cfg, events).w.store[u];
            && (Terminal(f.status.phase) <==> f.status.finishedAt.Some?)
            && (f.status.phase == Done ==> f.spec.action == ExecuteAction)
            && (f.status.phase == Planned ==> f.spec.action != ExecuteAction)
  {
    assert Good(Reached(cfg, events).w.store[u]);
  }

  lemma {:induction false} GoneForEver(cfg: Settings, s: State, events: seq<Event>, u: nat)
    requires Inv(s) && u in s.born && u !in s.w.store
    ensures u !in After(cfg, s, events).w.store
    decreases |events|
  {
    if events != [] {
      var e := events[0];
      NextKeeps(cfg, s, e);
      if e.Processed? && s.w.next < |s.w.items| {
        ProcessStep(cfg, s.w, s.w.next, e.a);
      }
      GoneForEver(cfg, Next(cfg, s, e), events[1..], u);
    }
  }

  /** Planned, Done and Failed are never left: from any reachable state, whatever
      follows, an ended Failover is still the same as long as it exists. */
  lemma {:induction false} EndedForEver(cfg: Settings, s: State, events: seq<Event>, u: nat)
    requires Inv(s) && u in s.w.store && Terminal(s.w.store[u].status.phase)
    ensures u in After(cfg, s, events).w.store ==> After(cfg, s, events).w.store[u] == s.w.store[u]
    decreases |events|
  {
    if events != [] {
      var r := Next(cfg, s, events[0]);
      NextKeeps(cfg, s, events[0]);
      if u in r.w.store {
        StoredMoves(cfg, s, events[0], u);
        EndedForEver(cfg, r, events[1..], u);
      } else {
        BornStays(cfg, s, events[0], u);
        GoneForEver(cfg, r, events[1..], u);
      }
    }
  }

  lemma {:induction false} BornStays(cfg: Settings, s: State, e: Event, u: nat)
    requires u in s.born
    ensures u in Next(cfg, s, e).born
  {
  }

  /** An event in which `u` enters Executing, let through the gate. */
  ghost predicate Enters(cfg: Settings, s: State, e: Event, r: State, u: nat) {
    && e.Processed?
    && u in s.w.store && s.w.store[u].status.phase != Executing
    && u in r.w.store && r.w.store[u].status.phase == Executing
    && exists p :: p in s.w.items && RealPlanFor(cfg, p, s.w.store[u], e.a.gateNow)
  }

  /** Event `n` of the run is the one in which `u` was let through. */
  ghost predicate LetThrough(cfg: Settings, events: seq<Event>, n: nat, u: nat) {
    n < |events| && Enters(cfg, Reached(cfg, events[..n]), events[n], Reached(cfg, events[..n + 1]), u)
  }

  lemma {:induction false} LetThroughBefore(cfg: Settings, front: seq<Event>, e: Event, n: nat, u: nat)
    requires LetThrough(cfg, front, n, u)
    ensures LetThrough(cfg, front + [e], n, u)
  {
    var events := front + [e];
    assert front[..n] == events[..n] && front[..n + 1] == events[..n + 1];
  }

  lemma {:induction false} LetThroughNow(cfg: Settings, front: seq<Event>, e: Event, u: nat)
    requires Enters(cfg, Reached(cfg, front), e, Reached(cfg, front + [e]), u)
    ensures LetThrough(cfg, front + [e], |front|, u)
  {
    var events := front + [e];
    assert events[..|front|] == front && events[..|front| + 1] == events;
  }

  /** A Failover is Executing or Done after an event only if it was before, or the
      event let it through. */
  lemma {:induction false} ExecutesAfter(cfg: Settings, s: State, e: Event, u: nat)
    requires Inv(s) && u in Next(cfg, s, e).w.store
    requires Next(cfg, s, e).w.store[u].status.phase == Executing || Next(cfg, s, e).w.store[u].status.phase == Done
    ensures u in s.w.store
    ensures || s.w.store[u].status.phase == Executing || s.w.store[u].status.phase == Done
            || Enters(cfg, s, e, Next(cfg, s, e), u)
  {
    if e.Processed? && s.w.next < |s.w.items| {
      ProcessStep(cfg, s.w, s.w.next, e.a);
    }
    StoredMoves(cfg, s, e, u);
    if s.w.store[u].status.phase != Executing && s.w.store[u].status.phase != Done {
      ExecutingNeedsAPlan(cfg, s, e, u);
    }
  }

  /** Over every run: a Failover that executes, or is done, entered Executing at
      some event, in a pass that listed a finished Plan for the same source, second
      of rewind, VMs and base path, at most 15 minutes old. */
  lemma {:induction false} ExecutedOnlyBehindTheGate(cfg: Settings, events: seq<Event>, u: nat)
    requires u in Reached(cfg, events).w.store
    requires var phase := Reached(cfg, events).w.store[u].status.phase;
             phase == Executing || phase == Done
    ensures exists n: nat :: LetThrough(cfg, events, n, u)
    decreases |events|
  {
    if events != [] {
      var front, e := events[..|events| - 1], events[|events| - 1];
      assert events == front + [e];
      StartInv();
      AfterAppend(cfg, START, front, e);
      ExecutesAfter(cfg, Reached(cfg, front), e, u);
      if Enters(cfg, Reached(cfg, front), e, Reached(cfg, front + [e]), u) {
        LetThroughNow(cfg, front, e, u);
      } else {
        ExecutedOnlyBehindTheGate(cfg, front, u);
        var n: nat :| LetThrough(cfg, front, n, u);
        LetThroughBefore(cfg, front, e, n, u);
      }
    }
  }

  // ---- the list and the store ----

  /** The Plan behind an Execute's Job was seen as finished. It is stored as it was seen
      exactly if this very pass did not lose its update, as long as it is stored at all. */
  lemma {:induction false} PlanIsStoredUnlessLost(cfg: Settings, s: State, e: Event, n: Bytes)
    requires Inv(s) && n !in s.w.jobs && n in Next(cfg, s, e).w.jobs
    requires Next(cfg, s, e).w.jobs[n].action == ExecuteAction
    ensures var job := Next(cfg, s, e).w.jobs[n];
            && job.plan.Some?
            && var p := job.plan.value;
               && p.status.phase == Planned
               && (p.uid in s.w.store ==> (s.w.store[p.uid] == p <==> p.uid !in s.w.lost))
  {
    ExecuteJobNeedsAPlan(cfg, s, e, n);
    var p := Next(cfg, s, e).w.jobs[n].plan.value;
    var k :| 0 <= k < |s.w.items| && s.w.items[k] == p;
  }

  /** And the exception is real: when the update of a Plan is lost, an Execute
      after it in the list is let through all the same, while the stored Plan is
      not finished. */
  lemma {:induction false} LostPlanOpensTheGate(cfg: Settings, s: State, plan: Failover, exec: Failover, a: Answers,
                                                b: Answers)
    requires Inv(s) && s.w.next == 0 && s.w.items == [plan, exec] && cfg.hasImage
    requires plan.spec.action == PlanAction && plan.status.phase == Planning && plan.uid in s.w.store
    requires a.jobReadOk && a.message.Reported? && a.update == Lost
    requires cfg.jobName(plan.name) in s.w.jobs && s.w.jobs[cfg.jobName(plan.name)].state == Succeeded
    requires exec.spec == plan.spec.(action := ExecuteAction, drPool := exec.spec.drPool) && exec.spec.drPool != []
    requires exec.status.phase == New
    requires EffectiveSource(exec, cfg.defaultSource) == EffectiveSource(plan, cfg.defaultSource) != []
    requires cfg.jobName(exec.name) !in s.w.jobs
    requires b.claim == ClaimFound && !b.failedOver && b.addressOk && b.marshalOk && b.createOk && b.gateNow == a.now
    ensures var r := Next(cfg, Next(cfg, s, Processed(a)), Processed(b));
            && cfg.jobName(exec.name) in r.w.jobs && r.w.jobs[cfg.jobName(exec.name)].action == ExecuteAction
            && plan.uid in r.w.store && r.w.store[plan.uid].status.phase == Planning
  {
    var told := Told(plan, a);
    LostPlanIsSeen(cfg, s, plan, exec, a, told);
    var m := Next(cfg, s, Processed(a));
    assert Good(plan) by { assert s.w.items[0] == plan; }
    assert told in m.w.items;
    ExecuteStarts(cfg, m.w, 1, b, told);
    assert exec.uid != plan.uid by { assert s.w.items[0].uid != s.w.items[1].uid; }
    assert s.w.store[plan.uid] == plan by { assert InStepAt(s.w.store, s.w.lost, s.w.items[0]); }
  }

  /** The Plan as its pass sees it once its Job has reported. */
  function Told(plan: Failover, a: Answers): (r: Failover)
    requires a.message.Reported?
  {
    plan.(status := plan.status.(vms := a.message.vms, volumes := a.message.volumes, phase := Planned,
                                 finishedAt := Some(a.now)))
  }

  lemma {:induction false} LostPlanIsSeen(cfg: Settings, s: State, plan: Failover, exec: Failover, a: Answers,
                                          told: Failover)
    requires s.w.next == 0 && s.w.items == [plan, exec]
    requires plan.spec.action == PlanAction && plan.status.phase == Planning
    requires a.jobReadOk && a.message.Reported? && a.update == Lost
    requires cfg.jobName(plan.name) in s.w.jobs && s.w.jobs[cfg.jobName(plan.name)].state == Succeeded
    requires told == Told(plan, a)
    ensures var m := Next(cfg, s, Processed(a)).w;
            m.items == [told, exec] && m.next == 1 && m.store == s.w.store && m.jobs == s.w.jobs
  {
    assert s.w.items[0] == plan;
    assert s.w.items[0 := told] == [told, exec];
  }
}
