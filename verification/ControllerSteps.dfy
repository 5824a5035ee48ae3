/** One pass of the failover controller, step by step.

  The pass works on the list it read: a status it sets there is seen by the rest
  of the pass, even if the update of the stored object is lost. What the API
  server, the clock and the Job's pod answer is an input.
 */
module ControllerSteps {
  import opened Order
  import opened Common
  import opened Job
  import opened Gate

  datatype Settings = Settings(defaultSource: Bytes, hasImage: bool, jobName: Bytes -> Bytes)

  datatype JobState = Running | Succeeded | Broken

  /** A Job. An Execute's Job carries the Plan that its expectation was built from.
      `madeFor` is the Failover it was made for; the source's Job does not say, and no
      step reads it. */
  datatype RunningJob = RunningJob(action: Action, plan: Option<Failover>, state: JobState, madeFor: nat)

  datatype ClaimAnswer = ClaimFound | ClaimMissing | ClaimError

  /** How a status update ends: stored, not stored, or stored although the call failed. */
  datatype UpdateAnswer = Applied | Lost | AppliedUnseen

  /** What the Job's pod left. */
  datatype PodMessage = Unreadable | ErrorText | NoReport | Reported(vms: seq<VMReport>, volumes: seq<VolumeReport>)

  datatype Answers = Answers(claim: ClaimAnswer, gateNow: Instant, failedOver: bool, addressOk: bool, marshalOk: bool,
                             createOk: bool, jobReadOk: bool, message: PodMessage, objectsOk: bool,
                             now: Instant, update: UpdateAnswer, cleanupOk: bool)

  /** The stored Failovers by UID, the Jobs by name, and the pass: the list it
      read, how far it is, and whose updates it lost. */
  datatype World = World(store: map<nat, Failover>, jobs: map<Bytes, RunningJob>,
                         items: seq<Failover>, next: nat, lost: set<nat>)

  predicate Terminal(p: Phase) {
    p == Planned || p == Done || p == Failed
  }

  // ---- the controller's functions ----

  predicate Stored(w: World, f: Failover, a: Answers) {
    a.update != Lost && f.uid in w.store
  }

  /** Sets the status in the list, and in the store unless the update is lost. */
  function Save(w: World, i: nat, f: Failover, a: Answers): (r: World)
    requires i < |w.items|
  {
    if Stored(w, f, a) then w.(items := w.items[i := f], store := w.store[f.uid := f])
    else w.(items := w.items[i := f], lost := w.lost + {f.uid})
  }

  /** The Job is removed only after an update that is known to have worked. */
  function SaveAndClean(cfg: Settings, w: World, i: nat, f: Failover, a: Answers): (r: World)
    requires i < |w.items|
  {
    var s := Save(w, i, f, a);
    if a.update == Applied && f.uid in w.store && a.cleanupOk then s.(jobs := s.jobs - {cfg.jobName(f.name)}) else s
  }

  function FailAt(cfg: Settings, w: World, i: nat, f: Failover, a: Answers): (r: World)
    requires i < |w.items|
  {
    SaveAndClean(cfg, w, i, f.(status := f.status.(phase := Failed, finishedAt := Some(a.now))), a)
  }

  function StartAt(cfg: Settings, w: World, i: nat, a: Answers, plan: Option<Failover>): (r: World)
    requires i < |w.items|
  {
    var f := w.items[i];
    var job := cfg.jobName(f.name);
    if job !in w.jobs && !a.createOk then w
    else
      var s := if job in w.jobs then w else w.(jobs := w.jobs[job := RunningJob(f.spec.action, plan, Running, f.uid)]);
      var started := f.(status := f.status.(
        phase := if f.spec.action == ExecuteAction then Executing else Planning,
        source := EffectiveSource(f, cfg.defaultSource),
        startedAt := if f.status.startedAt.None? then Some(a.now) else f.status.startedAt));
      Save(s, i, started, a)
  }

  ghost function BeginAt(cfg: Settings, w: World, i: nat, a: Answers): (r: World)
    requires i < |w.items|
  {
    var f := w.items[i];
    if EffectiveSource(f, cfg.defaultSource) == [] || !cfg.hasImage || BasePathOf(f.spec).None?
    then FailAt(cfg, w, i, f, a)
    else if a.claim == ClaimMissing then FailAt(cfg, w, i, f, a)
    else if a.claim == ClaimError then w
    else if f.spec.action != ExecuteAction then StartAt(cfg, w, i, a, None)
    else
      var choice := Choice(w.items, f, cfg.defaultSource, a.gateNow);
      if f.spec.drPool == [] || choice.None? || a.failedOver || !a.addressOk then FailAt(cfg, w, i, f, a)
      else if !a.marshalOk then w
      else StartAt(cfg, w, i, a, Some(w.items[choice.value]))
  }

  function FinishAt(cfg: Settings, w: World, i: nat, a: Answers): (r: World)
    requires i < |w.items|
  {
    var f := w.items[i];
    match a.message
    case Reported(vms, volumes) =>
      var told := f.(status := f.status.(vms := vms, volumes := volumes));
      if f.spec.action == ExecuteAction && !a.objectsOk then FailAt(cfg, w, i, told, a)
      else
        SaveAndClean(cfg, w, i,
          told.(status := told.status.(phase := if f.spec.action == ExecuteAction then Done else Planned,
                                       finishedAt := Some(a.now))), a)
    case _ => FailAt(cfg, w, i, f, a)
  }

  ghost function CheckAt(cfg: Settings, w: World, i: nat, a: Answers): (r: World)
    requires i < |w.items|
  {
    var job := cfg.jobName(w.items[i].name);
    if !a.jobReadOk then w
    else if job !in w.jobs then BeginAt(cfg, w, i, a)
    else match w.jobs[job].state
      case Succeeded => FinishAt(cfg, w, i, a)
      case Broken => FailAt(cfg, w, i, w.items[i], a)
      case Running => w
  }

  ghost function ProcessAt(cfg: Settings, w: World, i: nat, a: Answers): (r: World)
    requires i < |w.items|
  {
    match w.items[i].status.phase
    case New => BeginAt(cfg, w, i, a)
    case Planning => CheckAt(cfg, w, i, a)
    case Executing => CheckAt(cfg, w, i, a)
    case _ => w
  }

  // ---- what a step may do to one Failover ----

  /** What is true of every Failover, stored or listed. */
  ghost predicate Good(f: Failover) {
    && (Terminal(f.status.phase) <==> f.status.finishedAt.Some?)
    && (f.status.phase == Planning || f.status.phase == Planned ==> f.spec.action != ExecuteAction)
    && (f.status.phase == Executing || f.status.phase == Done ==> f.spec.action == ExecuteAction)
    && (f.status.phase != New && f.status.phase != Failed ==> BasePathOf(f.spec).Some?)
  }

  /** The moves of the phase machine. */
  predicate Moves(a: Phase, b: Phase) {
    || a == b
    || (a == New && (b == Planning || b == Executing || b == Failed))
    || (a == Planning && (b == Planned || b == Failed))
    || (a == Executing && (b == Done || b == Failed))
  }

  /** The Failover keeps its identity and its spec, and moves as the machine allows. */
  ghost predicate Moved(f: Failover, g: Failover) {
    && g == f.(status := g.status) && Good(g)
    && Moves(f.status.phase, g.status.phase)
    && (Terminal(f.status.phase) ==> g == f)
  }

  /** The list, the store and the Jobs after a step on item `i`. */
  ghost predicate StepOn(cfg: Settings, w: World, r: World, i: nat, gateNow: Instant)
    requires i < |w.items|
  {
    && |r.items| == |w.items| && r.next == w.next
    && var f := w.items[i];
       var g := r.items[i];
       && r.items == w.items[i := g]
       && Moved(f, g)
       && (|| (r.store == w.store && r.lost == w.lost && g == f)
           || (r.store == w.store && r.lost == w.lost + {f.uid})
           || (f.uid in w.store && r.store == w.store[f.uid := g] && r.lost == w.lost))
       && JobsStep(cfg, w, r, f, gateNow)
       && (g.status.phase == Executing && f.status.phase != Executing ==>
             exists p :: p in w.items && Eligible(p, f, cfg.defaultSource, gateNow))
  }

  /** A Job that appears is this Failover's, new, and an Execute's was let through
      by the gate. */
  ghost predicate JobsStep(cfg: Settings, w: World, r: World, f: Failover, gateNow: Instant) {
    && (forall n :: n in r.jobs && n in w.jobs ==> r.jobs[n] == w.jobs[n])
    && (forall n :: n in r.jobs && n !in w.jobs ==>
          && n == cfg.jobName(f.name) && r.jobs[n].action == f.spec.action && r.jobs[n].state == Running
          && r.jobs[n].madeFor == f.uid
          && (f.spec.action == ExecuteAction ==> Backed(cfg, w, f, r.jobs[n].plan, gateNow)))
  }

  /** The Plan is in the list as it is now, and the Execute may rely on it. */
  ghost predicate Backed(cfg: Settings, w: World, f: Failover, plan: Option<Failover>, gateNow: Instant) {
    plan.Some? && plan.value in w.items && Eligible(plan.value, f, cfg.defaultSource, gateNow)
  }

  /** Saving an allowed move, and removing the Job after it, is a step. */
  lemma {:induction false} SaveStep(cfg: Settings, w: World, i: nat, g: Failover, a: Answers)
    requires i < |w.items| && Moved(w.items[i], g)
    requires (g.status.phase == Executing ==> w.items[i].status.phase == Executing)
    ensures StepOn(cfg, w, SaveAndClean(cfg, w, i, g, a), i, a.gateNow)
  {
  }

  lemma {:induction false} FailStep(cfg: Settings, w: World, i: nat, f: Failover, a: Answers)
    requires i < |w.items| && !Terminal(w.items[i].status.phase)
    requires f == w.items[i].(status := f.status) && f.status.phase == w.items[i].status.phase
    ensures StepOn(cfg, w, FailAt(cfg, w, i, f, a), i, a.gateNow)
  {
    SaveStep(cfg, w, i, f.(status := f.status.(phase := Failed, finishedAt := Some(a.now))), a);
  }

  /** The Failover has ended. Its Job goes only once that is known to be stored, so a
      lost update leaves the Job to be looked at again; no other Job is touched. */
  ghost predicate Ends(cfg: Settings, w: World, r: World, i: nat, a: Answers)
    requires i < |w.items|
  {
    && |r.items| == |w.items|
    && Terminal(r.items[i].status.phase) && r.items[i].status.finishedAt == Some(a.now)
    && r.items[i] == w.items[i].(status := r.items[i].status)
    && (forall n :: n in r.jobs ==> n in w.jobs && r.jobs[n] == w.jobs[n])
    && (forall n :: n in w.jobs && n !in r.jobs ==>
          && n == cfg.jobName(w.items[i].name)
          && w.items[i].uid in r.store && r.store[w.items[i].uid] == r.items[i])
    && (a.update == Applied && a.cleanupOk && w.items[i].uid in w.store ==> cfg.jobName(w.items[i].name) !in r.jobs)
  }

  lemma {:induction false} SaveEnds(cfg: Settings, w: World, i: nat, g: Failover, a: Answers)
    requires i < |w.items| && g == w.items[i].(status := g.status)
    requires Terminal(g.status.phase) && g.status.finishedAt == Some(a.now)
    ensures Ends(cfg, w, SaveAndClean(cfg, w, i, g, a), i, a)
  {
  }

  /** How a Job that succeeded ends its Failover. */
  ghost predicate FinishedAs(f: Failover, g: Failover, a: Answers) {
    && (g.status.phase == Done <==> f.spec.action == ExecuteAction && a.message.Reported? && a.objectsOk)
    && (g.status.phase == Planned <==> f.spec.action != ExecuteAction && a.message.Reported?)
    && (a.message.Reported? ==> g.status.vms == a.message.vms && g.status.volumes == a.message.volumes)
  }

  lemma {:induction false} FinishEnds(cfg: Settings, w: World, i: nat, a: Answers)
    requires i < |w.items|
    ensures var r := FinishAt(cfg, w, i, a);
            Ends(cfg, w, r, i, a) && FinishedAs(w.items[i], r.items[i], a)
  {
    var f := w.items[i];
    var failed := f.status.(phase := Failed, finishedAt := Some(a.now));
    if a.message.Reported? {
      var told := f.(status := f.status.(vms := a.message.vms, volumes := a.message.volumes));
      if f.spec.action == ExecuteAction && !a.objectsOk {
        SaveEnds(cfg, w, i, told.(status := told.status.(phase := Failed, finishedAt := Some(a.now))), a);
      } else {
        var phase := if f.spec.action == ExecuteAction then Done else Planned;
        SaveEnds(cfg, w, i, told.(status := told.status.(phase := phase, finishedAt := Some(a.now))), a);
      }
    } else {
      SaveEnds(cfg, w, i, f.(status := failed), a);
    }
  }

  // ---- what beginning does ----

  /** A Plan that the Execute may rely on is in the list. */
  ghost predicate HasPlan(cfg: Settings, w: World, f: Failover, a: Answers) {
    exists p :: p in w.items && Eligible(p, f, cfg.defaultSource, a.gateNow)
  }

  /** The checks before a Job say no, for good. */
  ghost predicate Refused(cfg: Settings, w: World, f: Failover, a: Answers) {
    || EffectiveSource(f, cfg.defaultSource) == [] || !cfg.hasImage || BasePathOf(f.spec).None?
    || a.claim == ClaimMissing
    || (a.claim == ClaimFound && f.spec.action == ExecuteAction
        && (f.spec.drPool == [] || !HasPlan(cfg, w, f, a) || a.failedOver || !a.addressOk))
  }

  /** The checks, or the making of the Job, could not be carried out this time. */
  predicate Postponed(cfg: Settings, w: World, f: Failover, a: Answers) {
    || a.claim == ClaimError
    || (f.spec.action == ExecuteAction && !a.marshalOk)
    || (cfg.jobName(f.name) !in w.jobs && !a.createOk)
  }

  /** The Failover runs: a Job of its name is there, made for it unless there was one, and
      no other Job has changed. */
  ghost predicate Started(cfg: Settings, w: World, r: World, i: nat, a: Answers)
    requires i < |w.items|
  {
    var f, n := w.items[i], cfg.jobName(w.items[i].name);
    && |r.items| == |w.items| && r.items[i] == f.(status := r.items[i].status)
    && r.items[i].status.phase == (if f.spec.action == ExecuteAction then Executing else Planning)
    && r.items[i].status.source == (if f.status.source != [] then f.status.source
                                    else if f.spec.source != [] then f.spec.source else cfg.defaultSource)
    && r.items[i].status.startedAt == (if f.status.startedAt.Some? then f.status.startedAt else Some(a.now))
    && (f.uid in w.store && a.update != Lost ==> f.uid in r.store && r.store[f.uid] == r.items[i])
    && r.jobs.Keys == w.jobs.Keys + {n} && (forall j :: j in w.jobs ==> r.jobs[j] == w.jobs[j])
    && (n !in w.jobs ==>
          r.jobs[n].madeFor == f.uid && r.jobs[n].action == f.spec.action && r.jobs[n].state == Running)
  }

  /** What beginning does: it ends the Failover if the checks refuse it, it leaves everything
      for another time if they cannot be carried out, and otherwise it starts the Job. */
  ghost predicate Began(cfg: Settings, w: World, r: World, i: nat, a: Answers)
    requires i < |w.items|
  {
    var f := w.items[i];
    if Refused(cfg, w, f, a) then Ends(cfg, w, r, i, a) && r.items[i].status.phase == Failed
    else if Postponed(cfg, w, f, a) then r == w
    else Started(cfg, w, r, i, a) && r.items[i].status.source != []
  }

  lemma {:induction false} StartMeans(cfg: Settings, w: World, i: nat, a: Answers, plan: Option<Failover>)
    requires i < |w.items|
    ensures var r := StartAt(cfg, w, i, a, plan);
            if cfg.jobName(w.items[i].name) !in w.jobs && !a.createOk then r == w else Started(cfg, w, r, i, a)
  {
  }

  /** Beginning is failing, waiting or starting a Job, as the checks say. */
  lemma {:induction false} BeginIs(cfg: Settings, w: World, i: nat, a: Answers)
    requires i < |w.items|
    ensures var f := w.items[i];
            if Refused(cfg, w, f, a) then BeginAt(cfg, w, i, a) == FailAt(cfg, w, i, f, a)
            else if a.claim == ClaimError || (f.spec.action == ExecuteAction && !a.marshalOk)
            then BeginAt(cfg, w, i, a) == w
            else exists plan :: BeginAt(cfg, w, i, a) == StartAt(cfg, w, i, a, plan)
  {
    var f := w.items[i];
    GateRefuses(w.items, f, cfg.defaultSource, a.gateNow);
    var choice := Choice(w.items, f, cfg.defaultSource, a.gateNow);
    assert choice.Some? <==> HasPlan(cfg, w, f, a);
    if f.spec.action != ExecuteAction {
      assert BeginAt(cfg, w, i, a) != StartAt(cfg, w, i, a, None) ==> Refused(cfg, w, f, a) || a.claim == ClaimError;
    } else if choice.Some? && a.marshalOk {
      var plan := Some(w.items[choice.value]);
      assert BeginAt(cfg, w, i, a) != StartAt(cfg, w, i, a, plan) ==> Refused(cfg, w, f, a) || a.claim == ClaimError;
    }
  }

  lemma {:induction false} BeginMeans(cfg: Settings, w: World, i: nat, a: Answers)
    requires i < |w.items|
    ensures Began(cfg, w, BeginAt(cfg, w, i, a), i, a)
  {
    var f := w.items[i];
    BeginIs(cfg, w, i, a);
    if Refused(cfg, w, f, a) {
      SaveEnds(cfg, w, i, f.(status := f.status.(phase := Failed, finishedAt := Some(a.now))), a);
    } else if !(a.claim == ClaimError || (f.spec.action == ExecuteAction && !a.marshalOk)) {
      var plan :| BeginAt(cfg, w, i, a) == StartAt(cfg, w, i, a, plan);
      StartMeans(cfg, w, i, a, plan);
    }
  }

  /** What a look at the Job does: nothing while it runs or cannot be read, an end once
      it has ended, and for a Job that is gone the checks of a new Failover. */
  ghost predicate Checked(cfg: Settings, w: World, r: World, i: nat, a: Answers)
    requires i < |w.items|
  {
    var n := cfg.jobName(w.items[i].name);
    && (!a.jobReadOk || (n in w.jobs && w.jobs[n].state == Running) ==> r == w)
    && (a.jobReadOk && n in w.jobs && w.jobs[n].state == Succeeded ==>
          Ends(cfg, w, r, i, a) && FinishedAs(w.items[i], r.items[i], a))
    && (a.jobReadOk && n in w.jobs && w.jobs[n].state == Broken ==>
          Ends(cfg, w, r, i, a) && r.items[i].status.phase == Failed)
    && (a.jobReadOk && n !in w.jobs ==> Began(cfg, w, r, i, a))
    && (Good(w.items[i]) && (w.items[i].status.phase == Planning || w.items[i].status.phase == Executing) ==>
          StepOn(cfg, w, r, i, a.gateNow))
  }

  lemma {:induction false} CheckStep(cfg: Settings, w: World, i: nat, a: Answers)
    requires i < |w.items| && Good(w.items[i])
    requires w.items[i].status.phase == Planning || w.items[i].status.phase == Executing
    ensures StepOn(cfg, w, CheckAt(cfg, w, i, a), i, a.gateNow)
  {
    var f := w.items[i];
    var n := cfg.jobName(f.name);
    assert w.items[i := f] == w.items;
    if a.jobReadOk {
      if n !in w.jobs {
        BeginStep(cfg, w, i, a);
      } else if w.jobs[n].state == Succeeded {
        FinishStep(cfg, w, i, a);
      } else if w.jobs[n].state == Broken {
        FailStep(cfg, w, i, f, a);
      }
    }
  }

  lemma {:induction false} CheckMeans(cfg: Settings, w: World, i: nat, a: Answers)
    requires i < |w.items|
    ensures Checked(cfg, w, CheckAt(cfg, w, i, a), i, a)
  {
    var f, n := w.items[i], cfg.jobName(w.items[i].name);
    if Good(f) && (f.status.phase == Planning || f.status.phase == Executing) {
      CheckStep(cfg, w, i, a);
    }
    if a.jobReadOk {
      if n !in w.jobs {
        BeginMeans(cfg, w, i, a);
      } else if w.jobs[n].state == Succeeded {
        FinishEnds(cfg, w, i, a);
      } else if w.jobs[n].state == Broken {
        SaveEnds(cfg, w, i, f.(status := f.status.(phase := Failed, finishedAt := Some(a.now))), a);
      }
    }
  }

  lemma {:induction false} StartStep(cfg: Settings, w: World, i: nat, a: Answers, plan: Option<Failover>)
    requires i < |w.items| && Good(w.items[i]) && !Terminal(w.items[i].status.phase)
    requires BasePathOf(w.items[i].spec).Some?
    requires w.items[i].spec.action == ExecuteAction ==> Backed(cfg, w, w.items[i], plan, a.gateNow)
    ensures StepOn(cfg, w, StartAt(cfg, w, i, a, plan), i, a.gateNow)
  {
  }

  /** A Job for the Plan that the gate chose starts behind the gate. */
  lemma {:induction false} GatedStep(cfg: Settings, w: World, i: nat, a: Answers)
    requires i < |w.items| && Good(w.items[i]) && !Terminal(w.items[i].status.phase)
    requires BasePathOf(w.items[i].spec).Some?
    requires Choice(w.items, w.items[i], cfg.defaultSource, a.gateNow).Some?
    ensures var b := Choice(w.items, w.items[i], cfg.defaultSource, a.gateNow).value;
            StepOn(cfg, w, StartAt(cfg, w, i, a, Some(w.items[b])), i, a.gateNow)
  {
    var f := w.items[i];
    var b := Choice(w.items, f, cfg.defaultSource, a.gateNow).value;
    GateMeaning(w.items, f, cfg.defaultSource, a.gateNow, b);
    assert w.items[b] in w.items;
    StartStep(cfg, w, i, a, Some(w.items[b]));
  }

  lemma {:induction false} BeginStep(cfg: Settings, w: World, i: nat, a: Answers)
    requires i < |w.items| && Good(w.items[i]) && !Terminal(w.items[i].status.phase)
    ensures StepOn(cfg, w, BeginAt(cfg, w, i, a), i, a.gateNow)
  {
    var f := w.items[i];
    FailStep(cfg, w, i, f, a);
    assert w.items[i := f] == w.items;
    if BasePathOf(f.spec).Some? {
      if f.spec.action != ExecuteAction {
        StartStep(cfg, w, i, a, None);
      } else if Choice(w.items, f, cfg.defaultSource, a.gateNow).Some? {
        GatedStep(cfg, w, i, a);
      }
    }
  }

  /** Nothing but the gate stands in the way of an Execute. */
  predicate Unhindered(cfg: Settings, f: Failover, a: Answers) {
    && f.spec.action == ExecuteAction && f.spec.drPool != [] && cfg.hasImage
    && EffectiveSource(f, cfg.defaultSource) != [] && BasePathOf(f.spec).Some?
    && a.claim == ClaimFound && !a.failedOver && a.addressOk && a.marshalOk && a.createOk
  }

  lemma {:induction false} ExecuteStarts(cfg: Settings, w: World, i: nat, a: Answers, p: Failover)
    requires i < |w.items| && Unhindered(cfg, w.items[i], a)
    requires p in w.items && Eligible(p, w.items[i], cfg.defaultSource, a.gateNow)
    ensures exists plan :: BeginAt(cfg, w, i, a) == StartAt(cfg, w, i, a, plan)
  {
    var f := w.items[i];
    GateOpens(w.items, f, cfg.defaultSource, a.gateNow, p);
    var choice := Choice(w.items, f, cfg.defaultSource, a.gateNow);
    assert BeginAt(cfg, w, i, a) == StartAt(cfg, w, i, a, Some(w.items[choice.value]));
  }

  lemma {:induction false} FinishStep(cfg: Settings, w: World, i: nat, a: Answers)
    requires i < |w.items| && Good(w.items[i])
    requires w.items[i].status.phase == Planning || w.items[i].status.phase == Executing
    ensures StepOn(cfg, w, FinishAt(cfg, w, i, a), i, a.gateNow)
  {
    var f := w.items[i];
    if a.message.Reported? {
      var told := f.(status := f.status.(vms := a.message.vms, volumes := a.message.volumes));
      if f.spec.action == ExecuteAction && !a.objectsOk {
        FailStep(cfg, w, i, told, a);
      } else {
        var phase := if f.spec.action == ExecuteAction then Done else Planned;
        SaveStep(cfg, w, i, told.(status := told.status.(phase := phase, finishedAt := Some(a.now))), a);
      }
    } else {
      FailStep(cfg, w, i, f, a);
    }
  }

  /** What a pass does to one Failover depends on its phase alone: a new one is begun, a
      running one is looked at, an ended one is left. */
  lemma {:induction false} ProcessMeans(cfg: Settings, w: World, i: nat, a: Answers)
    requires i < |w.items|
    ensures var r := ProcessAt(cfg, w, i, a);
            match w.items[i].status.phase
            case New => Began(cfg, w, r, i, a)
            case Planning => Checked(cfg, w, r, i, a)
            case Executing => Checked(cfg, w, r, i, a)
            case _ => r == w
  {
    match w.items[i].status.phase
    case New => BeginMeans(cfg, w, i, a);
    case Planning => CheckMeans(cfg, w, i, a);
    case Executing => CheckMeans(cfg, w, i, a);
    case _ =>
  }

  /** Every step of a pass moves one Failover as the phase machine allows, and
      starts an Execute's Job only behind the gate. */
  lemma {:induction false} ProcessStep(cfg: Settings, w: World, i: nat, a: Answers)
    requires i < |w.items| && Good(w.items[i])
    ensures StepOn(cfg, w, ProcessAt(cfg, w, i, a), i, a.gateNow)
  {
    var f := w.items[i];
    assert w.items[i := f] == w.items;
    match f.status.phase
    case New => BeginStep(cfg, w, i, a);
    case Planning => CheckStep(cfg, w, i, a);
    case Executing => CheckStep(cfg, w, i, a);
    case _ =>
  }
}
