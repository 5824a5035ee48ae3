/** The failover controller as an object that its methods change in place, proved
  against the steps and runs of `ControllerSteps` and `ControllerRuns`.
 */
module Controller {
  import opened Order
  import opened Common
  import opened Job
  import opened Gate
  import opened ControllerSteps
  import opened ControllerRuns

  /** The events of a pass over items that get these answers. */
  function PassEvents(answers: seq<Answers>): (r: seq<Event>)
    ensures |r| == |answers|
  {
    seq(|answers|, k requires 0 <= k < |answers| => Processed(answers[k]))
  }

  class FailoverController {
    const cfg: Settings
    var store: map<nat, Failover>
    var jobs: map<Bytes, RunningJob>
    var items: seq<Failover>
    var next: nat
    var lost: set<nat>
    ghost var born: set<nat>

    ghost function View(): (w: World)
      reads this
    {
      World(store, jobs, items, next, lost)
    }

    ghost predicate Valid()
      reads this
    {
      Inv(State(View(), born))
    }

    constructor (cfg: Settings)
      ensures this.cfg == cfg && View() == START.w && born == {} && Valid()
    {
      this.cfg := cfg;
      store, jobs, items, next, lost, born := map[], map[], [], 0, {}, {};
      new;
      StartInv();
      assert State(View(), born) == START;
    }

    method Update(i: nat, f: Failover, a: Answers)
      requires i < |items|
      modifies this`store, this`items, this`lost
      ensures View() == Save(old(View()), i, f, a)
    {
      items := items[i := f];
      if a.update != Lost && f.uid in store {
        store := store[f.uid := f];
      } else {
        lost := lost + {f.uid};
      }
    }

    method Cleanup(f: Failover, a: Answers)
      modifies this`jobs
      ensures jobs == if a.cleanupOk then old(jobs) - {cfg.jobName(f.name)} else old(jobs)
    {
      if a.cleanupOk {
        jobs := jobs - {cfg.jobName(f.name)};
      }
    }

    method UpdateAndClean(i: nat, f: Failover, a: Answers)
      requires i < |items|
      modifies this`store, this`items, this`lost, this`jobs
      ensures View() == SaveAndClean(cfg, old(View()), i, f, a)
    {
      var known := a.update == Applied && f.uid in store;
      Update(i, f, a);
      if known {
        Cleanup(f, a);
      }
    }

    method Fail(i: nat, f: Failover, a: Answers)
      requires i < |items|
      modifies this`store, this`items, this`lost, this`jobs
      ensures View() == FailAt(cfg, old(View()), i, f, a)
      ensures f == old(items[i]).(status := f.status) ==>
                Ends(cfg, old(View()), View(), i, a) && items[i].status.phase == Failed
    {
      if f == items[i].(status := f.status) {
        SaveEnds(cfg, View(), i, f.(status := f.status.(phase := Failed, finishedAt := Some(a.now))), a);
      }
      UpdateAndClean(i, f.(status := f.status.(phase := Failed, finishedAt := Some(a.now))), a);
    }

    method Start(i: nat, a: Answers, plan: Option<Failover>)
      requires i < |items|
      modifies this`store, this`items, this`lost, this`jobs
      ensures View() == StartAt(cfg, old(View()), i, a, plan)
    {
      var f := items[i];
      var job := cfg.jobName(f.name);
      if job !in jobs {
        if !a.createOk {
          return;
        }
        jobs := jobs[job := RunningJob(f.spec.action, plan, Running, f.uid)];
      }
      Update(i, f.(status := f.status.(
        phase := if f.spec.action == ExecuteAction then Executing else Planning,
        source := EffectiveSource(f, cfg.defaultSource),
        startedAt := if f.status.startedAt.None? then Some(a.now) else f.status.startedAt)), a);
    }

    /** Checks a new Failover and starts its Job. */
    method Begin(i: nat, a: Answers)
      requires i < |items|
      modifies this`store, this`items, this`lost, this`jobs
      ensures View() == BeginAt(cfg, old(View()), i, a)
      ensures Began(cfg, old(View()), View(), i, a)
    {
      BeginMeans(cfg, View(), i, a);
      var f := items[i];
      if EffectiveSource(f, cfg.defaultSource) == [] || !cfg.hasImage || BasePathOf(f.spec).None?
         || a.claim == ClaimMissing {
        Fail(i, f, a);
        return;
      }
      if a.claim == ClaimError {
        return;
      }
      if f.spec.action != ExecuteAction {
        Start(i, a, None);
        return;
      }
      if f.spec.drPool == [] {
        Fail(i, f, a);
        return;
      }
      var found := FindPlan(items, f, cfg.defaultSource, a.gateNow);
      ChoiceIsFound(items, f, cfg.defaultSource, a.gateNow, if found.Ok? then Some(found.value) else None);
      if found.Err? || a.failedOver || !a.addressOk {
        Fail(i, f, a);
        return;
      }
      if !a.marshalOk {
        return;
      }
      Start(i, a, Some(items[found.value]));
    }

    /** The end of a Failover whose Job succeeded: what its message says decides which. */
    method Finish(i: nat, a: Answers)
      requires i < |items|
      modifies this`store, this`items, this`lost, this`jobs
      ensures View() == FinishAt(cfg, old(View()), i, a)
      ensures Ends(cfg, old(View()), View(), i, a) && FinishedAs(old(items[i]), items[i], a)
    {
      FinishEnds(cfg, View(), i, a);
      var f := items[i];
      if !a.message.Reported? {
        Fail(i, f, a);
        return;
      }
      var told := f.(status := f.status.(vms := a.message.vms, volumes := a.message.volumes));
      if f.spec.action == ExecuteAction && !a.objectsOk {
        Fail(i, told, a);
        return;
      }
      var phase := if f.spec.action == ExecuteAction then Done else Planned;
      UpdateAndClean(i, told.(status := told.status.(phase := phase, finishedAt := Some(a.now))), a);
    }

    /** A running Failover: what becomes of it depends on the state of its Job. */
    method Check(i: nat, a: Answers)
      requires i < |items|
      modifies this`store, this`items, this`lost, this`jobs
      ensures View() == CheckAt(cfg, old(View()), i, a)
      ensures Checked(cfg, old(View()), View(), i, a)
    {
      CheckMeans(cfg, View(), i, a);
      var job := cfg.jobName(items[i].name);
      if !a.jobReadOk {
        return;
      }
      if job !in jobs {
        Begin(i, a);
        return;
      }
      match jobs[job].state
      case Succeeded => Finish(i, a);
      case Broken => Fail(i, items[i], a);
      case Running =>
    }

    /** The switch on the phase of the next item. */
    method Reconcile(a: Answers)
      requires next < |items|
      modifies this`store, this`items, this`lost, this`jobs
      ensures View() == ProcessAt(cfg, old(View()), next, a)
    {
      match items[next].status.phase
      case New => Begin(next, a);
      case Planning => Check(next, a);
      case Executing => Check(next, a);
      case _ =>
    }

    method ProcessNext(a: Answers)
      requires Valid() && next < |items|
      modifies this
      ensures Valid() && born == old(born) && next == old(next) + 1 && |items| == old(|items|)
      ensures State(View(), born) == Next(cfg, old(State(View(), born)), Processed(a))
    {
      NextKeeps(cfg, State(View(), born), Processed(a));
      ProcessStep(cfg, View(), next, a);
      Reconcile(a);
      next := next + 1;
    }

    /** One pass over the list that was read: exactly the events that the runs are
        made of, so all that holds over runs holds of passes. */
    method ProcessOnce(order: seq<Failover>, answers: seq<Answers>)
      requires Valid() && next == |items| && Uids(order, store) && |answers| == |order|
      modifies this
      ensures Valid() && next == |items| && born == old(born)
      ensures State(View(), born) == After(cfg, old(State(View(), born)), [Listed(order)] + PassEvents(answers))
    {
      NextKeeps(cfg, State(View(), born), Listed(order));
      items, next, lost := order, 0, {};
      RunPass(answers);
      assert ([Listed(order)] + PassEvents(answers))[1..] == PassEvents(answers);
    }

    /** The loop over the listed Failovers. */
    method RunPass(answers: seq<Answers>)
      requires Valid() && next == 0 && |answers| == |items|
      modifies this
      ensures Valid() && next == |items| && born == old(born)
      ensures State(View(), born) == After(cfg, old(State(View(), born)), PassEvents(answers))
    {
      ghost var listed := State(View(), born);
      assert PassEvents(answers[..0]) == [];
      while next < |items|
        invariant |items| == |answers| && next <= |items| && Valid() && born == old(born)
        invariant State(View(), born) == After(cfg, listed, PassEvents(answers[..next]))
        decreases |items| - next
      {
        var a := answers[next];
        assert PassEvents(answers[..next + 1]) == PassEvents(answers[..next]) + [Processed(a)];
        AfterAppend(cfg, listed, PassEvents(answers[..next]), Processed(a));
        ProcessNext(a);
      }
      assert answers[..next] == answers;
    }
  }
}
