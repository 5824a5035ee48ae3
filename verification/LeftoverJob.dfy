/** A run from the very start in which an Execute ends as Done from a Plan's Job.

  A Plan `p` runs to its end. A Failover `q`, also a Plan, is deleted while its Job is
  there. An Execute `x` of the same name as `q` finds that Job, and ends with it.
 */
module LeftoverJob {
  import opened Order
  import opened Common
  import opened Job
  import opened Gate
  import opened ControllerSteps
  import opened ControllerRuns
  import opened JobOwners

  /** Who takes part, and what is answered when the Plans are begun (`a`), when a Job is
      looked at (`d`) and when the Execute is begun (`b`). */
  datatype Story = Story(cfg: Settings, p: Failover, q: Failover, x: Failover, a: Answers, d: Answers, b: Answers)

  /** Nothing stands in the way of a Plan. */
  predicate PlanUnhindered(cfg: Settings, f: Failover, a: Answers) {
    && f.spec.action == PlanAction && cfg.hasImage
    && EffectiveSource(f, cfg.defaultSource) != [] && BasePathOf(f.spec).Some?
    && a.claim == ClaimFound && a.createOk && a.update == Applied
  }

  ghost predicate Told(c: Story) {
    && Newborn(c.p) && Newborn(c.q) && Newborn(c.x)
    && c.p.uid != c.q.uid && c.p.uid != c.x.uid && c.q.uid != c.x.uid
    && c.q.name == c.x.name && c.p.name != c.x.name && c.cfg.jobName(c.p.name) != c.cfg.jobName(c.x.name)
    && PlanUnhindered(c.cfg, c.p, c.a) && PlanUnhindered(c.cfg, c.q, c.a)
    && c.d.jobReadOk && c.d.message.Reported? && c.d.objectsOk && c.d.update == Applied && c.d.cleanupOk
    && Unhindered(c.cfg, c.x, c.b) && c.b.update == Applied
    && Eligible(Ended(c, Begun(c, c.p, c.a)), c.x, c.cfg.defaultSource, c.b.gateNow)
  }

  // ---- the Failovers on their way ----

  function Begun(c: Story, f: Failover, a: Answers): (r: Failover) {
    f.(status := f.status.(
      phase := if f.spec.action == ExecuteAction then Executing else Planning,
      source := EffectiveSource(f, c.cfg.defaultSource),
      startedAt := if f.status.startedAt.None? then Some(a.now) else f.status.startedAt))
  }

  function Ended(c: Story, f: Failover): (r: Failover)
    requires c.d.message.Reported?
  {
    f.(status := f.status.(
      vms := c.d.message.vms, volumes := c.d.message.volumes,
      phase := if f.spec.action == ExecuteAction then Done else Planned, finishedAt := Some(c.d.now)))
  }

  function PlanJob(f: Failover, state: JobState): (r: RunningJob) {
    RunningJob(PlanAction, None, state, f.uid)
  }

  function P1(c: Story): (r: Failover) { Begun(c, c.p, c.a) }

  function Q1(c: Story): (r: Failover) { Begun(c, c.q, c.a) }

  function X1(c: Story): (r: Failover) { Begun(c, c.x, c.b) }

  function P2(c: Story): (r: Failover)
    requires c.d.message.Reported?
  {
    Ended(c, P1(c))
  }

  function X2(c: Story): (r: Failover)
    requires c.d.message.Reported?
  {
    Ended(c, X1(c))
  }

  // ---- the run ----

  function EventAt(c: Story, k: nat): (e: Event)
    requires c.d.message.Reported?
  {
    match k
    case 0 => Created(c.p)
    case 1 => Created(c.q)
    case 2 => Listed([c.p, c.q])
    case 3 => Processed(c.a)
    case 4 => Processed(c.a)
    case 5 => JobEnds(c.cfg.jobName(c.p.name), true)
    case 6 => JobEnds(c.cfg.jobName(c.x.name), true)
    case 7 => Deleted(c.q.uid)
    case 8 => Created(c.x)
    case 9 => Listed([P1(c), c.x])
    case 10 => Processed(c.d)
    case 11 => Processed(c.b)
    case 12 => Listed([P2(c), X1(c)])
    case 13 => Processed(c.d)
    case _ => Processed(c.d)
  }

  function StateAt(c: Story, k: nat): (s: State)
    requires c.d.message.Reported?
  {
    var p, q, x := c.p.uid, c.q.uid, c.x.uid;
    var jp, jx := c.cfg.jobName(c.p.name), c.cfg.jobName(c.x.name);
    var runP, runQ := PlanJob(c.p, Running), PlanJob(c.q, Running);
    var endP, endQ := PlanJob(c.p, Succeeded), PlanJob(c.q, Succeeded);
    match k
    case 0 => State(World(map[], map[], [], 0, {}), {})
    case 1 => State(World(map[p := c.p], map[], [], 0, {}), {p})
    case 2 => State(World(map[p := c.p, q := c.q], map[], [], 0, {}), {p, q})
    case 3 => State(World(map[p := c.p, q := c.q], map[], [c.p, c.q], 0, {}), {p, q})
    case 4 => State(World(map[p := P1(c), q := c.q], map[jp := runP], [P1(c), c.q], 1, {}), {p, q})
    case 5 => State(World(map[p := P1(c), q := Q1(c)], map[jp := runP, jx := runQ], [P1(c), Q1(c)], 2, {}), {p, q})
    case 6 => State(World(map[p := P1(c), q := Q1(c)], map[jp := endP, jx := runQ], [P1(c), Q1(c)], 2, {}), {p, q})
    case 7 => State(World(map[p := P1(c), q := Q1(c)], map[jp := endP, jx := endQ], [P1(c), Q1(c)], 2, {}), {p, q})
    case 8 => State(World(map[p := P1(c)], map[jp := endP, jx := endQ], [P1(c), Q1(c)], 2, {}), {p, q})
    case 9 => State(World(map[p := P1(c), x := c.x], map[jp := endP, jx := endQ], [P1(c), Q1(c)], 2, {}), {p, q, x})
    case 10 => State(World(map[p := P1(c), x := c.x], map[jp := endP, jx := endQ], [P1(c), c.x], 0, {}), {p, q, x})
    case 11 => State(World(map[p := P2(c), x := c.x], map[jx := endQ], [P2(c), c.x], 1, {}), {p, q, x})
    case 12 => State(World(map[p := P2(c), x := X1(c)], map[jx := endQ], [P2(c), X1(c)], 2, {}), {p, q, x})
    case 13 => State(World(map[p := P2(c), x := X1(c)], map[jx := endQ], [P2(c), X1(c)], 0, {}), {p, q, x})
    case 14 => State(World(map[p := P2(c), x := X1(c)], map[jx := endQ], [P2(c), X1(c)], 1, {}), {p, q, x})
    case _ => State(World(map[p := P2(c), x := X2(c)], map[], [P2(c), X2(c)], 2, {}), {p, q, x})
  }

  // ---- each event ----

  ghost predicate Steps(c: Story, k: nat)
    requires c.d.message.Reported?
  {
    Next(c.cfg, StateAt(c, k), EventAt(c, k)) == StateAt(c, k + 1)
  }

  lemma {:induction false} Created0(c: Story)
    requires Told(c)
    ensures Steps(c, 0) && Steps(c, 1)
  {
    assert StateAt(c, 1).w.store == StateAt(c, 0).w.store[c.p.uid := c.p];
    assert StateAt(c, 2).w.store == StateAt(c, 1).w.store[c.q.uid := c.q];
  }

  lemma {:induction false} Listed2(c: Story)
    requires Told(c)
    ensures Steps(c, 2)
  {
    assert Uids([c.p, c.q], StateAt(c, 2).w.store);
  }

  /** A Plan that nothing hinders gets its Job. */
  lemma {:induction false} PlanBegins(c: Story, s: State, f: Failover)
    requires s.w.next < |s.w.items| && s.w.items[s.w.next] == f && f.status.phase == New && f.uid in s.w.store
    requires PlanUnhindered(c.cfg, f, c.a) && c.cfg.jobName(f.name) !in s.w.jobs
    ensures Next(c.cfg, s, Processed(c.a)) ==
            s.(w := s.w.(items := s.w.items[s.w.next := Begun(c, f, c.a)],
                         store := s.w.store[f.uid := Begun(c, f, c.a)],
                         jobs := s.w.jobs[c.cfg.jobName(f.name) := PlanJob(f, Running)], next := s.w.next + 1))
  {
  }

  lemma {:induction false} Processed3(c: Story)
    requires Told(c)
    ensures Steps(c, 3)
  {
    PlanBegins(c, StateAt(c, 3), c.p);
    assert [c.p, c.q][0 := P1(c)] == [P1(c), c.q];
    assert StateAt(c, 4).w.store == StateAt(c, 3).w.store[c.p.uid := P1(c)];
    assert StateAt(c, 4).w.jobs == StateAt(c, 3).w.jobs[c.cfg.jobName(c.p.name) := PlanJob(c.p, Running)];
  }

  lemma {:induction false} Processed4(c: Story)
    requires Told(c)
    ensures Steps(c, 4)
  {
    PlanBegins(c, StateAt(c, 4), c.q);
    assert [P1(c), c.q][1 := Q1(c)] == [P1(c), Q1(c)];
    assert StateAt(c, 5).w.store == StateAt(c, 4).w.store[c.q.uid := Q1(c)];
    assert StateAt(c, 5).w.jobs == StateAt(c, 4).w.jobs[c.cfg.jobName(c.q.name) := PlanJob(c.q, Running)];
  }

  lemma {:induction false} JobsEnd5(c: Story)
    requires Told(c)
    ensures Steps(c, 5) && Steps(c, 6)
  {
    assert StateAt(c, 6).w.jobs == StateAt(c, 5).w.jobs[c.cfg.jobName(c.p.name) := PlanJob(c.p, Succeeded)];
    assert StateAt(c, 7).w.jobs == StateAt(c, 6).w.jobs[c.cfg.jobName(c.x.name) := PlanJob(c.q, Succeeded)];
  }

  lemma {:induction false} Replaced7(c: Story)
    requires Told(c)
    ensures Steps(c, 7) && Steps(c, 8)
  {
    assert StateAt(c, 8).w.store == StateAt(c, 7).w.store - {c.q.uid};
    assert !NameTaken(StateAt(c, 8).w.store, c.x.name);
    assert StateAt(c, 9).w.store == StateAt(c, 8).w.store[c.x.uid := c.x];
  }

  lemma {:induction false} Listed9(c: Story)
    requires Told(c)
    ensures Steps(c, 9)
  {
    assert Uids([P1(c), c.x], StateAt(c, 9).w.store);
  }

  /** A Failover whose Job has succeeded ends well, and its Job goes. */
  lemma {:induction false} Ends(c: Story, s: State, f: Failover)
    requires s.w.next < |s.w.items| && s.w.items[s.w.next] == f && f.uid in s.w.store
    requires f.status.phase == Planning || f.status.phase == Executing
    requires c.d.jobReadOk && c.d.message.Reported? && c.d.objectsOk && c.d.update == Applied && c.d.cleanupOk
    requires c.cfg.jobName(f.name) in s.w.jobs && s.w.jobs[c.cfg.jobName(f.name)].state == Succeeded
    ensures Next(c.cfg, s, Processed(c.d)) ==
            s.(w := s.w.(items := s.w.items[s.w.next := Ended(c, f)], store := s.w.store[f.uid := Ended(c, f)],
                         jobs := s.w.jobs - {c.cfg.jobName(f.name)}, next := s.w.next + 1))
  {
  }

  lemma {:induction false} Processed10(c: Story)
    requires Told(c)
    ensures Steps(c, 10)
  {
    Ends(c, StateAt(c, 10), P1(c));
    assert [P1(c), c.x][0 := P2(c)] == [P2(c), c.x];
    assert StateAt(c, 11).w.store == StateAt(c, 10).w.store[c.p.uid := P2(c)];
    assert StateAt(c, 11).w.jobs == StateAt(c, 10).w.jobs - {c.cfg.jobName(c.p.name)};
  }

  /** The Execute is let through by the Plan, and finds a Job of its name. */
  lemma {:induction false} TakesOver(c: Story, s: State, p: Failover)
    requires s.w.items == [p, c.x] && s.w.next == 1 && c.x.uid in s.w.store && c.x.status.phase == New
    requires Unhindered(c.cfg, c.x, c.b) && c.b.update == Applied && Eligible(p, c.x, c.cfg.defaultSource, c.b.gateNow)
    requires c.cfg.jobName(c.x.name) in s.w.jobs
    ensures Next(c.cfg, s, Processed(c.b)) ==
            s.(w := s.w.(items := [p, X1(c)], store := s.w.store[c.x.uid := X1(c)], next := 2))
  {
    assert s.w.items[1] == c.x;
    ExecuteStarts(c.cfg, s.w, 1, c.b, p);
    assert s.w.items[1 := X1(c)] == [p, X1(c)];
  }

  lemma {:induction false} Processed11(c: Story)
    requires Told(c)
    ensures Steps(c, 11)
  {
    TakesOver(c, StateAt(c, 11), P2(c));
    assert StateAt(c, 12).w.store == StateAt(c, 11).w.store[c.x.uid := X1(c)];
  }

  lemma {:induction false} Listed12(c: Story)
    requires Told(c)
    ensures Steps(c, 12)
  {
    assert Uids([P2(c), X1(c)], StateAt(c, 12).w.store);
  }

  /** The Plan has ended and is left as it is. */
  lemma {:induction false} Processed13(c: Story)
    requires Told(c)
    ensures Steps(c, 13)
  {
    assert StateAt(c, 13).w.items[0] == P2(c);
  }

  lemma {:induction false} Processed14(c: Story)
    requires Told(c)
    ensures Steps(c, 14)
  {
    Ends(c, StateAt(c, 14), X1(c));
    assert [P2(c), X1(c)][1 := X2(c)] == [P2(c), X2(c)];
    assert StateAt(c, 15).w.store == StateAt(c, 14).w.store[c.x.uid := X2(c)];
    assert StateAt(c, 15).w.jobs == StateAt(c, 14).w.jobs - {c.cfg.jobName(c.x.name)};
  }

  lemma {:induction false} EachSteps(c: Story, k: nat)
    requires Told(c) && k < 15
    ensures Steps(c, k)
  {
    if k <= 1 {
      Created0(c);
    } else if k == 2 {
      Listed2(c);
    } else if k == 3 {
      Processed3(c);
    } else if k == 4 {
      Processed4(c);
    } else if k <= 6 {
      JobsEnd5(c);
    } else if k <= 8 {
      Replaced7(c);
    } else if k == 9 {
      Listed9(c);
    } else if k == 10 {
      Processed10(c);
    } else if k == 11 {
      Processed11(c);
    } else if k == 12 {
      Listed12(c);
    } else if k == 13 {
      Processed13(c);
    } else {
      Processed14(c);
    }
  }

  // ---- the whole run ----

  function Events(c: Story): (events: seq<Event>)
    requires c.d.message.Reported?
  {
    seq(15, k requires 0 <= k < 15 => EventAt(c, k))
  }

  lemma {:induction false} StateIsReached(c: Story, k: nat)
    requires Told(c) && k <= 15
    ensures At(c.cfg, Events(c), k) == StateAt(c, k)
  {
    if k > 0 {
      StateIsReached(c, k - 1);
      EachSteps(c, k - 1);
      AtNext(c.cfg, Events(c), k - 1);
    } else {
      assert Events(c)[..0] == [];
    }
  }

  ghost predicate OnlyPlanJobs(w: World) {
    forall n :: n in w.jobs ==> w.jobs[n].action == PlanAction
  }

  lemma {:induction false} OnlyPlanJobsAt(c: Story, k: nat)
    requires c.d.message.Reported?
    ensures OnlyPlanJobs(StateAt(c, k).w)
  {
  }

  /** From the start, by ordinary events alone: the Execute is Done at the end, and at no
      time was there a Job other than a Plan's. */
  lemma {:induction false} PlanJobEndsAnExecute(c: Story)
    requires Told(c)
    ensures c.x.spec.action == ExecuteAction
    ensures c.x.uid in Reached(c.cfg, Events(c)).w.store
    ensures Reached(c.cfg, Events(c)).w.store[c.x.uid].status.phase == Done
    ensures forall k: nat :: k <= |Events(c)| ==> OnlyPlanJobs(At(c.cfg, Events(c), k).w)
  {
    assert Events(c)[..15] == Events(c);
    StateIsReached(c, 15);
    forall k: nat | k <= |Events(c)| ensures OnlyPlanJobs(At(c.cfg, Events(c), k).w) {
      StateIsReached(c, k);
      OnlyPlanJobsAt(c, k);
    }
  }

  /** There is such a story: the Jobs are named like their Failovers, and nothing fails. */
  lemma {:induction false} StoryExists()
    ensures exists c: Story :: Told(c)
  {
    var source: Bytes := [115];
    var status := Status(New, [], None, None, [], []);
    var plan := Spec(source, PlanAction, None, [], [], []);
    var answers := Answers(ClaimFound, 10, false, true, true, true, true, Reported([], []), true, 10, Applied, true);
    var p, q := Failover(1, [1], plan, status), Failover(2, [2], plan, status);
    var x := Failover(3, [2], plan.(action := ExecuteAction, drPool := [100]), status);
    var c := Story(Settings(source, true, n => n), p, q, x, answers, answers, answers);
    assert p.name[0] != x.name[0];
    assert Eligible(P2(c), x, source, 10);
    assert Told(c);
  }
}
