/** From a Plan to an Execute: what the Plan reports, the expectation built from
  that report, and the Job that refuses before it changes a disk.
 */
module Confirm {
  import opened Order
  import opened Common
  import opened VMPlan
  import opened Planner
  import opened FailoverPlan
  import opened Job
  import opened Outcome

  // ---- the report of a plan ----

  function VolumeOf(sv: SubVolume): (v: VolumeReport) {
    VolumeReport(sv.name, sv.claim, sv.namespace, sv.gb, sv.path, sv.uid, sv.gid, sv.perms, sv.policy, sv.lastSync)
  }

  function DiskMarks(disks: seq<SubVolume>): (r: seq<(Bytes, bool)>) {
    seq(|disks|, i requires 0 <= i < |disks| => (disks[i].name, disks[i].rewind))
  }

  /** Whole seconds, toward zero, as Go converts a duration. */
  function WholeSeconds(d: int): (r: int)
    ensures d >= 0 ==> r * SECOND <= d < r * SECOND + SECOND
    ensures d <= 0 ==> r * SECOND - SECOND < d <= r * SECOND
  {
    if d >= 0 then d / SECOND else -((-d) / SECOND)
  }

  /** `r` describes the plan: every volume in order, and every VM once, by name. */
  ghost predicate Describes(plan: seq<SubVolume>, rpo: int, moments: map<Bytes, seq<Instant>>, r: Report) {
    && r.rpoSeconds == WholeSeconds(rpo) && !r.truncated
    && |r.volumes| == |plan| && (forall i :: 0 <= i < |plan| ==> r.volumes[i] == VolumeOf(plan[i]))
    && (forall i, j :: 0 <= i < j < |r.vms| ==> Less(r.vms[i].name, r.vms[j].name))
    && (forall i :: 0 <= i < |r.vms| ==> DescribesVM(plan, moments, r.vms[i]))
    && (forall v :: v in VMNames(plan) ==> exists i :: 0 <= i < |r.vms| && r.vms[i].name == v)
  }

  ghost predicate DescribesVM(plan: seq<SubVolume>, moments: map<Bytes, seq<Instant>>, vm: VMReport) {
    && vm.name in VMNames(plan)
    && vm.moment == MomentOf(plan, vm.name)
    && vm.moments == (if vm.name in moments then moments[vm.name] else [])
    && vm.disks == DiskMarks(DisksOf(plan, vm.name))
  }

  method NewResult(plan: seq<SubVolume>, rpo: int, moments: map<Bytes, seq<Instant>>) returns (r: Report)
    ensures Describes(plan, rpo, moments, r)
  {
    var volumes: seq<VolumeReport> := [];
    for i := 0 to |plan|
      invariant |volumes| == i && forall k :: 0 <= k < i ==> volumes[k] == VolumeOf(plan[k])
    {
      volumes := volumes + [VolumeOf(plan[i])];
    }
    var names, disks := VmDisks(plan);
    var vms: seq<VMReport> := [];
    for i := 0 to |names|
      invariant |vms| == i
      invariant forall k :: 0 <= k < i ==> vms[k].name == names[k] && DescribesVM(plan, moments, vms[k])
    {
      var g := names[i];
      assert g in VMNames(plan);
      DisksOfVM(plan, g);
      var mine: seq<SubVolume> := disks[g];
      vms := vms + [VMReport(g, mine[0].moment, if g in moments then moments[g] else [], DiskMarks(mine))];
    }
    r := Report(WholeSeconds(rpo), vms, volumes, false);
    forall v | v in VMNames(plan) ensures exists i :: 0 <= i < |r.vms| && r.vms[i].name == v {
      var i :| 0 <= i < |names| && names[i] == v;
      assert r.vms[i].name == v;
    }
  }

  // ---- the expectation ----

  function VMMap(vms: seq<VMReport>): (r: map<Bytes, Instant>) {
    if vms == [] then map[] else VMMap(vms[..|vms| - 1])[vms[|vms| - 1].name := vms[|vms| - 1].moment]
  }

  function TargetMap(volumes: seq<VolumeReport>): (r: map<Bytes, Target>) {
    if volumes == [] then map[]
    else
      var v := volumes[|volumes| - 1];
      TargetMap(volumes[..|volumes| - 1])[v.name := Target(v.claim, v.namespace, v.path, v.uid, v.gid, v.perms)]
  }

  /** What an Execute must find, from what a Plan showed. */
  method ExpectationFromPlan(vms: seq<VMReport>, volumes: seq<VolumeReport>) returns (e: Expectation)
    ensures e.vms == VMMap(vms) && e.targets == Some(TargetMap(volumes))
    ensures |e.volumes| == |volumes| && forall i :: 0 <= i < |volumes| ==> e.volumes[i] == volumes[i].name
  {
    var want: map<Bytes, Instant> := map[];
    for i := 0 to |vms|
      invariant want == VMMap(vms[..i])
    {
      assert vms[..i + 1][..i] == vms[..i];
      want := want[vms[i].name := vms[i].moment];
    }
    assert vms[..|vms|] == vms;
    var names: seq<Bytes> := [];
    var targets: map<Bytes, Target> := map[];
    for i := 0 to |volumes|
      invariant targets == TargetMap(volumes[..i])
      invariant |names| == i && forall k :: 0 <= k < i ==> names[k] == volumes[k].name
    {
      assert volumes[..i + 1][..i] == volumes[..i];
      var v := volumes[i];
      names := names + [v.name];
      targets := targets[v.name := Target(v.claim, v.namespace, v.path, v.uid, v.gid, v.perms)];
    }
    assert volumes[..|volumes|] == volumes;
    e := Expectation(want, names, Some(targets));
  }

  lemma {:induction false} VMMapDistinct(vms: seq<VMReport>)
    requires forall i, j :: 0 <= i < j < |vms| ==> vms[i].name != vms[j].name
    ensures forall v :: v in VMMap(vms) <==> exists i :: 0 <= i < |vms| && vms[i].name == v
    ensures forall i :: 0 <= i < |vms| ==> vms[i].name in VMMap(vms) && VMMap(vms)[vms[i].name] == vms[i].moment
  {
    if vms != [] {
      var front := vms[..|vms| - 1];
      assert forall i :: 0 <= i < |front| ==> front[i] == vms[i];
      VMMapDistinct(front);
    }
  }

  lemma {:induction false} TargetMapDistinct(volumes: seq<VolumeReport>)
    requires forall i, j :: 0 <= i < j < |volumes| ==> volumes[i].name != volumes[j].name
    ensures forall n :: n in TargetMap(volumes) <==> exists i :: 0 <= i < |volumes| && volumes[i].name == n
    ensures forall i :: 0 <= i < |volumes| ==>
              && volumes[i].name in TargetMap(volumes)
              && var v := volumes[i];
                 TargetMap(volumes)[v.name] == Target(v.claim, v.namespace, v.path, v.uid, v.gid, v.perms)
  {
    if volumes != [] {
      var front := volumes[..|volumes| - 1];
      assert forall i :: 0 <= i < |front| ==> front[i] == volumes[i];
      TargetMapDistinct(front);
    }
  }

  // ---- the operator's confirmation ----

  /** Two plans that an operator would not tell apart: the same VMs at the same
      second, the same volumes, each with the same target. */
  ghost predicate SamePlan(a: seq<SubVolume>, b: seq<SubVolume>) {
    && VMNames(a) == VMNames(b)
    && (forall v :: v in VMNames(a) && v in VMNames(b) ==> Seconds(MomentOf(a, v)) == Seconds(MomentOf(b, v)))
    && VolumeNames(a) == VolumeNames(b)
    && (forall x, y :: x in a && y in b && x.name == y.name ==> SameTarget(x, y))
  }

  /** The same claim at the same path, with the same owner and permissions. */
  predicate SameTarget(x: SubVolume, y: SubVolume) {
    && x.claim == y.claim && x.namespace == y.namespace && x.path == y.path
    && x.uid == y.uid && x.gid == y.gid && x.perms == y.perms
  }

  /** The expectation that a controller builds from the message of a Plan. */
  ghost predicate Confirmed(plan: seq<SubVolume>, e: Expectation) {
    && e.vms.Keys == VMNames(plan)
    && (forall v :: v in e.vms && v in VMNames(plan) ==> e.vms[v] == Seconds(MomentOf(plan, v)))
    && (forall n :: n in e.volumes <==> n in VolumeNames(plan))
    && e.targets.Some?
    && (forall sv :: sv in plan ==> sv.name in e.targets.value && e.targets.value[sv.name] == TargetOf(sv))
  }

  /** What a Plan reports survives the message: cut to whole seconds and with
      fewer restore points, it still gives the expectation of that very plan. */
  lemma {:induction false} MessageKeepsThePlan(plan: seq<SubVolume>, rpo: int, moments: map<Bytes, seq<Instant>>,
                                               r: Report, sent: Report, e: Expectation)
    requires Describes(plan, rpo, moments, r) && CutReport(r, sent)
    requires forall i, j :: 0 <= i < j < |plan| ==> plan[i].name != plan[j].name
    requires e.vms == VMMap(Wire(sent).vms) && e.targets == Some(TargetMap(Wire(sent).volumes))
    requires |e.volumes| == |sent.volumes|
    requires forall i :: 0 <= i < |sent.volumes| ==> e.volumes[i] == Wire(sent).volumes[i].name
    ensures Confirmed(plan, e)
  {
    WireKeepsNames(r.vms, sent);
    MessageKeepsVMs(plan, moments, r.vms, Wire(sent).vms);
    MessageKeepsVolumes(plan, sent.volumes, Wire(sent).volumes, e);
  }

  lemma {:induction false} MessageKeepsVMs(plan: seq<SubVolume>, moments: map<Bytes, seq<Instant>>,
                                           vms: seq<VMReport>, w: seq<VMReport>)
    requires forall i, j :: 0 <= i < j < |vms| ==> Less(vms[i].name, vms[j].name)
    requires forall i :: 0 <= i < |vms| ==> DescribesVM(plan, moments, vms[i])
    requires forall v :: v in VMNames(plan) ==> exists i :: 0 <= i < |vms| && vms[i].name == v
    requires |w| == |vms|
    requires forall i :: 0 <= i < |w| ==> w[i].name == vms[i].name && w[i].moment == Seconds(vms[i].moment)
    ensures VMMap(w).Keys == VMNames(plan)
    ensures forall v :: v in VMMap(w) && v in VMNames(plan) ==> VMMap(w)[v] == Seconds(MomentOf(plan, v))
  {
    forall i, j | 0 <= i < j < |w| ensures w[i].name != w[j].name {
      LessTotal(vms[i].name, vms[j].name);
    }
    VMMapDistinct(w);
    var got := VMMap(w);
    forall v ensures v in got <==> v in VMNames(plan) {
      if v in got {
        var i :| 0 <= i < |w| && w[i].name == v;
        assert DescribesVM(plan, moments, vms[i]);
      }
      if v in VMNames(plan) {
        var i :| 0 <= i < |vms| && vms[i].name == v;
        assert w[i].name == v;
      }
    }
    forall v | v in got && v in VMNames(plan) ensures got[v] == Seconds(MomentOf(plan, v)) {
      var i :| 0 <= i < |w| && w[i].name == v;
      assert DescribesVM(plan, moments, vms[i]);
    }
  }

  lemma {:induction false} WireKeepsNames(vms: seq<VMReport>, sent: Report)
    requires CutVMs(vms, sent.vms)
    ensures var w := Wire(sent).vms;
            && |w| == |vms|
            && forall i :: 0 <= i < |w| ==> w[i].name == vms[i].name && w[i].moment == Seconds(vms[i].moment)
  {
    var w := Wire(sent).vms;
    forall i | 0 <= i < |w| ensures w[i].name == vms[i].name && w[i].moment == Seconds(vms[i].moment) {
      assert CutVM(vms[i], sent.vms[i]);
    }
  }

  lemma {:induction false} MessageKeepsVolumes(plan: seq<SubVolume>, sent: seq<VolumeReport>, w: seq<VolumeReport>,
                                               e: Expectation)
    requires |sent| == |plan| && forall i :: 0 <= i < |plan| ==> sent[i] == VolumeOf(plan[i])
    requires |w| == |sent| && forall i :: 0 <= i < |w| ==> w[i] == WireVolume(sent[i])
    requires forall i, j :: 0 <= i < j < |plan| ==> plan[i].name != plan[j].name
    requires e.targets == Some(TargetMap(w))
    requires |e.volumes| == |w| && forall i :: 0 <= i < |w| ==> e.volumes[i] == w[i].name
    ensures forall n :: n in e.volumes <==> n in VolumeNames(plan)
    ensures forall sv :: sv in plan ==> sv.name in e.targets.value && e.targets.value[sv.name] == TargetOf(sv)
  {
    assert forall i :: 0 <= i < |w| ==> w[i].name == plan[i].name;
    TargetMapDistinct(w);
    forall n ensures n in e.volumes <==> n in VolumeNames(plan) {
      if n in e.volumes {
        var i :| 0 <= i < |e.volumes| && e.volumes[i] == n;
        assert plan[i] in plan && plan[i].name == n;
      }
      if n in VolumeNames(plan) {
        var sv :| sv in plan && sv.name == n;
        var i :| 0 <= i < |plan| && plan[i] == sv;
        assert e.volumes[i] == n;
      }
    }
    forall sv | sv in plan ensures sv.name in e.targets.value && e.targets.value[sv.name] == TargetOf(sv) {
      var i :| 0 <= i < |plan| && plan[i] == sv;
      assert w[i] == WireVolume(VolumeOf(plan[i]));
    }
  }

  lemma {:induction false} SecondsTwice(t: Instant)
    ensures Seconds(Seconds(t)) == Seconds(t)
  {
  }

  /** The expectation of a confirmed plan accepts an Execute's plan exactly when
      the operator would see the same plan again. */
  lemma {:induction false} AcceptsExactlyTheConfirmedPlan(confirmed: seq<SubVolume>, now: seq<SubVolume>,
                                                          e: Expectation)
    requires Confirmed(confirmed, e)
    ensures Accepts(e, now) <==> SamePlan(confirmed, now)
  {
    forall v | v in VMNames(confirmed) ensures Seconds(e.vms[v]) == Seconds(MomentOf(confirmed, v)) {
      SecondsTwice(MomentOf(confirmed, v));
    }
    if Accepts(e, now) {
      forall n ensures n in VolumeNames(confirmed) <==> n in VolumeNames(now) {
      }
      forall x, y | x in confirmed && y in now && x.name == y.name ensures TargetOf(x) == TargetOf(y) {
      }
    }
    if SamePlan(confirmed, now) {
      forall y | y in now ensures y.name in e.targets.value && e.targets.value[y.name] == TargetOf(y) {
        assert y.name in VolumeNames(now);
        var x :| x in confirmed && x.name == y.name;
      }
    }
  }

  /** From end to end: the expectation read from the message of a Plan accepts an
      Execute's plan exactly when it is the same plan. */
  lemma {:induction false} MessageAcceptsOnlyItsPlan(plan: seq<SubVolume>, rpo: int, moments: map<Bytes,
                                                     seq<Instant>>, r: Report,
                                                     sent: Report, e: Expectation, now: seq<SubVolume>)
    requires Describes(plan, rpo, moments, r) && CutReport(r, sent)
    requires forall i, j :: 0 <= i < j < |plan| ==> plan[i].name != plan[j].name
    requires e.vms == VMMap(Wire(sent).vms) && e.targets == Some(TargetMap(Wire(sent).volumes))
    requires |e.volumes| == |sent.volumes|
    requires forall i :: 0 <= i < |sent.volumes| ==> e.volumes[i] == Wire(sent).volumes[i].name
    ensures Accepts(e, now) <==> SamePlan(plan, now)
  {
    MessageKeepsThePlan(plan, rpo, moments, r, sent, e);
    AcceptsExactlyTheConfirmedPlan(plan, now, e);
  }

  // ---- what the executor is given ----

  /** The part of a plan that the executor needs, from the volumes that a Job reported. */
  method PlanFromVolumes(volumes: seq<VolumeReport>) returns (plan: seq<SubVolume>)
    ensures |plan| == |volumes|
    ensures forall i :: 0 <= i < |plan| ==> VolumeOf(plan[i]) == volumes[i] && plan[i] == Bare(plan[i])
  {
    plan := [];
    for i := 0 to |volumes|
      invariant |plan| == i && forall k :: 0 <= k < i ==> VolumeOf(plan[k]) == volumes[k] && plan[k] == Bare(plan[k])
    {
      var v := volumes[i];
      plan := plan + [SubVolume(v.name, v.claim, v.namespace, v.gb, v.path, v.uid, v.gid, v.perms, v.policy, v.lastSync,
                                NoDisk, [], 0, false)];
    }
  }

  /** A volume without what was seen of its disk and chosen for it. */
  function Bare(sv: SubVolume): (r: SubVolume) {
    sv.(seen := NoDisk, vm := [], moment := 0, rewind := false)
  }

  /** However much the message was cut: the controller's executor is given the very volumes of
      the Job's plan, each with the second of its copy. */
  lemma {:induction false} ExecutorGetsThePlan(plan: seq<SubVolume>, rpo: int, moments: map<Bytes, seq<Instant>>,
                                               r: Report, sent: Report, got: seq<SubVolume>)
    requires Describes(plan, rpo, moments, r) && CutReport(r, sent) && |got| == |Wire(sent).volumes|
    requires forall i :: 0 <= i < |got| ==> VolumeOf(got[i]) == Wire(sent).volumes[i] && got[i] == Bare(got[i])
    ensures |got| == |plan|
    ensures forall i :: 0 <= i < |plan| ==> got[i] == Bare(plan[i]).(lastSync := Seconds(plan[i].lastSync))
  {
    forall i | 0 <= i < |plan| ensures got[i] == Bare(plan[i]).(lastSync := Seconds(plan[i].lastSync)) {
      assert r.volumes[i] == VolumeOf(plan[i]) && Wire(sent).volumes[i] == WireVolume(r.volumes[i]);
      assert VolumeOf(got[i]) == WireVolume(VolumeOf(plan[i]));
    }
  }

  // ---- the Job ----

  datatype Action = PlanOnly | Execute | Unknown

  datatype Change = RolledBack(volume: Bytes) | Rewound(volume: Bytes, moment: Instant)

  datatype JobError =
    | BadAction | NoPlan(fault: Fault) | NotAsConfirmed(problems: seq<Problem>) | CannotPrepare(volume: Bytes)

  function ChangeOf(sv: SubVolume): (c: Change) {
    if sv.rewind then Rewound(sv.name, sv.moment) else RolledBack(sv.name)
  }

  /** What preparing the chosen disks of a plan changes, in order. */
  function ChangesOf(plan: seq<SubVolume>): (r: seq<Change>) {
    if plan == [] then []
    else
      var front, sv := ChangesOf(plan[..|plan| - 1]), plan[|plan| - 1];
      if sv.vm != [] then front + [ChangeOf(sv)] else front
  }

  /** A marked disk of the plan is rewound to its moment, any other disk of a VM is rolled
      back, and nothing else is touched. */
  lemma {:induction false} ChangesTell(plan: seq<SubVolume>)
    ensures forall n, m :: Rewound(n, m) in ChangesOf(plan) <==>
              exists sv :: sv in plan && sv.vm != [] && sv.rewind && sv.name == n && sv.moment == m
    ensures forall n :: RolledBack(n) in ChangesOf(plan) <==>
              exists sv :: sv in plan && sv.vm != [] && !sv.rewind && sv.name == n
  {
    if plan != [] {
      var front, last := plan[..|plan| - 1], plan[|plan| - 1];
      assert plan == front + [last];
      ChangesTell(front);
    }
  }

  // ---- from the share to the changes ----

  /** Disk `i` of the share is one that an Execute prepares. */
  ghost predicate ToPrepare(svs: seq<SubVolume>, opts: Options, i: int) {
    0 <= i < |svs| && Grouped(svs[i], opts.vms) && !LoneUnknown(svs, Key(svs[i]).value)
  }

  /** The change that disk `i` needs: none but a rollback if it is at the newest restore
      point of its VM, else a rewind to that point. */
  ghost predicate Needs(svs: seq<SubVolume>, opts: Options, i: int, c: Change)
    requires ToPrepare(svs, opts, i)
  {
    var sv := svs[i];
    match c
    case RolledBack(n) => n == sv.name && Newest(svs, Key(sv).value, opts.rewindTo, sv.seen.state.moment)
    case Rewound(n, m) =>
      n == sv.name && Newest(svs, Key(sv).value, opts.rewindTo, m) && m != sv.seen.state.moment
  }

  /** `at` are the disks to prepare among those that `kept` lists, in order, and `changes`
      are what they need. */
  ghost predicate NeedsInOrder(svs: seq<SubVolume>, opts: Options, kept: seq<nat>, at: seq<nat>, changes: seq<Change>) {
    && |at| == |changes|
    && (forall j, k :: 0 <= j < k < |at| ==> at[j] < at[k])
    && (forall i :: i in at <==> i in kept && ToPrepare(svs, opts, i))
    && (forall k :: 0 <= k < |at| ==> Needs(svs, opts, at[k], changes[k]))
  }

  /** The changes are what the disks to prepare need, each once and in order. */
  ghost predicate PreparesAll(svs: seq<SubVolume>, opts: Options, changes: seq<Change>) {
    exists at :: NeedsInOrder(svs, opts, Kept(svs, opts.vms), at, changes)
  }

  lemma {:induction false} EntryNeeds(svs: seq<SubVolume>, opts: Options, found: seq<SubVolume>, k: nat)
    requires Resolved(svs, opts, found) && k < |found| && forall sv :: sv in svs ==> sv.vm == []
    ensures var i := Kept(svs, opts.vms)[k];
            && (found[k].vm != [] <==> ToPrepare(svs, opts, i))
            && (found[k].vm != [] ==> Needs(svs, opts, i, ChangeOf(found[k])))
  {
    var i := Kept(svs, opts.vms)[k];
    assert svs[i] in svs && ResolvedEntry(svs, opts, svs[i], found[k]);
  }

  lemma {:induction false} NeedsSkip(svs: seq<SubVolume>, opts: Options, kept: seq<nat>, at: seq<nat>,
                                     changes: seq<Change>, i: nat)
    requires NeedsInOrder(svs, opts, kept, at, changes) && !ToPrepare(svs, opts, i)
    ensures NeedsInOrder(svs, opts, kept + [i], at, changes)
  {
  }

  lemma {:induction false} NeedsAdd(svs: seq<SubVolume>, opts: Options, kept: seq<nat>, at: seq<nat>,
                                    changes: seq<Change>, i: nat, c: Change)
    requires NeedsInOrder(svs, opts, kept, at, changes) && ToPrepare(svs, opts, i) && Needs(svs, opts, i, c)
    requires forall x :: x in kept ==> x < i
    ensures NeedsInOrder(svs, opts, kept + [i], at + [i], changes + [c])
  {
    forall k | 0 <= k < |at| ensures at[k] < i {
      assert at[k] in at;
    }
  }

  /** What the first `n` entries of the plan that was found need. */
  lemma {:induction false} PrefixPrepares(svs: seq<SubVolume>, opts: Options, found: seq<SubVolume>, n: nat)
    returns (at: seq<nat>)
    requires Resolved(svs, opts, found) && n <= |found| && forall sv :: sv in svs ==> sv.vm == []
    ensures NeedsInOrder(svs, opts, Kept(svs, opts.vms)[..n], at, ChangesOf(found[..n]))
  {
    var kept := Kept(svs, opts.vms);
    if n == 0 {
      at := [];
    } else {
      var i, front := kept[n - 1], kept[..n - 1];
      at := PrefixPrepares(svs, opts, found, n - 1);
      EntryNeeds(svs, opts, found, n - 1);
      assert found[..n][..n - 1] == found[..n - 1] && kept[..n] == front + [i];
      if found[n - 1].vm != [] {
        KeptBefore(svs, opts.vms, n - 1);
        NeedsAdd(svs, opts, front, at, ChangesOf(found[..n - 1]), i, ChangeOf(found[n - 1]));
        at := at + [i];
      } else {
        NeedsSkip(svs, opts, front, at, ChangesOf(found[..n - 1]), i);
      }
    }
  }

  lemma {:induction false} KeptBefore(svs: seq<SubVolume>, vms: seq<Bytes>, k: nat)
    requires k < |Kept(svs, vms)|
    ensures forall x :: x in Kept(svs, vms)[..k] ==> x < Kept(svs, vms)[k]
  {
    KeptToOrder(svs, vms, |svs|);
  }

  lemma {:induction false} FoundPrepares(svs: seq<SubVolume>, opts: Options, found: seq<SubVolume>)
    requires Resolved(svs, opts, found) && forall sv :: sv in svs ==> sv.vm == []
    ensures PreparesAll(svs, opts, ChangesOf(found))
  {
    var at := PrefixPrepares(svs, opts, found, |found|);
    assert found[..|found|] == found && Kept(svs, opts.vms)[..|found|] == Kept(svs, opts.vms);
  }

  /** A disk is rewound exactly when it is not at the newest restore point of its VM, to
      that point, and rolled back exactly when it is at it. */
  lemma {:induction false} PreparedExactly(svs: seq<SubVolume>, opts: Options, changes: seq<Change>)
    requires PreparesAll(svs, opts, changes)
    ensures forall n, m :: Rewound(n, m) in changes <==>
              exists i :: ToPrepare(svs, opts, i) && Needs(svs, opts, i, Rewound(n, m))
    ensures forall n :: RolledBack(n) in changes <==>
              exists i :: ToPrepare(svs, opts, i) && Needs(svs, opts, i, RolledBack(n))
  {
    forall c: Change ensures c in changes <==> exists i :: ToPrepare(svs, opts, i) && Needs(svs, opts, i, c) {
      ChangeExactly(svs, opts, changes, c);
    }
  }

  lemma {:induction false} ChangeExactly(svs: seq<SubVolume>, opts: Options, changes: seq<Change>, c: Change)
    requires PreparesAll(svs, opts, changes)
    ensures c in changes <==> exists i :: ToPrepare(svs, opts, i) && Needs(svs, opts, i, c)
  {
    var at :| NeedsInOrder(svs, opts, Kept(svs, opts.vms), at, changes);
    KeptToOrder(svs, opts.vms, |svs|);
    if c in changes {
      var k :| 0 <= k < |changes| && changes[k] == c;
      assert at[k] in at && Needs(svs, opts, at[k], c);
    }
    if i :| ToPrepare(svs, opts, i) && Needs(svs, opts, i, c) {
      assert i in Kept(svs, opts.vms) && i in at;
      var k :| 0 <= k < |at| && at[k] == i;
      NeedsOne(svs, opts, i, c, changes[k]);
    }
  }

  lemma {:induction false} NeedsOne(svs: seq<SubVolume>, opts: Options, i: int, a: Change, b: Change)
    requires ToPrepare(svs, opts, i) && Needs(svs, opts, i, a) && Needs(svs, opts, i, b)
    ensures a == b
  {
    var key := Key(svs[i]).value;
    var m := if a.Rewound? then a.moment else svs[i].seen.state.moment;
    var x := if b.Rewound? then b.moment else svs[i].seen.state.moment;
    NewestUnique(svs, key, opts.rewindTo, m, x);
  }

  /** A chosen disk that was rewound is in a folder of its own. */
  function PreparedEntry(sv: SubVolume, folder: (Bytes, Instant) -> Bytes): (r: SubVolume) {
    if sv.vm != [] && sv.rewind then sv.(path := folder(sv.path, sv.moment)) else sv
  }

  /** `now` is `plan` with its first `n` entries prepared. */
  predicate Prepared(plan: seq<SubVolume>, folder: (Bytes, Instant) -> Bytes, n: nat, now: seq<SubVolume>) {
    && n <= |plan| == |now|
    && (forall k :: 0 <= k < n ==> now[k] == PreparedEntry(plan[k], folder))
    && (forall k :: n <= k < |plan| ==> now[k] == plan[k])
  }

  // ---- the report ----

  /** `r` is the report of the plan `now`, with the restore points that the volumes
      `svs` can show for each VM. */
  ghost predicate ReportOf(svs: seq<SubVolume>, opts: Options, now: seq<SubVolume>, rpo: int, r: Report) {
    && (exists moments :: Describes(now, rpo, moments, r))
    && (forall i :: 0 <= i < |r.vms| ==> CommonList(svs, r.vms[i].name, opts.rewindTo, r.vms[i].moments))
  }

  lemma {:induction false} SameVMReport(svs: seq<SubVolume>, opts: Options, now: seq<SubVolume>, rpo: int, a: Report,
                                        b: Report, i: nat)
    requires ReportOf(svs, opts, now, rpo, a) && ReportOf(svs, opts, now, rpo, b)
    requires i < |a.vms| && i < |b.vms| && a.vms[i].name == b.vms[i].name
    ensures a.vms[i] == b.vms[i]
  {
    CommonListUnique(svs, a.vms[i].name, opts.rewindTo, a.vms[i].moments, b.vms[i].moments);
    var x :| Describes(now, rpo, x, a);
    var y :| Describes(now, rpo, y, b);
    assert DescribesVM(now, x, a.vms[i]) && DescribesVM(now, y, b.vms[i]);
  }

  ghost function ReportNames(r: Report): (names: seq<Bytes>) {
    seq(|r.vms|, i requires 0 <= i < |r.vms| => r.vms[i].name)
  }

  lemma {:induction false} ReportNamesAre(now: seq<SubVolume>, rpo: int, moments: map<Bytes, seq<Instant>>, r: Report)
    requires Describes(now, rpo, moments, r)
    ensures StrictlySorted(ReportNames(r)) && forall v :: v in ReportNames(r) <==> v in VMNames(now)
  {
    var names := ReportNames(r);
    forall v ensures v in names <==> v in VMNames(now) {
      if v in VMNames(now) {
        var i :| 0 <= i < |r.vms| && r.vms[i].name == v;
        assert names[i] == v;
      }
      if v in names {
        var i :| 0 <= i < |names| && names[i] == v;
        assert DescribesVM(now, moments, r.vms[i]);
      }
    }
  }

  /** The report is one: it does not depend on the order in which the maps of VMs are
      gone through. */
  lemma {:induction false} ReportIsOne(svs: seq<SubVolume>, opts: Options, now: seq<SubVolume>, rpo: int, a: Report,
                                       b: Report)
    requires ReportOf(svs, opts, now, rpo, a) && ReportOf(svs, opts, now, rpo, b)
    ensures a == b
  {
    var x :| Describes(now, rpo, x, a);
    var y :| Describes(now, rpo, y, b);
    ReportNamesAre(now, rpo, x, a);
    ReportNamesAre(now, rpo, y, b);
    StrictlySortedUnique(ReportNames(a), ReportNames(b));
    forall i | 0 <= i < |a.vms| ensures a.vms[i] == b.vms[i] {
      assert ReportNames(a)[i] == ReportNames(b)[i];
      SameVMReport(svs, opts, now, rpo, a, b, i);
    }
    assert a.vms == b.vms;
    SameVolumes(now, rpo, x, y, a, b);
  }

  lemma {:induction false} SameVolumes(now: seq<SubVolume>, rpo: int, x: map<Bytes, seq<Instant>>, y: map<Bytes,
                                       seq<Instant>>, a: Report, b: Report)
    requires Describes(now, rpo, x, a) && Describes(now, rpo, y, b)
    ensures a.volumes == b.volumes
  {
  }

  /** The names of VMs in the plan of a Job are chosen keys. */
  lemma {:induction false} NameIsKey(svs: seq<SubVolume>, opts: Options, found: seq<SubVolume>, v: Bytes)
    requires Resolved(svs, opts, found) && (forall sv :: sv in svs ==> sv.vm == []) && v in VMNames(found)
    ensures Chosen(opts.vms, v) && v in Keys(found, opts.vms)
  {
    var sv :| sv in found && sv.vm == v;
    var k :| 0 <= k < |found| && found[k] == sv;
    var was := svs[Kept(svs, opts.vms)[k]];
    assert ResolvedEntry(svs, opts, was, sv) && was in svs;
    SameGroup(svs, opts, found, k);
  }

  lemma {:induction false} PreparedNames(plan: seq<SubVolume>, folder: (Bytes, Instant) -> Bytes, n: nat,
                                         now: seq<SubVolume>)
    requires Prepared(plan, folder, n, now)
    ensures VMNames(now) == VMNames(plan)
  {
    forall v ensures v in VMNames(now) <==> v in VMNames(plan) {
      if v in VMNames(now) {
        var k :| 0 <= k < |now| && now[k].vm == v;
        assert plan[k] in plan && plan[k].vm == v;
      }
      if v in VMNames(plan) {
        var k :| 0 <= k < |plan| && plan[k].vm == v;
        assert now[k] in now && now[k].vm == v;
      }
    }
  }

  /** The restore points that each VM's disks can all show. */
  method CommonMoments(svs: seq<SubVolume>, opts: Options) returns (r: Result<map<Bytes, seq<Instant>>, Fault>)
    ensures r.Ok? <==> Analyzable(svs, opts)
    ensures r.Ok? ==> MomentsOk(svs, opts, r.value)
    ensures r.Err? ==> FaultOk(svs, opts, r.error)
  {
    var groups := AnalyzeVMs(svs, opts);
    if groups.Err? {
      return Err(groups.error);
    }
    r := Ok(map key | key in groups.value :: groups.value[key].common);
  }

  ghost predicate MomentsOk(svs: seq<SubVolume>, opts: Options, moments: map<Bytes, seq<Instant>>) {
    && moments.Keys == Keys(svs, opts.vms)
    && forall key :: key in moments ==> CommonList(svs, key, opts.rewindTo, moments[key])
  }

  /** A report made with the restore points of the plan found lists, for each VM, the
      restore points that all its disks on the share can show. */
  lemma {:induction false} ReportLists(svs: seq<SubVolume>, opts: Options, found: seq<SubVolume>, moments: map<Bytes,
                                       seq<Instant>>,
                                       now: seq<SubVolume>, rpo: int, r: Report)
    requires Resolved(svs, opts, found) && (forall sv :: sv in svs ==> sv.vm == [])
    requires MomentsOk(found, opts, moments)
    requires VMNames(now) == VMNames(found) && Describes(now, rpo, moments, r)
    ensures ReportOf(svs, opts, now, rpo, r)
  {
    forall i | 0 <= i < |r.vms| ensures CommonList(svs, r.vms[i].name, opts.rewindTo, r.vms[i].moments) {
      var v := r.vms[i].name;
      assert DescribesVM(now, moments, r.vms[i]);
      NameIsKey(svs, opts, found, v);
      SameCommonList(svs, opts, found, v, moments[v]);
    }
  }

  // ---- an Execute ----

  /** An Execute goes through: it finds what was confirmed, and can prepare every
      chosen disk. */
  ghost predicate CanExecute(found: seq<SubVolume>, confirmed: Option<Expectation>, fails: Bytes -> bool) {
    && (confirmed.Some? ==> Accepts(confirmed.value, found))
    && (forall k :: 0 <= k < |found| && found[k].vm != [] ==> !fails(found[k].name))
  }

  ghost predicate CannotExecute(found: seq<SubVolume>, confirmed: Option<Expectation>, fails: Bytes -> bool,
                                e: JobError) {
    match e
    case NotAsConfirmed(problems) =>
      && confirmed.Some? && problems != []
      && (forall p :: p in problems <==> Wrong(confirmed.value, found, p))
    case CannotPrepare(volume) =>
      fails(volume) && exists k :: 0 <= k < |found| && found[k].vm != [] && found[k].name == volume
    case _ => false
  }

  lemma {:induction false} PreparedStep(plan: seq<SubVolume>, folder: (Bytes, Instant) -> Bytes, n: nat,
                                        now: seq<SubVolume>)
    requires n < |plan| && Prepared(plan, folder, n, now)
    ensures Prepared(plan, folder, n + 1, now[n := PreparedEntry(now[n], folder)])
    ensures ChangesOf(plan[..n + 1]) == ChangesOf(plan[..n]) + (if plan[n].vm != [] then [ChangeOf(plan[n])] else [])
  {
    assert plan[..n + 1][..n] == plan[..n];
  }

  /** A Job succeeds: there is a plan, and an Execute of it goes through. */
  ghost predicate Runs(svs: seq<SubVolume>, action: Action, opts: Options, confirmed: Option<Expectation>,
                       fails: Bytes -> bool) {
    && action != Unknown
    && exists found :: Resolved(svs, opts, found) && (action == Execute ==> CanExecute(found, confirmed, fails))
  }

  lemma {:induction false} RunsWith(svs: seq<SubVolume>, action: Action, opts: Options,
                                    confirmed: Option<Expectation>, fails: Bytes -> bool,
                                    found: seq<SubVolume>)
    requires Resolved(svs, opts, found) && action != Unknown
    ensures Runs(svs, action, opts, confirmed, fails) <==> (action == Execute ==> CanExecute(found, confirmed, fails))
  {
    if Runs(svs, action, opts, confirmed, fails) {
      var other :| Resolved(svs, opts, other) && (action == Execute ==> CanExecute(other, confirmed, fails));
      ResolvedUnique(svs, opts, found, other);
    }
  }

  /** The destination share: the changes a Job has made to it. */
  class Share {
    var changes: seq<Change>

    constructor ()
      ensures changes == []
    {
      changes := [];
    }

    /** Prepares the chosen disks of a plan, in order, and stops at the first that
        cannot be prepared. `fails` says which, and `folder` where a rewound disk goes. */
    method MaterializeVMs(plan: Plan, folder: (Bytes, Instant) -> Bytes,
                          fails: Bytes -> bool) returns (failed: Option<nat>)
      modifies this`changes, plan`subVolumes
      ensures var svs := old(plan.subVolumes);
              var n := if failed.Some? then failed.value else |svs|;
              && Prepared(svs, folder, n, plan.subVolumes)
              && changes == old(changes) + ChangesOf(svs[..n])
              && (forall k :: 0 <= k < n && svs[k].vm != [] ==> !fails(svs[k].name))
              && (failed.Some? ==> n < |svs| && svs[n].vm != [] && fails(svs[n].name))
    {
      ghost var svs := plan.subVolumes;
      for i := 0 to |plan.subVolumes|
        invariant Prepared(svs, folder, i, plan.subVolumes)
        invariant changes == old(changes) + ChangesOf(svs[..i])
        invariant forall k :: 0 <= k < i && svs[k].vm != [] ==> !fails(svs[k].name)
      {
        var sv := plan.subVolumes[i];
        PreparedStep(svs, folder, i, plan.subVolumes);
        if sv.vm != [] {
          if fails(sv.name) {
            return Some(i);
          }
          changes := changes + [ChangeOf(sv)];
        }
        plan.subVolumes := plan.subVolumes[i := PreparedEntry(sv, folder)];
      }
      failed := None;
    }

    /** The part of the Job that only an Execute does: the check, then the disks. */
    method CarryOut(plan: Plan, confirmed: Option<Expectation>, folder: (Bytes, Instant) -> Bytes, fails: Bytes -> bool)
      returns (error: Option<JobError>)
      modifies this`changes, plan`subVolumes
      ensures error.None? <==> CanExecute(old(plan.subVolumes), confirmed, fails)
      ensures error.None? ==>
                && changes == old(changes) + ChangesOf(old(plan.subVolumes))
                && Prepared(old(plan.subVolumes), folder, |old(plan.subVolumes)|, plan.subVolumes)
      ensures confirmed.Some? && !Accepts(confirmed.value, old(plan.subVolumes)) ==> changes == old(changes)
      ensures error.Some? ==> CannotExecute(old(plan.subVolumes), confirmed, fails, error.value)
    {
      ghost var svs := plan.subVolumes;
      if confirmed.Some? {
        var problems := Check(confirmed.value, plan.subVolumes);
        if problems != [] {
          return Some(NotAsConfirmed(problems));
        }
      }
      var failed := MaterializeVMs(plan, folder, fails);
      if failed.Some? {
        return Some(CannotPrepare(plan.subVolumes[failed.value].name));
      }
      assert svs[..|svs|] == svs;
      error := None;
    }

    /** One run of the failover Job on the volumes found on the share. Nothing on the
        share changes unless it is an Execute whose plan is what was confirmed; success
        of an Execute means that every chosen disk is prepared. */
    method RunJob(plan: Plan, action: Action, opts: Options, confirmed: Option<Expectation>,
                  folder: (Bytes, Instant) -> Bytes, fails: Bytes -> bool)
      returns (r: Result<Report, JobError>, ghost found: seq<SubVolume>)
      requires forall sv :: sv in plan.subVolumes ==> sv.vm == []
      modifies this`changes, plan
      ensures r.Ok? <==> Runs(old(plan.subVolumes), action, opts, confirmed, fails)
      ensures changes != old(changes) ==>
                && action == Execute && Resolved(old(plan.subVolumes), opts, found)
                && (confirmed.Some? ==> Accepts(confirmed.value, found))
      ensures r.Ok? ==>
                && Resolved(old(plan.subVolumes), opts, found)
                && ReportOf(old(plan.subVolumes), opts, plan.subVolumes, plan.rpo, r.value)
      ensures r.Ok? && action == PlanOnly ==> changes == old(changes) && plan.subVolumes == found
      ensures r.Ok? && action == Execute ==>
                && |old(changes)| <= |changes| && changes[..|old(changes)|] == old(changes)
                && PreparesAll(old(plan.subVolumes), opts, changes[|old(changes)|..])
                && Prepared(found, folder, |found|, plan.subVolumes)
      ensures r.Err? ==>
                || (r.error == BadAction && action == Unknown)
                || (r.error.NoPlan? && !Resolvable(old(plan.subVolumes), opts))
                || (action == Execute && CannotExecute(found, confirmed, fails, r.error))
    {
      found := [];
      ghost var svs := plan.subVolumes;
      if action == Unknown {
        return Err(BadAction), found;
      }
      var fault := plan.ResolveVMs(opts);
      if fault.Some? {
        return Err(NoPlan(fault.value)), found;
      }
      found := plan.subVolumes;
      RunsWith(svs, action, opts, confirmed, fails, found);
      ResolvedIsAnalyzable(svs, opts, found); // so the second analysis cannot fail
      var moments := CommonMoments(plan.subVolumes, opts);
      if action == Execute {
        var error := CarryOut(plan, confirmed, folder, fails);
        if error.Some? {
          return Err(error.value), found;
        }
        PreparedNames(found, folder, |found|, plan.subVolumes);
        FoundPrepares(svs, opts, found);
        assert changes[|old(changes)|..] == ChangesOf(found);
      }
      var report := NewResult(plan.subVolumes, plan.rpo, moments.value);
      ReportLists(svs, opts, found, moments.value, plan.subVolumes, plan.rpo, report);
      r := Ok(report);
    }
  }
}
