/** What a failover Job reports, what an operator confirms, and the check of one
  against the other.
 */
module Job {
  import opened Order
  import opened Common
  import opened VMPlan

  datatype VMReport = VMReport(name: Bytes, moment: Instant, moments: seq<Instant>, disks: seq<(Bytes, bool)>)

  datatype VolumeReport = VolumeReport(
    name: Bytes, claim: Bytes, namespace: Bytes, gb: int, path: Bytes, uid: Option<int>, gid: Option<int>,
    perms: Bytes, policy: Bytes, lastSync: Instant)

  datatype Report = Report(rpoSeconds: int, vms: seq<VMReport>, volumes: seq<VolumeReport>, truncated: bool)

  /** Where one failed-over volume goes. */
  datatype Target = Target(claim: Bytes, namespace: Bytes, path: Bytes,
                           uid: Option<int>, gid: Option<int>, perms: Bytes)

  datatype Expectation = Expectation(vms: map<Bytes, Instant>, volumes: seq<Bytes>, targets: Option<map<Bytes, Target>>)

  datatype Problem =
    | NewVM(vm: Bytes) | MomentMoved(vm: Bytes) | VMGone(vm: Bytes)
    | VolumeGone(volume: Bytes) | NewVolume(volume: Bytes) | Retargeted(volume: Bytes)

  function TargetOf(sv: SubVolume): (t: Target) {
    Target(sv.claim, sv.namespace, sv.path, sv.uid, sv.gid, sv.perms)
  }

  // ---- the VMs of a plan ----

  function VMNames(plan: seq<SubVolume>): (r: set<Bytes>) {
    set sv | sv in plan && sv.vm != [] :: sv.vm
  }

  function VolumeNames(plan: seq<SubVolume>): (r: set<Bytes>) {
    set sv | sv in plan :: sv.name
  }

  /** The disks of a VM, in the order of the plan. */
  function DisksOf(plan: seq<SubVolume>, vm: Bytes): (r: seq<SubVolume>) {
    if plan == [] then []
    else if plan[0].vm == vm then [plan[0]] + DisksOf(plan[1..], vm)
    else DisksOf(plan[1..], vm)
  }

  lemma {:induction false} DisksOfMembers(plan: seq<SubVolume>, vm: Bytes)
    ensures forall sv :: sv in DisksOf(plan, vm) <==> sv in plan && sv.vm == vm
  {
    if plan != [] {
      DisksOfMembers(plan[1..], vm);
      assert plan == [plan[0]] + plan[1..];
    }
  }

  lemma {:induction false} DisksOfAppend(plan: seq<SubVolume>, sv: SubVolume, vm: Bytes)
    ensures DisksOf(plan + [sv], vm) == (if sv.vm == vm then DisksOf(plan, vm) + [sv] else DisksOf(plan, vm))
  {
    if plan == [] {
      assert (plan + [sv])[1..] == [];
    } else {
      DisksOfAppend(plan[1..], sv, vm);
      assert (plan + [sv])[1..] == plan[1..] + [sv];
    }
  }

  lemma {:induction false} DisksOfVM(plan: seq<SubVolume>, vm: Bytes)
    requires vm in VMNames(plan)
    ensures DisksOf(plan, vm) != []
  {
    DisksOfMembers(plan, vm);
    var sv :| sv in plan && sv.vm == vm;
    assert sv in DisksOf(plan, vm);
  }

  /** The restore point that a plan shows for a VM. */
  function MomentOf(plan: seq<SubVolume>, vm: Bytes): (m: Instant)
    requires vm in VMNames(plan)
  {
    DisksOfVM(plan, vm);
    DisksOf(plan, vm)[0].moment
  }

  /** Groups the VM disks by VM, with the VM names sorted. */
  method VmDisks(plan: seq<SubVolume>) returns (names: seq<Bytes>, disks: map<Bytes, seq<SubVolume>>)
    ensures StrictlySorted(names) && forall v :: v in names <==> v in VMNames(plan)
    ensures disks.Keys == VMNames(plan) && forall v :: v in disks ==> disks[v] == DisksOf(plan, v)
  {
    disks := map[];
    for i := 0 to |plan|
      invariant disks.Keys == VMNames(plan[..i])
      invariant forall v :: v in disks ==> disks[v] == DisksOf(plan[..i], v)
    {
      var sv := plan[i];
      assert plan[..i + 1] == plan[..i] + [sv];
      VmDisksStep(plan[..i], sv, disks);
      if sv.vm != [] {
        disks := disks[sv.vm := (if sv.vm in disks then disks[sv.vm] else []) + [sv]];
      }
    }
    assert plan[..|plan|] == plan;
    names := SortedKeys(disks.Keys);
  }

  lemma {:induction false} VmDisksStep(before: seq<SubVolume>, sv: SubVolume, disks: map<Bytes, seq<SubVolume>>)
    requires disks.Keys == VMNames(before) && forall v :: v in disks ==> disks[v] == DisksOf(before, v)
    ensures VMNames(before + [sv]) == VMNames(before) + (if sv.vm != [] then {sv.vm} else {})
    ensures var mine := if sv.vm in disks then disks[sv.vm] else [];
            var more := if sv.vm != [] then disks[sv.vm := mine + [sv]] else disks;
            forall v :: v in more ==> more[v] == DisksOf(before + [sv], v)
  {
    var more := if sv.vm != [] then disks[sv.vm := (if sv.vm in disks then disks[sv.vm] else []) + [sv]] else disks;
    forall v | v in more ensures more[v] == DisksOf(before + [sv], v) {
      DisksOfAppend(before, sv, v);
      if v == sv.vm && v !in disks {
        NoDisksOf(before, v);
      } else if sv.vm == v {
        assert v != [];
      }
    }
  }

  lemma {:induction false} NoDisksOf(plan: seq<SubVolume>, vm: Bytes)
    requires vm !in VMNames(plan) && vm != []
    ensures DisksOf(plan, vm) == []
  {
    if plan != [] {
      assert plan[0] in plan && plan[0].vm != vm;
      assert VMNames(plan[1..]) <= VMNames(plan);
      NoDisksOf(plan[1..], vm);
    }
  }

  method SortedKeys(keys: set<Bytes>) returns (list: seq<Bytes>)
    ensures StrictlySorted(list) && forall v :: v in list <==> v in keys
  {
    var left, picked := keys, [];
    while left != {}
      invariant left <= keys && Distinct(picked)
      invariant forall v :: v in picked <==> v in keys && v !in left
      decreases left
    {
      var v :| v in left;
      left := left - {v};
      picked := picked + [v];
    }
    LeIsTotalPreorder();
    SortMembers(picked, Le);
    SortDistinctIsStrict(picked);
    list := Sort(picked, Le);
  }

  // ---- the check ----

  /** What is wrong with a plan, against what was confirmed. */
  ghost predicate Wrong(e: Expectation, plan: seq<SubVolume>, p: Problem) {
    match p
    case NewVM(v) => v in VMNames(plan) && v !in e.vms
    case MomentMoved(v) => v in VMNames(plan) && v in e.vms && Seconds(MomentOf(plan, v)) != Seconds(e.vms[v])
    case VMGone(v) => v in e.vms && v !in VMNames(plan)
    case VolumeGone(n) => n in e.volumes && n !in VolumeNames(plan)
    case NewVolume(n) => n in VolumeNames(plan) && n !in e.volumes
    case Retargeted(n) =>
      && n in VolumeNames(plan) && n in e.volumes && e.targets.Some?
      && exists sv :: sv in plan && sv.name == n && (n !in e.targets.value || e.targets.value[n] != TargetOf(sv))
  }

  /** The plan found now is the plan that was confirmed. */
  ghost predicate Accepts(e: Expectation, plan: seq<SubVolume>) {
    && e.vms.Keys == VMNames(plan)
    && (forall v :: v in e.vms && v in VMNames(plan) ==> Seconds(MomentOf(plan, v)) == Seconds(e.vms[v]))
    && (forall n :: n in e.volumes <==> n in VolumeNames(plan))
    && (e.targets.Some? ==>
          forall sv :: sv in plan ==> sv.name in e.targets.value && e.targets.value[sv.name] == TargetOf(sv))
  }

  lemma {:induction false} AcceptsMeansNothingWrong(e: Expectation, plan: seq<SubVolume>)
    ensures Accepts(e, plan) <==> forall p :: !Wrong(e, plan, p)
  {
    if forall p :: !Wrong(e, plan, p) {
      forall v ensures v in e.vms <==> v in VMNames(plan) {
        assert !Wrong(e, plan, NewVM(v)) && !Wrong(e, plan, VMGone(v));
      }
      forall v | v in e.vms ensures v in VMNames(plan) && Seconds(MomentOf(plan, v)) == Seconds(e.vms[v]) {
        assert !Wrong(e, plan, MomentMoved(v));
      }
      forall n ensures n in e.volumes <==> n in VolumeNames(plan) {
        assert !Wrong(e, plan, NewVolume(n)) && !Wrong(e, plan, VolumeGone(n));
      }
      if e.targets.Some? {
        forall sv | sv in plan ensures sv.name in e.targets.value && e.targets.value[sv.name] == TargetOf(sv) {
          assert sv.name in VolumeNames(plan);
          assert !Wrong(e, plan, Retargeted(sv.name));
        }
      }
    }
  }

  /** The loop over the VMs of the plan, then the VMs that are gone. */
  method CheckVMs(e: Expectation, plan: seq<SubVolume>) returns (problems: seq<Problem>)
    ensures forall p :: p in problems <==> Wrong(e, plan, p) && (p.NewVM? || p.MomentMoved? || p.VMGone?)
  {
    var names, disks := VmDisks(plan);
    problems := [];
    for i := 0 to |names|
      invariant forall p :: p in problems <==> Wrong(e, plan, p) && (p.NewVM? || p.MomentMoved?) && p.vm in names[..i]
    {
      var g := names[i];
      assert names[..i + 1] == names[..i] + [g];
      DisksOfVM(plan, g);
      var first: SubVolume := disks[g][0];
      if g !in e.vms {
        problems := problems + [NewVM(g)];
      } else if Seconds(first.moment) != Seconds(e.vms[g]) {
        problems := problems + [MomentMoved(g)];
      }
    }
    assert names[..|names|] == names;
    var missing := SortedKeys(e.vms.Keys - disks.Keys);
    for i := 0 to |missing|
      invariant forall p :: p in problems <==>
                  || (Wrong(e, plan, p) && (p.NewVM? || p.MomentMoved?))
                  || (p.VMGone? && p.vm in missing[..i])
    {
      assert missing[..i + 1] == missing[..i] + [missing[i]];
      problems := problems + [VMGone(missing[i])];
    }
    assert missing[..|missing|] == missing;
  }

  method CheckVolumes(e: Expectation, plan: seq<SubVolume>) returns (problems: seq<Problem>)
    ensures forall p :: p in problems <==> Wrong(e, plan, p) && (p.VolumeGone? || p.NewVolume? || p.Retargeted?)
  {
    var have := VolumeNames(plan);
    problems := [];
    for i := 0 to |e.volumes|
      invariant forall p :: p in problems <==> p.VolumeGone? && p.volume in e.volumes[..i] && p.volume !in have
    {
      assert e.volumes[..i + 1] == e.volumes[..i] + [e.volumes[i]];
      if e.volumes[i] !in have {
        problems := problems + [VolumeGone(e.volumes[i])];
      }
    }
    assert e.volumes[..|e.volumes|] == e.volumes;
    for i := 0 to |plan|
      invariant forall p :: p in problems <==>
                  || (p.VolumeGone? && Wrong(e, plan, p))
                  || ((p.NewVolume? || p.Retargeted?) && exists k :: 0 <= k < i && VolumeProblem(e, plan[k]) == Some(p))
    {
      var p := VolumeProblem(e, plan[i]);
      if p.Some? {
        problems := problems + [p.value];
      }
    }
    VolumeProblems(e, plan);
  }

  function VolumeProblem(e: Expectation, sv: SubVolume): (p: Option<Problem>)
    ensures p.Some? ==> p.value.NewVolume? || p.value.Retargeted?
  {
    if sv.name !in e.volumes then Some(NewVolume(sv.name))
    else if e.targets.Some? && (sv.name !in e.targets.value || e.targets.value[sv.name] != TargetOf(sv))
    then Some(Retargeted(sv.name))
    else None
  }

  lemma {:induction false} VolumeProblems(e: Expectation, plan: seq<SubVolume>)
    ensures forall p :: (exists k :: 0 <= k < |plan| && VolumeProblem(e, plan[k]) == Some(p)) <==>
                        Wrong(e, plan, p) && (p.NewVolume? || p.Retargeted?)
  {
    forall p ensures (exists k :: 0 <= k < |plan| && VolumeProblem(e, plan[k]) == Some(p)) <==>
                     Wrong(e, plan, p) && (p.NewVolume? || p.Retargeted?)
    {
      if Wrong(e, plan, p) && p.NewVolume? {
        var sv :| sv in plan && sv.name == p.volume;
        var k :| 0 <= k < |plan| && plan[k] == sv;
        assert VolumeProblem(e, plan[k]) == Some(p);
      }
      if Wrong(e, plan, p) && p.Retargeted? {
        var sv :| sv in plan && sv.name == p.volume &&
                  (p.volume !in e.targets.value || e.targets.value[p.volume] != TargetOf(sv));
        var k :| 0 <= k < |plan| && plan[k] == sv;
        assert VolumeProblem(e, plan[k]) == Some(p);
      }
    }
  }

  /** The check accepts exactly the plan that was confirmed, and otherwise lists
      everything that is wrong. */
  method Check(e: Expectation, plan: seq<SubVolume>) returns (problems: seq<Problem>)
    ensures forall p :: p in problems <==> Wrong(e, plan, p)
    ensures problems == [] <==> Accepts(e, plan)
  {
    var a := CheckVMs(e, plan);
    var b := CheckVolumes(e, plan);
    problems := a + b;
    AcceptsMeansNothingWrong(e, plan);
    assert problems != [] ==> problems[0] in problems;
  }
}
