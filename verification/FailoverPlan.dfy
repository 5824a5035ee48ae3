/** The failover plan as an object: `ResolveVMs` marks its entries in place. */
module FailoverPlan {
  import opened Order
  import opened Common
  import opened VMFilter
  import opened VMPlan
  import opened Planner

  // ---- the age of the plan ----

  /** The loop of `recomputeRPO`: the oldest last sync, where zero means unset. */
  function OldestTo(svs: seq<SubVolume>, n: nat): (r: Instant)
    requires n <= |svs|
  {
    if n == 0 then 0
    else
      var oldest := OldestTo(svs, n - 1);
      if oldest == 0 || svs[n - 1].lastSync < oldest then svs[n - 1].lastSync else oldest
  }

  /** The oldest last sync that is set among volumes `from` to `n`. */
  ghost predicate OldestSet(svs: seq<SubVolume>, from: nat, n: nat, t: Instant)
    requires from <= n <= |svs|
  {
    if forall k :: from <= k < n ==> svs[k].lastSync == 0 then t == 0
    else
      && t > 0 && (exists k :: from <= k < n && svs[k].lastSync == t)
      && (forall k :: from <= k < n && svs[k].lastSync > 0 ==> t <= svs[k].lastSync)
  }

  /** Volume `z - 1` is the last one whose last sync is not set; zero if all are. */
  ghost predicate AfterLastUnset(svs: seq<SubVolume>, n: nat, z: nat)
    requires n <= |svs|
  {
    && z <= n && (z > 0 ==> svs[z - 1].lastSync == 0)
    && (forall k :: z <= k < n ==> svs[k].lastSync > 0)
  }

  /** What the loop finds: an unset time makes it forget everything before it. */
  lemma {:induction false} OldestAfterLastUnset(svs: seq<SubVolume>, n: nat, z: nat)
    requires n <= |svs| && AfterLastUnset(svs, n, z)
    ensures OldestSet(svs, z, n, OldestTo(svs, n))
  {
    if n > z {
      OldestAfterLastUnset(svs, n - 1, z);
    } else if n > 0 {
      assert OldestTo(svs, n) == 0;
    }
  }

  /** The loop gives the oldest time of the whole plan exactly when no volume
      before the last unset one is older than all that follow it. */
  lemma {:induction false} OldestIsRightExactlyWhen(svs: seq<SubVolume>, z: nat)
    requires AfterLastUnset(svs, |svs|, z)
    ensures OldestSet(svs, 0, |svs|, OldestTo(svs, |svs|)) <==>
            forall k :: 0 <= k < z && svs[k].lastSync > 0 ==>
              exists m :: z <= m < |svs| && svs[m].lastSync <= svs[k].lastSync
  {
    var t := OldestTo(svs, |svs|);
    OldestAfterLastUnset(svs, |svs|, z);
    if forall k :: 0 <= k < z && svs[k].lastSync > 0 ==>
         exists m :: z <= m < |svs| && svs[m].lastSync <= svs[k].lastSync {
      forall k | 0 <= k < |svs| && svs[k].lastSync > 0 ensures 0 < t <= svs[k].lastSync {
        if k < z {
          var m :| z <= m < |svs| && svs[m].lastSync <= svs[k].lastSync;
          assert svs[m].lastSync > 0;
        }
      }
      if z < |svs| {
        assert svs[z].lastSync > 0;
      } else {
        assert t == 0;
        forall k | 0 <= k < |svs| ensures svs[k].lastSync == 0 {
        }
      }
    }
    if OldestSet(svs, 0, |svs|, t) {
      forall k | 0 <= k < z && svs[k].lastSync > 0
        ensures exists m :: z <= m < |svs| && svs[m].lastSync <= svs[k].lastSync
      {
        assert t > 0;
        assert !(forall m :: z <= m < |svs| ==> svs[m].lastSync == 0);
        var m :| z <= m < |svs| && svs[m].lastSync == t;
      }
    }
  }

  /** An unset last sync in the middle hides an older volume before it. */
  lemma {:induction false} UnsetHidesOldest(a: SubVolume, b: SubVolume, c: SubVolume)
    requires a.lastSync == 10 && b.lastSync == 0 && c.lastSync == 20
    ensures OldestTo([a, b, c], 3) == 20
    ensures !OldestSet([a, b, c], 0, 3, OldestTo([a, b, c], 3))
  {
    var svs := [a, b, c];
    assert OldestTo(svs, 1) == 10;
    assert OldestTo(svs, 2) == 0;
    assert svs[0].lastSync == 10;
  }

  // ---- marking ----

  /** The entries of `now` that belong to groups outside `left` are resolved; the rest are as they were. */
  ghost predicate Marked(svs: seq<SubVolume>, opts: Options, left: set<Bytes>, now: seq<SubVolume>) {
    && |now| == |svs|
    && (forall i :: 0 <= i < |svs| ==>
          if Grouped(svs[i], opts.vms) && Key(svs[i]).value !in left then ResolvedEntry(svs, opts, svs[i], now[i])
          else now[i] == svs[i])
  }

  lemma {:induction false} ChangedDiskBlocks(svs: seq<SubVolume>, opts: Options, i: int, m: Instant)
    requires ChangedDisk(svs, opts, i, m)
    ensures !Resolvable(svs, opts)
  {
    if Resolvable(svs, opts) {
      var plan :| Resolved(svs, opts, plan);
      NoChangedDisk(svs, opts, i, m, plan);
    }
  }

  /** When every group is marked, the kept entries are the resolved plan. */
  lemma {:induction false} MarkedIsResolved(svs: seq<SubVolume>, opts: Options, marked: seq<SubVolume>,
                                            plan: seq<SubVolume>)
    requires Analyzable(svs, opts) && Marked(svs, opts, {}, marked)
    requires |plan| == |Kept(svs, opts.vms)|
    requires forall k :: 0 <= k < |plan| ==> plan[k] == marked[Kept(svs, opts.vms)[k]]
    ensures Resolved(svs, opts, plan)
  {
    forall k | 0 <= k < |plan| ensures ResolvedEntry(svs, opts, svs[Kept(svs, opts.vms)[k]], plan[k]) {
      var i := Kept(svs, opts.vms)[k];
      assert plan[k] == marked[i];
    }
  }

  /** The entries that one group's loop has reached. */
  ghost predicate GroupMarked(svs: seq<SubVolume>, opts: Options, before: seq<SubVolume>, now: seq<SubVolume>,
                              disks: seq<nat>, n: nat)
    requires n <= |disks| && IndicesOk(svs, disks) && |before| == |svs|
  {
    && |now| == |svs|
    && (forall i :: 0 <= i < |svs| ==>
          if i in disks[..n] then ResolvedEntry(svs, opts, svs[i], now[i]) else now[i] == before[i])
  }

  ghost predicate IndicesOk(svs: seq<SubVolume>, disks: seq<nat>) {
    forall k :: 0 <= k < |disks| ==> disks[k] < |svs|
  }

  lemma {:induction false} GroupDone(svs: seq<SubVolume>, opts: Options, left: set<Bytes>, key: Bytes,
                                     before: seq<SubVolume>, now: seq<SubVolume>)
    requires key in left && Chosen(opts.vms, key) && Marked(svs, opts, left, before)
    requires GroupMarked(svs, opts, before, now, Disks(svs, key), |Disks(svs, key)|)
    ensures Marked(svs, opts, left - {key}, now)
  {
    var disks := Disks(svs, key);
    assert disks[..|disks|] == disks;
    DisksToMembers(svs, key, |svs|);
    forall i | 0 <= i < |svs|
      ensures if Grouped(svs[i], opts.vms) && Key(svs[i]).value !in left - {key}
              then ResolvedEntry(svs, opts, svs[i], now[i])
              else now[i] == svs[i]
    {
      assert i in disks <==> InGroup(svs[i], key);
    }
  }

  class Plan {
    var subVolumes: seq<SubVolume>
    var rpo: int

    constructor (svs: seq<SubVolume>)
      ensures subVolumes == svs && rpo == 0
    {
      subVolumes, rpo := svs, 0;
    }

    method RecomputeRPO(now: Instant)
      modifies this`rpo
      ensures var oldest := OldestTo(subVolumes, |subVolumes|);
              rpo == if oldest > 0 then now - oldest else old(rpo)
    {
      var oldest := 0;
      for i := 0 to |subVolumes|
        invariant oldest == OldestTo(subVolumes, i)
      {
        if oldest == 0 || subVolumes[i].lastSync < oldest {
          oldest := subVolumes[i].lastSync;
        }
      }
      if oldest != 0 {
        rpo := now - oldest;
      }
    }

    /** Drops every volume that is not a disk in a group. `svs` and `vms` say
        what the groups were. */
    method KeepOnly(keep: set<nat>, ghost svs: seq<SubVolume>, ghost vms: seq<Bytes>)
      requires |svs| == |subVolumes| && vms != []
      requires forall i :: 0 <= i < |svs| ==> (i in keep <==> Grouped(svs[i], vms))
      modifies this`subVolumes
      ensures |subVolumes| == |Kept(svs, vms)|
      ensures forall k :: 0 <= k < |subVolumes| ==> subVolumes[k] == old(subVolumes)[Kept(svs, vms)[k]]
    {
      var all, kept := subVolumes, [];
      for i := 0 to |all|
        invariant subVolumes == all == old(subVolumes)
        invariant |kept| == |KeptTo(svs, vms, i)|
        invariant forall k :: 0 <= k < |kept| ==> kept[k] == all[KeptTo(svs, vms, i)[k]]
      {
        if i in keep {
          kept := kept + [all[i]];
        }
      }
      subVolumes := kept;
    }

    /** Marks the disks of one VM with the chosen restore point; stops at a disk
        that would have to be rewound and was written to. */
    method MarkGroup(key: Bytes, disks: seq<nat>, chosen: Instant, opts: Options, ghost svs: seq<SubVolume>)
      returns (fault: Option<Fault>)
      requires disks == Disks(svs, key)
      requires Chosen(opts.vms, key) && !LoneUnknown(svs, key) && Newest(svs, key, opts.rewindTo, chosen)
      requires |subVolumes| == |svs| && forall i :: 0 <= i < |svs| && InGroup(svs[i], key) ==> subVolumes[i] == svs[i]
      modifies this`subVolumes
      ensures fault.None? ==> GroupMarked(svs, opts, old(subVolumes), subVolumes, disks, |disks|)
      ensures fault.Some? ==> exists i :: ChangedDisk(svs, opts, i, chosen) && fault.value == DiskChanged(svs[i].name)
    {
      DisksToMembers(svs, key, |svs|);
      for k := 0 to |disks|
        invariant GroupMarked(svs, opts, old(subVolumes), subVolumes, disks, k)
      {
        var i := disks[k];
        assert i !in disks[..k];
        var sv := subVolumes[i];
        assert sv == svs[i];
        var rewind := chosen != sv.seen.state.moment;
        var marked := sv.(vm := key, moment := chosen, rewind := rewind);
        if rewind && sv.seen.state.modified {
          subVolumes := subVolumes[i := marked];
          assert ChangedDisk(svs, opts, i, chosen);
          return Some(DiskChanged(sv.name));
        }
        GroupMarkStep(svs, opts, old(subVolumes), subVolumes, disks, k, marked.(lastSync := chosen));
        subVolumes := subVolumes[i := marked.(lastSync := chosen)];
      }
      fault := None;
    }

    /** Turns the volumes into the resolved plan, in place, or says why there is none. */
    method ResolveVMs(opts: Options) returns (fault: Option<Fault>)
      modifies this
      ensures fault.None? <==> Resolvable(old(subVolumes), opts)
      ensures fault.None? ==> Resolved(old(subVolumes), opts, subVolumes)
      ensures fault.None? ==> var oldest := OldestTo(subVolumes, |subVolumes|);
                              rpo == if oldest > 0 then opts.now - oldest else old(rpo)
      ensures fault.Some? ==> FaultOk(old(subVolumes), opts, fault.value)
    {
      ghost var svs := subVolumes;
      var analyzed := AnalyzeVMs(subVolumes, opts);
      if analyzed.Err? {
        return Some(analyzed.error);
      }
      fault := MarkAll(analyzed.value, opts);
      if fault.Some? {
        return;
      }
      ghost var marked := subVolumes;
      if opts.vms != [] {
        var keep := AllDisks(svs, opts, analyzed.value);
        KeepOnly(keep, svs, opts.vms);
      } else {
        KeptToAll(svs, |svs|);
      }
      MarkedIsResolved(svs, opts, marked, subVolumes);
      RecomputeRPO(opts.now);
    }

    /** The loop over the groups, in any order. */
    method MarkAll(groups: map<Bytes, Analysis>, opts: Options) returns (fault: Option<Fault>)
      requires Analyzable(subVolumes, opts)
      requires groups.Keys == Keys(subVolumes, opts.vms) && AnalysisOk(subVolumes, opts, groups)
      modifies this`subVolumes
      ensures fault.None? ==> Marked(old(subVolumes), opts, {}, subVolumes)
      ensures fault.Some? ==> FaultOk(old(subVolumes), opts, fault.value) && !Resolvable(old(subVolumes), opts)
    {
      ghost var svs := subVolumes;
      var left := groups.Keys;
      MarkStart(svs, opts);
      while left != {}
        invariant left <= groups.Keys && Marked(svs, opts, left, subVolumes)
        decreases left
      {
        var key :| key in left;
        var g := groups[key];
        assert Chosen(opts.vms, key);
        if g.common != [] {
          CommonListNewest(svs, key, opts.rewindTo, g.common);
          ghost var before := subVolumes;
          fault := MarkGroup(key, g.disks, g.common[0], opts, svs);
          if fault.Some? {
            ghost var i :| ChangedDisk(svs, opts, i, g.common[0]) && fault.value == DiskChanged(svs[i].name);
            ChangedDiskBlocks(svs, opts, i, g.common[0]);
            return;
          }
          GroupDone(svs, opts, left, key, before, subVolumes);
        } else {
          LoneDone(svs, opts, left, key, subVolumes);
        }
        left := left - {key};
      }
      fault := None;
    }
  }

  lemma {:induction false} MarkStart(svs: seq<SubVolume>, opts: Options)
    ensures Marked(svs, opts, Keys(svs, opts.vms), svs)
  {
  }

  lemma {:induction false} LoneDone(svs: seq<SubVolume>, opts: Options, left: set<Bytes>, key: Bytes,
                                    now: seq<SubVolume>)
    requires Marked(svs, opts, left, now) && LoneUnknown(svs, key)
    ensures Marked(svs, opts, left - {key}, now)
  {
  }

  lemma {:induction false} GroupMarkStep(svs: seq<SubVolume>, opts: Options, before: seq<SubVolume>,
                                         now: seq<SubVolume>,
                      disks: seq<nat>, k: nat, r: SubVolume)
    requires IndicesOk(svs, disks) && |before| == |svs| && k < |disks|
    requires GroupMarked(svs, opts, before, now, disks, k) && ResolvedEntry(svs, opts, svs[disks[k]], r)
    ensures GroupMarked(svs, opts, before, now[disks[k] := r], disks, k + 1)
  {
    assert disks[..k + 1] == disks[..k] + [disks[k]];
  }

  /** The first part of `keepOnly`: the indices of all disks in groups. */
  method AllDisks(ghost svs: seq<SubVolume>, ghost opts: Options, groups: map<Bytes, Analysis>) returns (keep: set<nat>)
    requires groups.Keys == Keys(svs, opts.vms) && AnalysisOk(svs, opts, groups)
    ensures forall i :: 0 <= i < |svs| ==> (i in keep <==> Grouped(svs[i], opts.vms))
  {
    keep := {};
    var left := groups.Keys;
    while left != {}
      invariant left <= groups.Keys
      invariant forall i: nat :: i in keep <==> i < |svs| && Grouped(svs[i], opts.vms) && Key(svs[i]).value !in left
      decreases left
    {
      var key :| key in left;
      DisksToMembers(svs, key, |svs|);
      keep := keep + set i | i in groups[key].disks;
      left := left - {key};
    }
  }
}
