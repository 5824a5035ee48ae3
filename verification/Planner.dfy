/** The planner's loops: the scan of the volumes, the intersection of restore
  points and the marking of the plan, proved against `VMPlan`. Maps are walked in
  any order.
 */
module Planner {
  import opened Order
  import opened Common
  import opened VMFilter
  import opened VMPlan

  datatype Analysis = Analysis(disks: seq<nat>, common: seq<Instant>)

  // ---- the scan ----

  ghost function KeysTo(svs: seq<SubVolume>, vms: seq<Bytes>, n: nat): (r: set<Bytes>)
    requires n <= |svs|
  {
    if n == 0 then {}
    else if Grouped(svs[n - 1], vms) then KeysTo(svs, vms, n - 1) + {Key(svs[n - 1]).value}
    else KeysTo(svs, vms, n - 1)
  }

  lemma {:induction false} KeysToMembers(svs: seq<SubVolume>, vms: seq<Bytes>, n: nat)
    requires n <= |svs|
    ensures forall key :: key in KeysTo(svs, vms, n) <==>
              exists i :: 0 <= i < n && Grouped(svs[i], vms) && InGroup(svs[i], key)
  {
    if n > 0 {
      KeysToMembers(svs, vms, n - 1);
      assert Grouped(svs[n - 1], vms) ==> InGroup(svs[n - 1], Key(svs[n - 1]).value);
    }
  }

  ghost function FoundTo(svs: seq<SubVolume>, n: nat): (r: set<Bytes>)
    requires n <= |svs|
  {
    if n == 0 then {}
    else if OfVM(svs[n - 1]) then FoundTo(svs, n - 1) + {svs[n - 1].seen.state.group}
    else FoundTo(svs, n - 1)
  }

  predicate OfVM(sv: SubVolume) {
    Key(sv).Some? && sv.seen.state.group != []
  }

  lemma {:induction false} FoundToMembers(svs: seq<SubVolume>, n: nat)
    requires n <= |svs|
    ensures forall v :: v in FoundTo(svs, n) <==> exists i :: 0 <= i < n && OfVM(svs[i]) && svs[i].seen.state.group == v
  {
    if n > 0 {
      FoundToMembers(svs, n - 1);
    }
  }

  lemma {:induction false} ScannedAll(svs: seq<SubVolume>, vms: seq<Bytes>)
    ensures KeysTo(svs, vms, |svs|) == Keys(svs, vms)
    ensures FoundTo(svs, |svs|) == Found(svs)
  {
    KeysToMembers(svs, vms, |svs|);
    FoundToMembers(svs, |svs|);
  }

  /** The chosen disks that a commit may still be changing, in order. */
  function BusyTo(svs: seq<SubVolume>, opts: Options, n: nat): (r: seq<Bytes>)
    requires n <= |svs|
  {
    if n == 0 then []
    else if Grouped(svs[n - 1], opts.vms) && svs[n - 1].seen.lease == Busy && !opts.force
    then BusyTo(svs, opts, n - 1) + [svs[n - 1].name]
    else BusyTo(svs, opts, n - 1)
  }

  lemma {:induction false} BusyToEmpty(svs: seq<SubVolume>, opts: Options, n: nat)
    requires n <= |svs|
    ensures BusyTo(svs, opts, n) == [] <==>
            opts.force || forall i :: 0 <= i < n && Grouped(svs[i], opts.vms) ==> svs[i].seen.lease != Busy
  {
    if n > 0 {
      BusyToEmpty(svs, opts, n - 1);
    }
  }

  predicate Stops(sv: SubVolume, vms: seq<Bytes>) {
    sv.seen.BadDisk? || (Grouped(sv, vms) && sv.seen.lease == Unclear)
  }

  ghost predicate NoStop(svs: seq<SubVolume>, vms: seq<Bytes>, n: nat)
    requires n <= |svs|
  {
    forall i :: 0 <= i < n ==> !Stops(svs[i], vms)
  }

  /** The scan stops at volume `i`, the first that cannot be read, with `f`. */
  ghost predicate StoppedAt(svs: seq<SubVolume>, vms: seq<Bytes>, i: int, f: Fault) {
    && 0 <= i < |svs| && NoStop(svs, vms, i) && Stops(svs[i], vms)
    && f == if svs[i].seen.BadDisk? then BadState(svs[i].name) else LeaseUnclear(svs[i].name)
  }

  /** What each refusal means. A fault of one group is reported for some group
      that has it. */
  ghost predicate FaultOk(svs: seq<SubVolume>, opts: Options, f: Fault) {
    match f
    case BadState(_) => exists i :: StoppedAt(svs, opts.vms, i, f)
    case LeaseUnclear(_) => exists i :: StoppedAt(svs, opts.vms, i, f)
    case NotOnCopy(missing) =>
      && NoStop(svs, opts.vms, |svs|) && missing != [] && StrictlySorted(missing)
      && (forall v :: v in missing <==> v in Names(opts.vms) && v !in Found(svs))
    case StillApplying(names) =>
      && NoStop(svs, opts.vms, |svs|) && Names(opts.vms) <= Found(svs)
      && names != [] && names == BusyTo(svs, opts, |svs|)
    case MomentUnknown(key) =>
      && ScanOk(svs, opts) && key in Keys(svs, opts.vms)
      && !AllKnown(svs, key) && (|Disks(svs, key)| > 1 || opts.rewindTo.Some?)
    case NoCommonMoment(key) =>
      && ScanOk(svs, opts) && key in Keys(svs, opts.vms) && !LoneUnknown(svs, key)
      && !exists m :: CommonMoment(svs, key, opts.rewindTo, m)
    case DiskChanged(name) =>
      && Analyzable(svs, opts)
      && exists i, m :: 0 <= i < |svs| && Grouped(svs[i], opts.vms) && svs[i].name == name
                        && Newest(svs, Key(svs[i]).value, opts.rewindTo, m)
                        && m != svs[i].seen.state.moment && svs[i].seen.state.modified
  }

  method MissingVMs(vms: seq<Bytes>, found: set<Bytes>) returns (missing: seq<Bytes>)
    ensures StrictlySorted(missing)
    ensures forall v :: v in missing <==> v in Names(vms) && v !in found
  {
    LessIsStrictTotalOrder();
    var want := NormalizeVMs(vms);
    missing := [];
    for i := 0 to |want|
      invariant StrictlySorted(missing)
      invariant forall v :: v in missing <==> v in want[..i] && v !in found
    {
      assert want[..i + 1] == want[..i] + [want[i]];
      if want[i] !in found {
        forall v | v in missing ensures Less(v, want[i]) {
          var k :| 0 <= k < i && want[k] == v;
        }
        missing := missing + [want[i]];
      }
    }
    assert want[..|want|] == want;
  }

  /** `groups` holds the chosen disks among the first `n` volumes. */
  ghost predicate GroupsTo(svs: seq<SubVolume>, vms: seq<Bytes>, groups: map<Bytes, seq<nat>>, n: nat)
    requires n <= |svs|
  {
    && groups.Keys == KeysTo(svs, vms, n)
    && (forall key :: key in groups ==> groups[key] == DisksTo(svs, key, n))
  }

  lemma {:induction false} GroupsSkip(svs: seq<SubVolume>, vms: seq<Bytes>, groups: map<Bytes, seq<nat>>, n: nat)
    requires n < |svs| && GroupsTo(svs, vms, groups, n) && !Grouped(svs[n], vms)
    ensures GroupsTo(svs, vms, groups, n + 1)
  {
    KeysToMembers(svs, vms, n);
    forall key | key in groups ensures groups[key] == DisksTo(svs, key, n + 1) {
      assert Chosen(vms, key);
    }
  }

  lemma {:induction false} NoDisksYet(svs: seq<SubVolume>, vms: seq<Bytes>, key: Bytes, n: nat)
    requires n <= |svs| && Chosen(vms, key) && key !in KeysTo(svs, vms, n)
    ensures DisksTo(svs, key, n) == []
  {
    if n > 0 {
      NoDisksYet(svs, vms, key, n - 1);
      assert !InGroup(svs[n - 1], key);
    }
  }

  function Add(groups: map<Bytes, seq<nat>>, key: Bytes, i: nat): (r: map<Bytes, seq<nat>>) {
    groups[key := (if key in groups then groups[key] else []) + [i]]
  }

  lemma {:induction false} GroupsAdd(svs: seq<SubVolume>, vms: seq<Bytes>, groups: map<Bytes, seq<nat>>, n: nat)
    requires n < |svs| && GroupsTo(svs, vms, groups, n) && Grouped(svs[n], vms)
    ensures GroupsTo(svs, vms, Add(groups, Key(svs[n]).value, n), n + 1)
  {
    var key := Key(svs[n]).value;
    var more := Add(groups, key, n);
    if key !in groups {
      NoDisksYet(svs, vms, key, n);
    }
    forall k | k in more ensures more[k] == DisksTo(svs, k, n + 1) {
    }
  }

  datatype Scanned = Scanned(groups: map<Bytes, seq<nat>>, found: set<Bytes>, busy: seq<Bytes>)

  ghost predicate ScannedTo(svs: seq<SubVolume>, opts: Options, s: Scanned, n: nat)
    requires n <= |svs|
  {
    GroupsTo(svs, opts.vms, s.groups, n) && s.found == FoundTo(svs, n) && s.busy == BusyTo(svs, opts, n)
  }

  /** One more volume: it shows that its VM exists, and if it is chosen it joins its group. */
  function Take(s: Scanned, sv: SubVolume, i: nat, opts: Options): (r: Scanned) {
    Scanned(
      if Grouped(sv, opts.vms) then Add(s.groups, Key(sv).value, i) else s.groups,
      if OfVM(sv) then s.found + {sv.seen.state.group} else s.found,
      if Grouped(sv, opts.vms) && sv.seen.lease == Busy && !opts.force then s.busy + [sv.name] else s.busy)
  }

  lemma {:induction false} TakeStep(svs: seq<SubVolume>, opts: Options, s: Scanned, n: nat)
    requires n < |svs| && ScannedTo(svs, opts, s, n)
    ensures ScannedTo(svs, opts, Take(s, svs[n], n, opts), n + 1)
  {
    if Grouped(svs[n], opts.vms) {
      GroupsAdd(svs, opts.vms, s.groups, n);
    } else {
      GroupsSkip(svs, opts.vms, s.groups, n);
    }
  }

  /** Why the scan cannot go past a volume: its state, or the lease on it, is unreadable. */
  function StopOf(sv: SubVolume, vms: seq<Bytes>): (f: Option<Fault>)
    ensures f.Some? <==> Stops(sv, vms)
    ensures f.Some? ==> f.value == if sv.seen.BadDisk? then BadState(sv.name) else LeaseUnclear(sv.name)
  {
    if sv.seen.BadDisk? then Some(BadState(sv.name))
    else if Grouped(sv, vms) && sv.seen.lease == Unclear then Some(LeaseUnclear(sv.name))
    else None
  }

  /** The first loop of the analysis: it groups the chosen disks, and stops at
      the first one that cannot be read. */
  method ScanLoop(svs: seq<SubVolume>, opts: Options) returns (r: Result<Scanned, Fault>)
    ensures r.Ok? <==> NoStop(svs, opts.vms, |svs|)
    ensures r.Ok? ==> ScannedTo(svs, opts, r.value, |svs|)
    ensures r.Err? ==> exists i :: StoppedAt(svs, opts.vms, i, r.error)
  {
    var s := Scanned(map[], {}, []);
    for i := 0 to |svs|
      invariant NoStop(svs, opts.vms, i) && ScannedTo(svs, opts, s, i)
    {
      var stop := StopOf(svs[i], opts.vms);
      if stop.Some? {
        assert StoppedAt(svs, opts.vms, i, stop.value);
        return Err(stop.value);
      }
      TakeStep(svs, opts, s, i);
      s := Take(s, svs[i], i, opts);
    }
    r := Ok(s);
  }

  /** The scan with its refusals, in their order: an unreadable disk, a name that
      is not on the copy, a copy still being applied. */
  method Scan(svs: seq<SubVolume>, opts: Options) returns (r: Result<map<Bytes, seq<nat>>, Fault>)
    ensures r.Ok? <==> ScanOk(svs, opts)
    ensures r.Ok? ==>
              && r.value.Keys == Keys(svs, opts.vms)
              && forall key :: key in r.value ==> r.value[key] == Disks(svs, key)
    ensures r.Err? ==> FaultOk(svs, opts, r.error)
  {
    ScanOkMeans(svs, opts);
    var scanned := ScanLoop(svs, opts);
    if scanned.Err? {
      return Err(scanned.error);
    }
    ScannedAll(svs, opts.vms);
    var missing := MissingVMs(opts.vms, scanned.value.found);
    if missing != [] {
      assert missing[0] in missing;
      return Err(NotOnCopy(missing));
    }
    assert forall v :: v in Names(opts.vms) ==> v in missing || v in scanned.value.found;
    if scanned.value.busy != [] {
      return Err(StillApplying(scanned.value.busy));
    }
    r := Ok(scanned.value.groups);
  }

  lemma {:induction false} ScanOkMeans(svs: seq<SubVolume>, opts: Options)
    ensures ScanOk(svs, opts) <==>
            NoStop(svs, opts.vms, |svs|) && Names(opts.vms) <= Found(svs) && BusyTo(svs, opts, |svs|) == []
  {
    BusyToEmpty(svs, opts, |svs|);
    if NoStop(svs, opts.vms, |svs|) {
      forall i | 0 <= i < |svs|
        ensures !svs[i].seen.BadDisk? && (Grouped(svs[i], opts.vms) ==> svs[i].seen.lease != Unclear)
      {
        assert !Stops(svs[i], opts.vms);
      }
    }
  }

  // ---- one group ----

  /** The restore points that the first `n` disks of a VM all can show. */
  ghost predicate SharedBy(svs: seq<SubVolume>, disks: seq<nat>, n: nat, m: Instant)
    requires n <= |disks| && forall k :: 0 <= k < |disks| ==> disks[k] < |svs| && svs[disks[k]].seen.Disk?
  {
    forall k :: 0 <= k < n ==> m in Shown(svs[disks[k]].seen.state)
  }

  lemma {:induction false} SharedByAll(svs: seq<SubVolume>, key: Bytes, m: Instant)
    ensures SharedBy(svs, Disks(svs, key), |Disks(svs, key)|, m) <==>
            forall i :: 0 <= i < |svs| && InGroup(svs[i], key) ==> m in Shown(svs[i].seen.state)
  {
    var disks := Disks(svs, key);
    DisksToMembers(svs, key, |svs|);
    if SharedBy(svs, disks, |disks|, m) {
      forall i | 0 <= i < |svs| && InGroup(svs[i], key) ensures m in Shown(svs[i].seen.state) {
        assert i in disks;
        var k :| 0 <= k < |disks| && disks[k] == i;
      }
    }
  }

  /** The intersection loop. */
  method Intersect(svs: seq<SubVolume>, key: Bytes) returns (common: set<Instant>)
    requires Disks(svs, key) != []
    ensures forall m: Instant ::
              m in common <==> forall i :: 0 <= i < |svs| && InGroup(svs[i], key) ==> m in Shown(svs[i].seen.state)
  {
    var disks := Disks(svs, key);
    common := Shown(svs[disks[0]].seen.state);
    for k := 1 to |disks|
      invariant forall m: Instant :: m in common <==> SharedBy(svs, disks, k, m)
    {
      common := common * Shown(svs[disks[k]].seen.state);
    }
    forall m: Instant
      ensures m in common <==> forall i :: 0 <= i < |svs| && InGroup(svs[i], key) ==> m in Shown(svs[i].seen.state)
    {
      SharedByAll(svs, key, m);
    }
  }

  predicate Newer(a: Instant, b: Instant) {
    a >= b
  }

  /** The restore points within reach, newest first. */
  method NewestFirst(common: set<Instant>, rewindTo: Option<Instant>) returns (list: seq<Instant>)
    ensures forall j, k :: 0 <= j < k < |list| ==> list[j] > list[k]
    ensures forall m: Instant :: m in list <==> m in common && InReach(m, rewindTo)
  {
    var left, picked := common, [];
    while left != {}
      invariant left <= common && Distinct(picked)
      invariant forall m: Instant :: m in picked <==> m in common && m !in left && InReach(m, rewindTo)
      decreases left
    {
      var m :| m in left;
      left := left - {m};
      if InReach(m, rewindTo) {
        picked := picked + [m];
      }
    }
    assert TotalPreorder(Newer);
    SortMembers(picked, Newer);
    SortSorts(picked, Newer);
    list := Sort(picked, Newer);
    forall j, k | 0 <= j < k < |list| ensures list[j] > list[k] {
      assert Newer(list[j], list[k]);
      if list[j] == list[k] {
        MultiplicityOfTwo(list, j, k);
        MultiplicityOfDistinct(picked, list[j]);
      }
    }
  }

  /** The second loop of the analysis, for one VM. */
  method AnalyzeGroup(svs: seq<SubVolume>, key: Bytes, opts: Options) returns (r: Result<Analysis, Fault>)
    requires ScanOk(svs, opts) && key in Keys(svs, opts.vms)
    ensures r.Ok? <==> GroupOk(svs, key, opts.rewindTo)
    ensures r.Ok? ==> r.value.disks == Disks(svs, key) && CommonList(svs, key, opts.rewindTo, r.value.common)
    ensures r.Ok? ==> (r.value.common == [] <==> LoneUnknown(svs, key))
    ensures r.Err? ==> FaultOk(svs, opts, r.error)
  {
    var disks := Disks(svs, key);
    DisksToMembers(svs, key, |svs|);
    assert disks != [] by {
      var i :| 0 <= i < |svs| && Grouped(svs[i], opts.vms) && Key(svs[i]).value == key;
      assert i in disks;
    }
    for k := 0 to |disks|
      invariant forall j :: 0 <= j < k ==>
                  svs[disks[j]].seen.state.momentKnown || (|disks| == 1 && opts.rewindTo == None)
    {
      if !svs[disks[k]].seen.state.momentKnown && (|disks| > 1 || opts.rewindTo.Some?) {
        assert InGroup(svs[disks[k]], key);
        return Err(MomentUnknown(key));
      }
    }
    GroupKnown(svs, key, opts.rewindTo);
    if |disks| == 1 && !svs[disks[0]].seen.state.momentKnown {
      return Ok(Analysis(disks, []));
    }
    var common := Intersect(svs, key);
    var list := NewestFirst(common, opts.rewindTo);
    assert forall m: Instant :: m in list <==> CommonMoment(svs, key, opts.rewindTo, m);
    if list == [] {
      return Err(NoCommonMoment(key));
    }
    assert list[0] in list;
    r := Ok(Analysis(disks, list));
  }

  lemma {:induction false} GroupKnown(svs: seq<SubVolume>, key: Bytes, rewindTo: Option<Instant>)
    ensures var disks := Disks(svs, key);
            AllKnown(svs, key) <==> forall j :: 0 <= j < |disks| ==> svs[disks[j]].seen.state.momentKnown
  {
    var disks := Disks(svs, key);
    DisksToMembers(svs, key, |svs|);
    if forall j :: 0 <= j < |disks| ==> svs[disks[j]].seen.state.momentKnown {
      forall i | 0 <= i < |svs| && InGroup(svs[i], key) ensures svs[i].seen.state.momentKnown {
        assert i in disks;
      }
    } else {
      var j :| 0 <= j < |disks| && !svs[disks[j]].seen.state.momentKnown;
      assert InGroup(svs[disks[j]], key);
    }
  }

  /** The whole analysis: for each VM, its disks and the restore points they share. */
  ghost predicate AnalysisOk(svs: seq<SubVolume>, opts: Options, groups: map<Bytes, Analysis>) {
    forall key :: key in groups ==>
      && groups[key].disks == Disks(svs, key)
      && CommonList(svs, key, opts.rewindTo, groups[key].common)
      && (groups[key].common == [] <==> LoneUnknown(svs, key))
  }

  method AnalyzeVMs(svs: seq<SubVolume>, opts: Options) returns (r: Result<map<Bytes, Analysis>, Fault>)
    ensures r.Ok? <==> Analyzable(svs, opts)
    ensures r.Ok? ==> r.value.Keys == Keys(svs, opts.vms) && AnalysisOk(svs, opts, r.value)
    ensures r.Err? ==> FaultOk(svs, opts, r.error)
  {
    var scanned := Scan(svs, opts);
    if scanned.Err? {
      return Err(scanned.error);
    }
    var left := scanned.value.Keys;
    var groups: map<Bytes, Analysis> := map[];
    while left != {}
      invariant left <= Keys(svs, opts.vms) && groups.Keys == Keys(svs, opts.vms) - left
      invariant forall key :: key in groups ==> GroupOk(svs, key, opts.rewindTo)
      invariant AnalysisOk(svs, opts, groups)
      decreases left
    {
      var key :| key in left;
      var one := AnalyzeGroup(svs, key, opts);
      if one.Err? {
        return Err(one.error);
      }
      left := left - {key};
      groups := groups[key := one.value];
    }
    r := Ok(groups);
  }
}
