/** How a failover plan groups the disks of a copy by VM, and what it must choose
  for each VM: the newest restore point that all its disks can show.

  The state of a disk, and whether a copy is still being applied to it, are
  inputs: they are what was read from the share.
 */
module VMPlan {
  import opened Order
  import opened Common
  import opened VMFilter

  const VOLUME_PREFIX: Bytes := [118, 111, 108, 117, 109, 101, 47] // "volume/"

  datatype DiskState = DiskState(momentKnown: bool, group: Bytes, moment: Instant, points: seq<Instant>, modified: bool)

  /** Whether a commit is running on a disk, or that could not be told. */
  datatype Lease = Free | Busy | Unclear

  datatype Observation = NoDisk | BadDisk | Disk(state: DiskState, lease: Lease)

  datatype SubVolume = SubVolume(
    name: Bytes, claim: Bytes, namespace: Bytes, gb: int, path: Bytes, uid: Option<int>, gid: Option<int>,
    perms: Bytes, policy: Bytes, lastSync: Instant, seen: Observation,
    vm: Bytes, moment: Instant, rewind: bool)

  datatype Options = Options(rewindTo: Option<Instant>, force: bool, now: Instant, vms: seq<Bytes>)

  datatype Fault =
    | BadState(name: Bytes)
    | LeaseUnclear(name: Bytes)
    | NotOnCopy(missing: seq<Bytes>)
    | StillApplying(names: seq<Bytes>)
    | MomentUnknown(key: Bytes)
    | NoCommonMoment(key: Bytes)
    | DiskChanged(name: Bytes)

  /** The group a disk belongs to; none for a volume that the receiver did not write. */
  function Key(sv: SubVolume): (k: Option<Bytes>) {
    if !sv.seen.Disk? then None
    else
      var st := sv.seen.state;
      if !st.momentKnown && st.group == [] then None
      else if st.group == [] then Some(VOLUME_PREFIX + sv.name)
      else Some(st.group)
  }

  /** Two disks are in one group exactly when they name the same VM, or are the same disk
      without one, or one names the VM "volume/" and the name of the other, which has none. */
  lemma {:induction false} GroupedTogetherExactly(a: SubVolume, b: SubVolume)
    requires a.seen.Disk? && b.seen.Disk? && Key(a).Some? && Key(b).Some?
    ensures var p, q := a.seen.state.group, b.seen.state.group;
            Key(a) == Key(b) <==>
              || (p == q && (p != [] || a.name == b.name))
              || (p == [] && q == VOLUME_PREFIX + a.name)
              || (q == [] && p == VOLUME_PREFIX + b.name)
  {
    assert (VOLUME_PREFIX + a.name)[|VOLUME_PREFIX|..] == a.name;
    assert (VOLUME_PREFIX + b.name)[|VOLUME_PREFIX|..] == b.name;
  }

  /** A volume is in a group exactly when the receiver wrote its state and knows its moment or
      its VM. */
  lemma {:induction false} GroupedExactly(sv: SubVolume)
    ensures Key(sv).Some? <==> sv.seen.Disk? && (sv.seen.state.momentKnown || sv.seen.state.group != [])
  {
  }

  predicate Chosen(vms: seq<Bytes>, key: Bytes) {
    Names(vms) == {} || key in Names(vms)
  }

  predicate Grouped(sv: SubVolume, vms: seq<Bytes>) {
    Key(sv).Some? && Chosen(vms, Key(sv).value)
  }

  predicate InGroup(sv: SubVolume, key: Bytes) {
    Key(sv) == Some(key)
  }

  /** The disks of a VM among the first `n` volumes, in order. */
  function DisksTo(svs: seq<SubVolume>, key: Bytes, n: nat): (r: seq<nat>)
    requires n <= |svs|
    ensures forall k :: 0 <= k < |r| ==> r[k] < n && InGroup(svs[r[k]], key)
  {
    if n == 0 then []
    else if InGroup(svs[n - 1], key) then DisksTo(svs, key, n - 1) + [n - 1]
    else DisksTo(svs, key, n - 1)
  }

  function Disks(svs: seq<SubVolume>, key: Bytes): (r: seq<nat>) {
    DisksTo(svs, key, |svs|)
  }

  lemma {:induction false} DisksToMembers(svs: seq<SubVolume>, key: Bytes, n: nat)
    requires n <= |svs|
    ensures forall i :: i in DisksTo(svs, key, n) <==> 0 <= i < n && InGroup(svs[i], key)
    ensures Distinct(DisksTo(svs, key, n))
  {
    if n > 0 {
      DisksToMembers(svs, key, n - 1);
    }
  }

  ghost function Keys(svs: seq<SubVolume>, vms: seq<Bytes>): (r: set<Bytes>) {
    set i | 0 <= i < |svs| && Grouped(svs[i], vms) :: Key(svs[i]).value
  }

  /** The VMs on the copy. */
  ghost function Found(svs: seq<SubVolume>): (r: set<Bytes>) {
    set i | 0 <= i < |svs| && Key(svs[i]).Some? && svs[i].seen.state.group != [] :: svs[i].seen.state.group
  }

  /** The restore points a disk can show. */
  function Shown(st: DiskState): (r: set<Instant>) {
    {st.moment} + set p | p in st.points
  }

  predicate InReach(m: Instant, rewindTo: Option<Instant>) {
    rewindTo.Some? ==> m <= rewindTo.value
  }

  /** The restore points that all disks of a VM can show, at or before `rewindTo`. */
  ghost predicate CommonMoment(svs: seq<SubVolume>, key: Bytes, rewindTo: Option<Instant>, m: Instant) {
    && InReach(m, rewindTo)
    && (forall i :: 0 <= i < |svs| && InGroup(svs[i], key) ==> m in Shown(svs[i].seen.state))
  }

  ghost predicate AllKnown(svs: seq<SubVolume>, key: Bytes) {
    forall i :: 0 <= i < |svs| && InGroup(svs[i], key) ==> svs[i].seen.state.momentKnown
  }

  /** A lone disk whose restore point is not known is used as it is. */
  ghost predicate LoneUnknown(svs: seq<SubVolume>, key: Bytes) {
    |Disks(svs, key)| == 1 && !AllKnown(svs, key)
  }

  ghost predicate GroupOk(svs: seq<SubVolume>, key: Bytes, rewindTo: Option<Instant>) {
    && (!AllKnown(svs, key) ==> |Disks(svs, key)| <= 1 && rewindTo == None)
    && (!LoneUnknown(svs, key) ==> exists m :: CommonMoment(svs, key, rewindTo, m))
  }

  ghost predicate Newest(svs: seq<SubVolume>, key: Bytes, rewindTo: Option<Instant>, m: Instant) {
    CommonMoment(svs, key, rewindTo, m) && forall x: Instant :: CommonMoment(svs, key, rewindTo, x) ==> x <= m
  }

  lemma {:induction false} NewestUnique(svs: seq<SubVolume>, key: Bytes, rewindTo: Option<Instant>, a: Instant,
                                        b: Instant)
    requires Newest(svs, key, rewindTo, a) && Newest(svs, key, rewindTo, b)
    ensures a == b
  {
  }

  /** What the scan of the volumes refuses, and in which order. */
  ghost predicate ScanOk(svs: seq<SubVolume>, opts: Options) {
    && (forall i :: 0 <= i < |svs| ==> !svs[i].seen.BadDisk?)
    && (forall i :: 0 <= i < |svs| && Grouped(svs[i], opts.vms) ==> svs[i].seen.lease != Unclear)
    && Names(opts.vms) <= Found(svs)
    && (opts.force || forall i :: 0 <= i < |svs| && Grouped(svs[i], opts.vms) ==> svs[i].seen.lease != Busy)
  }

  /** A plan that can be resolved, up to the check that rewinding fits the disk. */
  ghost predicate Analyzable(svs: seq<SubVolume>, opts: Options) {
    ScanOk(svs, opts) && forall key :: key in Keys(svs, opts.vms) ==> GroupOk(svs, key, opts.rewindTo)
  }

  /** What is true of `common`, the restore points a VM can show, newest first. */
  ghost predicate CommonList(svs: seq<SubVolume>, key: Bytes, rewindTo: Option<Instant>, common: seq<Instant>) {
    && (forall j, k :: 0 <= j < k < |common| ==> common[j] > common[k])
    && (LoneUnknown(svs, key) ==> common == [])
    && (!LoneUnknown(svs, key) ==> forall m :: m in common <==> CommonMoment(svs, key, rewindTo, m))
  }

  lemma {:induction false} DescendingUnique(a: seq<Instant>, b: seq<Instant>)
    requires forall j, k :: 0 <= j < k < |a| ==> a[j] > a[k]
    requires forall j, k :: 0 <= j < k < |b| ==> b[j] > b[k]
    requires forall m :: m in a <==> m in b
    ensures a == b
  {
    assert a != [] ==> a[0] in b;
    assert b != [] ==> b[0] in a;
    if a != [] {
      assert a[0] == b[0];
      forall m ensures m in a[1..] <==> m in b[1..] {
        if m in a[1..] { assert m in a && m != a[0]; assert m in b; }
        if m in b[1..] { assert m in b && m != b[0]; assert m in a; }
      }
      DescendingUnique(a[1..], b[1..]);
      assert a == [a[0]] + a[1..] && b == [b[0]] + b[1..];
    }
  }

  /** The list of common restore points does not depend on how it was built. */
  lemma {:induction false} CommonListUnique(svs: seq<SubVolume>, key: Bytes, rewindTo: Option<Instant>,
                                            a: seq<Instant>, b: seq<Instant>)
    requires CommonList(svs, key, rewindTo, a) && CommonList(svs, key, rewindTo, b)
    ensures a == b
  {
    if !LoneUnknown(svs, key) {
      DescendingUnique(a, b);
    }
  }

  lemma {:induction false} CommonListNewest(svs: seq<SubVolume>, key: Bytes, rewindTo: Option<Instant>,
                                            common: seq<Instant>)
    requires CommonList(svs, key, rewindTo, common) && common != []
    ensures Newest(svs, key, rewindTo, common[0])
  {
    assert common[0] in common;
    forall x | CommonMoment(svs, key, rewindTo, x) ensures x <= common[0] {
      assert x in common;
    }
  }

  // ---- the resolved plan ----

  /** `r` is the entry `sv` of a resolved plan. */
  ghost predicate ResolvedEntry(svs: seq<SubVolume>, opts: Options, sv: SubVolume, r: SubVolume) {
    if Grouped(sv, opts.vms) && !LoneUnknown(svs, Key(sv).value) then
      && Newest(svs, Key(sv).value, opts.rewindTo, r.moment)
      && r == sv.(vm := Key(sv).value, moment := r.moment, lastSync := r.moment,
                  rewind := r.moment != sv.seen.state.moment)
      && !(r.rewind && sv.seen.state.modified)
    else r == sv
  }

  lemma {:induction false} ResolvedEntryUnique(svs: seq<SubVolume>, opts: Options, sv: SubVolume, a: SubVolume,
                                               b: SubVolume)
    requires ResolvedEntry(svs, opts, sv, a) && ResolvedEntry(svs, opts, sv, b)
    ensures a == b
  {
    if Grouped(sv, opts.vms) && !LoneUnknown(svs, Key(sv).value) {
      NewestUnique(svs, Key(sv).value, opts.rewindTo, a.moment, b.moment);
    }
  }

  /** The volumes that stay in the plan: all of them, or the grouped ones if there is a filter. */
  function KeptTo(svs: seq<SubVolume>, vms: seq<Bytes>, n: nat): (r: seq<nat>)
    requires n <= |svs|
    ensures forall k :: 0 <= k < |r| ==> r[k] < n
  {
    if n == 0 then []
    else if vms == [] || Grouped(svs[n - 1], vms) then KeptTo(svs, vms, n - 1) + [n - 1]
    else KeptTo(svs, vms, n - 1)
  }

  function Kept(svs: seq<SubVolume>, vms: seq<Bytes>): (r: seq<nat>) {
    KeptTo(svs, vms, |svs|)
  }

  /** `plan` is what resolving `svs` leaves. */
  ghost predicate Resolved(svs: seq<SubVolume>, opts: Options, plan: seq<SubVolume>) {
    && Analyzable(svs, opts)
    && |plan| == |Kept(svs, opts.vms)|
    && (forall k :: 0 <= k < |plan| ==> ResolvedEntry(svs, opts, svs[Kept(svs, opts.vms)[k]], plan[k]))
  }

  /** The answer is one: no order of iteration can change it. */
  lemma {:induction false} ResolvedUnique(svs: seq<SubVolume>, opts: Options, a: seq<SubVolume>, b: seq<SubVolume>)
    requires Resolved(svs, opts, a) && Resolved(svs, opts, b)
    ensures a == b
  {
    forall k | 0 <= k < |a| ensures a[k] == b[k] {
      ResolvedEntryUnique(svs, opts, svs[Kept(svs, opts.vms)[k]], a[k], b[k]);
    }
  }

  lemma {:induction false} KeptToOrder(svs: seq<SubVolume>, vms: seq<Bytes>, n: nat)
    requires n <= |svs|
    ensures forall j, k :: 0 <= j < k < |KeptTo(svs, vms, n)| ==> KeptTo(svs, vms, n)[j] < KeptTo(svs, vms, n)[k]
    ensures forall i :: i in KeptTo(svs, vms, n) <==> 0 <= i < n && (vms == [] || Grouped(svs[i], vms))
  {
    if n > 0 {
      KeptToOrder(svs, vms, n - 1);
    }
  }

  /** All disks of a VM show one restore point after a resolve. */
  lemma {:induction false} DisksOfAVMAgree(svs: seq<SubVolume>, opts: Options, plan: seq<SubVolume>, j: nat, k: nat)
    requires Resolved(svs, opts, plan) && j < |plan| && k < |plan|
    requires plan[j].vm != [] && plan[j].vm == plan[k].vm
    requires forall i :: 0 <= i < |svs| ==> svs[i].vm == []
    ensures plan[j].moment == plan[k].moment == plan[j].lastSync == plan[k].lastSync
    ensures Newest(svs, plan[j].vm, opts.rewindTo, plan[j].moment)
  {
    var kept := Kept(svs, opts.vms);
    assert ResolvedEntry(svs, opts, svs[kept[j]], plan[j]);
    assert ResolvedEntry(svs, opts, svs[kept[k]], plan[k]);
    NewestUnique(svs, plan[j].vm, opts.rewindTo, plan[j].moment, plan[k].moment);
  }

  /** A disk is rewound exactly when it does not show the chosen restore point
      now, and never when something wrote to it after its last copy. */
  lemma {:induction false} RewindExactlyWhenNeeded(svs: seq<SubVolume>, opts: Options, plan: seq<SubVolume>, k: nat)
    requires Resolved(svs, opts, plan) && k < |plan|
    requires forall i :: 0 <= i < |svs| ==> svs[i].vm == [] && !svs[i].rewind
    ensures plan[k].vm != [] && plan[k].seen.Disk? ==> (plan[k].rewind <==> plan[k].moment != plan[k].seen.state.moment)
    ensures plan[k].rewind ==> plan[k].vm != [] && plan[k].seen.Disk? && !plan[k].seen.state.modified
  {
    assert ResolvedEntry(svs, opts, svs[Kept(svs, opts.vms)[k]], plan[k]);
  }

  // ---- the filter ----

  /** With a filter that names a VM, the plan holds exactly the disks of the named
      VMs, in their order. */
  lemma {:induction false} FilterKeepsExactly(svs: seq<SubVolume>, vms: seq<Bytes>, i: nat)
    requires Names(vms) != {} && i < |svs|
    ensures i in Kept(svs, vms) <==> exists v :: v in Names(vms) && InGroup(svs[i], v)
  {
    KeptToOrder(svs, vms, |svs|);
    if Grouped(svs[i], vms) {
      assert InGroup(svs[i], Key(svs[i]).value);
    }
    assert vms != [];
  }

  /** A filter of empty names alone selects every VM, yet still drops the volumes
      that are not VM disks. */
  lemma {:induction false} BlankFilterDropsPlainVolumes(svs: seq<SubVolume>, vms: seq<Bytes>, i: nat)
    requires vms != [] && Names(vms) == {} && i < |svs|
    ensures i in Kept(svs, vms) <==> Key(svs[i]).Some?
    ensures i in Kept(svs, [])
  {
    KeptToOrder(svs, vms, |svs|);
    KeptToOrder(svs, [], |svs|);
  }

  lemma {:induction false} KeptToAll(svs: seq<SubVolume>, n: nat)
    requires n <= |svs|
    ensures |KeptTo(svs, [], n)| == n
    ensures forall k :: 0 <= k < n ==> KeptTo(svs, [], n)[k] == k
  {
    if n > 0 {
      KeptToAll(svs, n - 1);
    }
  }

  /** A VM that the filter names gets the same restore point and the same marks as
      it gets without the filter, whenever both plans exist. */
  lemma {:induction false} FilterChangesNoChoice(svs: seq<SubVolume>, opts: Options, some: seq<SubVolume>,
                                                 all: seq<SubVolume>, k: nat)
    requires Resolved(svs, opts, some) && Resolved(svs, opts.(vms := []), all) && k < |some|
    ensures |all| == |svs| && Kept(svs, opts.vms)[k] < |all|
    ensures some[k] == all[Kept(svs, opts.vms)[k]]
  {
    var i := Kept(svs, opts.vms)[k];
    KeptToAll(svs, |svs|);
    KeptToOrder(svs, opts.vms, |svs|);
    assert i in Kept(svs, opts.vms);
    assert Names([]) == {};
    var sv := svs[i];
    assert ResolvedEntry(svs, opts, sv, some[k]);
    assert ResolvedEntry(svs, opts.(vms := []), sv, all[i]);
    if Key(sv).Some? && !LoneUnknown(svs, Key(sv).value) {
      NewestUnique(svs, Key(sv).value, opts.rewindTo, some[k].moment, all[i].moment);
    }
  }

  lemma {:induction false} KeptToSameNames(svs: seq<SubVolume>, a: seq<Bytes>, b: seq<Bytes>, n: nat)
    requires Names(a) == Names(b) && (a == [] <==> b == []) && n <= |svs|
    ensures KeptTo(svs, a, n) == KeptTo(svs, b, n)
  {
    if n > 0 {
      KeptToSameNames(svs, a, b, n - 1);
    }
  }

  /** The order and repeats of the filter do not matter. */
  lemma {:induction false} FilterOrderDoesNotMatter(svs: seq<SubVolume>, opts: Options, vms: seq<Bytes>,
                                                    plan: seq<SubVolume>)
    requires Names(vms) == Names(opts.vms) && (vms == [] <==> opts.vms == [])
    ensures Resolved(svs, opts, plan) <==> Resolved(svs, opts.(vms := vms), plan)
  {
    KeptToSameNames(svs, opts.vms, vms, |svs|);
    assert forall sv :: Grouped(sv, vms) <==> Grouped(sv, opts.vms);
    assert Keys(svs, vms) == Keys(svs, opts.vms);
    var other := opts.(vms := vms);
    assert ScanOk(svs, opts) <==> ScanOk(svs, other);
    assert forall sv, r :: ResolvedEntry(svs, opts, sv, r) <==> ResolvedEntry(svs, other, sv, r);
  }

  /** A filter that is accepted names only VMs that have a disk on the copy. */
  lemma {:induction false} FilterRefusedIfNotOnCopy(svs: seq<SubVolume>, opts: Options, plan: seq<SubVolume>, v: Bytes)
    requires v in opts.vms && v != [] && Resolved(svs, opts, plan)
    ensures exists i :: 0 <= i < |svs| && svs[i].seen.Disk? && svs[i].seen.state.group == v
  {
    assert v in Names(opts.vms);
    assert v in Found(svs);
  }

  // ---- what a plan chooses, by the states of the disks alone ----

  /** The disk is at the instant now, or has kept a restore point of it. */
  predicate CanShow(st: DiskState, m: Instant) {
    m == st.moment || m in st.points
  }

  ghost predicate AllCanShow(svs: seq<SubVolume>, key: Bytes, m: Instant) {
    forall i :: 0 <= i < |svs| && InGroup(svs[i], key) ==> CanShow(svs[i].seen.state, m)
  }

  /** The instant that a plan gives to a disk is the latest, at or before the time asked for,
      that each disk of the VM is at or has a restore point of. */
  lemma {:induction false} ChosenIsNewestOfAll(svs: seq<SubVolume>, opts: Options, plan: seq<SubVolume>, k: nat)
    requires Resolved(svs, opts, plan) && k < |plan| && plan[k].vm != []
    requires forall i :: 0 <= i < |svs| ==> svs[i].vm == []
    ensures opts.rewindTo.None? || plan[k].moment <= opts.rewindTo.value
    ensures AllCanShow(svs, plan[k].vm, plan[k].moment)
    ensures forall m: Instant :: AllCanShow(svs, plan[k].vm, m) && (opts.rewindTo.None? || m <= opts.rewindTo.value) ==>
              m <= plan[k].moment
  {
    var key := plan[k].vm;
    assert ResolvedEntry(svs, opts, svs[Kept(svs, opts.vms)[k]], plan[k]);
    forall m: Instant | AllCanShow(svs, key, m) && (opts.rewindTo.None? || m <= opts.rewindTo.value)
      ensures m <= plan[k].moment
    {
      assert CommonMoment(svs, key, opts.rewindTo, m);
    }
  }

  /** All disks of the VM are at `m` and have nothing later. */
  ghost predicate Together(svs: seq<SubVolume>, key: Bytes, m: Instant) {
    forall i :: 0 <= i < |svs| && InGroup(svs[i], key) ==>
      && svs[i].seen.state.momentKnown && svs[i].seen.state.moment == m
      && (forall p :: p in svs[i].seen.state.points ==> p <= m)
  }

  /** A VM whose disks are together is used as it is: that is possible, and then no disk
      of it is rewound. */
  lemma {:induction false} TogetherIsKept(svs: seq<SubVolume>, opts: Options, key: Bytes, m: Instant)
    requires Together(svs, key, m) && (opts.rewindTo.None? || m <= opts.rewindTo.value) && key in Keys(svs, opts.vms)
    ensures GroupOk(svs, key, opts.rewindTo) && !LoneUnknown(svs, key) && Newest(svs, key, opts.rewindTo, m)
    ensures forall plan: seq<SubVolume>, k :: Resolved(svs, opts, plan) && 0 <= k < |plan| && InGroup(plan[k], key) ==>
              plan[k].vm == key && plan[k].moment == m && !plan[k].rewind
  {
    var j :| 0 <= j < |svs| && Grouped(svs[j], opts.vms) && Key(svs[j]).value == key;
    assert InGroup(svs[j], key) && CommonMoment(svs, key, opts.rewindTo, m);
    forall x: Instant | CommonMoment(svs, key, opts.rewindTo, x) ensures x <= m {
      assert x in Shown(svs[j].seen.state);
    }
    forall plan: seq<SubVolume>, k | Resolved(svs, opts, plan) && 0 <= k < |plan| && InGroup(plan[k], key)
      ensures plan[k].vm == key && plan[k].moment == m && !plan[k].rewind
    {
      TogetherEntry(svs, opts, plan, key, m, k);
    }
  }

  lemma {:induction false} TogetherEntry(svs: seq<SubVolume>, opts: Options, plan: seq<SubVolume>, key: Bytes,
                                         m: Instant, k: nat)
    requires Together(svs, key, m) && Newest(svs, key, opts.rewindTo, m) && !LoneUnknown(svs, key)
    requires Chosen(opts.vms, key) && Resolved(svs, opts, plan) && k < |plan| && InGroup(plan[k], key)
    ensures plan[k].vm == key && plan[k].moment == m && !plan[k].rewind
  {
    SameGroup(svs, opts, plan, k);
    var i := Kept(svs, opts.vms)[k];
    assert ResolvedEntry(svs, opts, svs[i], plan[k]) && InGroup(svs[i], key);
    NewestUnique(svs, key, opts.rewindTo, m, plan[k].moment);
  }

  // ---- when there is a plan ----

  /** Chosen disk `i` would have to be rewound to `m` although something wrote to it. */
  ghost predicate ChangedDisk(svs: seq<SubVolume>, opts: Options, i: int, m: Instant) {
    && 0 <= i < |svs| && Grouped(svs[i], opts.vms) && !LoneUnknown(svs, Key(svs[i]).value)
    && Newest(svs, Key(svs[i]).value, opts.rewindTo, m)
    && m != svs[i].seen.state.moment && svs[i].seen.state.modified
  }

  ghost predicate Resolvable(svs: seq<SubVolume>, opts: Options) {
    exists plan :: Resolved(svs, opts, plan)
  }

  ghost predicate HasEntry(svs: seq<SubVolume>, opts: Options, sv: SubVolume) {
    exists r :: ResolvedEntry(svs, opts, sv, r)
  }

  /** A plan exists exactly when the disks can be analyzed and no chosen disk that would
      have to be rewound was written to. */
  lemma {:induction false} ResolvableExactlyWhen(svs: seq<SubVolume>, opts: Options)
    ensures Resolvable(svs, opts) <==> Analyzable(svs, opts) && forall i, m :: !ChangedDisk(svs, opts, i, m)
  {
    if Resolvable(svs, opts) {
      var plan :| Resolved(svs, opts, plan);
      forall i, m ensures !ChangedDisk(svs, opts, i, m) {
        if ChangedDisk(svs, opts, i, m) {
          NoChangedDisk(svs, opts, i, m, plan);
        }
      }
    }
    if Analyzable(svs, opts) && forall i, m :: !ChangedDisk(svs, opts, i, m) {
      forall i | 0 <= i < |svs| ensures HasEntry(svs, opts, svs[i]) {
        EntryExists(svs, opts, i);
      }
      PlanExists(svs, opts, Kept(svs, opts.vms));
    }
  }

  lemma {:induction false} NoChangedDisk(svs: seq<SubVolume>, opts: Options, i: int, m: Instant, plan: seq<SubVolume>)
    requires Resolved(svs, opts, plan) && 0 <= i < |svs| && Grouped(svs[i], opts.vms)
    requires !LoneUnknown(svs, Key(svs[i]).value) && Newest(svs, Key(svs[i]).value, opts.rewindTo, m)
    ensures m != svs[i].seen.state.moment ==> !svs[i].seen.state.modified
  {
    KeptToOrder(svs, opts.vms, |svs|);
    assert i in Kept(svs, opts.vms);
    var k :| 0 <= k < |plan| && Kept(svs, opts.vms)[k] == i;
    assert ResolvedEntry(svs, opts, svs[i], plan[k]);
    NewestUnique(svs, Key(svs[i]).value, opts.rewindTo, m, plan[k].moment);
  }

  lemma {:induction false} EntryExists(svs: seq<SubVolume>, opts: Options, i: nat)
    requires Analyzable(svs, opts) && i < |svs| && forall j, m :: !ChangedDisk(svs, opts, j, m)
    ensures HasEntry(svs, opts, svs[i])
  {
    var sv := svs[i];
    if Grouped(sv, opts.vms) && !LoneUnknown(svs, Key(sv).value) {
      var key := Key(sv).value;
      assert key in Keys(svs, opts.vms) && GroupOk(svs, key, opts.rewindTo) && InGroup(sv, key);
      var m0 :| CommonMoment(svs, key, opts.rewindTo, m0);
      var m := GreatestCommon(svs, key, opts.rewindTo, i, m0);
      assert !ChangedDisk(svs, opts, i, m);
      var r := sv.(vm := key, moment := m, lastSync := m, rewind := m != sv.seen.state.moment);
      assert ResolvedEntry(svs, opts, sv, r);
    } else {
      assert ResolvedEntry(svs, opts, sv, sv);
    }
  }

  /** Of the instants that a VM can show there is a newest, as one disk can show only so many. */
  lemma {:induction false} GreatestCommon(svs: seq<SubVolume>, key: Bytes, rewindTo: Option<Instant>, i: nat,
                                          m0: Instant)
    returns (m: Instant)
    requires i < |svs| && InGroup(svs[i], key) && CommonMoment(svs, key, rewindTo, m0)
    ensures Newest(svs, key, rewindTo, m)
  {
    m := m0;
    var left := Shown(svs[i].seen.state);
    while left != {}
      invariant CommonMoment(svs, key, rewindTo, m)
      invariant forall x: Instant :: CommonMoment(svs, key, rewindTo, x) ==> x <= m || x in left
      decreases left
    {
      var x :| x in left;
      if CommonMoment(svs, key, rewindTo, x) && x > m {
        m := x;
      }
      left := left - {x};
    }
  }

  lemma {:induction false} PlanExists(svs: seq<SubVolume>, opts: Options, kept: seq<nat>)
    requires Analyzable(svs, opts) && kept == Kept(svs, opts.vms)
    requires forall i :: 0 <= i < |svs| ==> HasEntry(svs, opts, svs[i])
    ensures Resolvable(svs, opts)
  {
    var plan := [];
    for k := 0 to |kept|
      invariant |plan| == k && forall j :: 0 <= j < k ==> ResolvedEntry(svs, opts, svs[kept[j]], plan[j])
    {
      assert HasEntry(svs, opts, svs[kept[k]]);
      var r :| ResolvedEntry(svs, opts, svs[kept[k]], r);
      plan := plan + [r];
    }
    assert Resolved(svs, opts, plan);
  }

  /** When every chosen VM is together, at an instant in reach, and nothing is wrong with
      the copy, there is a plan; TogetherIsKept says what it is. */
  lemma {:induction false} TogetherIsResolvable(svs: seq<SubVolume>, opts: Options)
    requires ScanOk(svs, opts)
    requires forall key :: key in Keys(svs, opts.vms) ==>
               exists m: Instant :: (opts.rewindTo.None? || m <= opts.rewindTo.value) && Together(svs, key, m)
    ensures Resolvable(svs, opts)
  {
    forall key | key in Keys(svs, opts.vms) ensures GroupOk(svs, key, opts.rewindTo) {
      var m: Instant :| (opts.rewindTo.None? || m <= opts.rewindTo.value) && Together(svs, key, m);
      TogetherIsKept(svs, opts, key, m);
    }
    forall i, x ensures !ChangedDisk(svs, opts, i, x) {
      if ChangedDisk(svs, opts, i, x) {
        var key := Key(svs[i]).value;
        assert key in Keys(svs, opts.vms) && InGroup(svs[i], key);
        var m: Instant :| (opts.rewindTo.None? || m <= opts.rewindTo.value) && Together(svs, key, m);
        TogetherIsKept(svs, opts, key, m);
        NewestUnique(svs, key, opts.rewindTo, m, x);
      }
    }
    ResolvableExactlyWhen(svs, opts);
  }

  // ---- a resolved plan, analyzed again ----

  lemma {:induction false} KeptPrefix(svs: seq<SubVolume>, vms: seq<Bytes>, n: nat)
    requires n <= |svs|
    ensures KeptTo(svs, vms, n) <= Kept(svs, vms)
    decreases |svs| - n
  {
    if n < |svs| {
      KeptPrefix(svs, vms, n + 1);
    }
  }

  /** Entry `k` of a resolved plan is in the groups that its volume was in. */
  lemma {:induction false} SameGroup(svs: seq<SubVolume>, opts: Options, plan: seq<SubVolume>, k: nat)
    requires Resolved(svs, opts, plan) && k < |plan|
    ensures Key(plan[k]) == Key(svs[Kept(svs, opts.vms)[k]]) && plan[k].seen == svs[Kept(svs, opts.vms)[k]].seen
  {
    assert ResolvedEntry(svs, opts, svs[Kept(svs, opts.vms)[k]], plan[k]);
  }

  /** Each entry of the plan is in the group that its volume is in. */
  ghost predicate SameKeys(svs: seq<SubVolume>, vms: seq<Bytes>, plan: seq<SubVolume>) {
    |plan| == |Kept(svs, vms)| && forall k :: 0 <= k < |plan| ==> Key(plan[k]) == Key(svs[Kept(svs, vms)[k]])
  }

  /** Volume `n` of the copy, if the plan keeps it, is the entry after those kept before it. */
  lemma {:induction false} EntryOf(svs: seq<SubVolume>, vms: seq<Bytes>, plan: seq<SubVolume>, n: nat)
    requires SameKeys(svs, vms, plan) && n < |svs| && (vms == [] || Grouped(svs[n], vms))
    ensures var k := |KeptTo(svs, vms, n)|;
            k < |plan| && Key(plan[k]) == Key(svs[n]) && |KeptTo(svs, vms, n + 1)| == k + 1
  {
    KeptPrefix(svs, vms, n + 1);
    assert Kept(svs, vms)[|KeptTo(svs, vms, n)|] == n;
  }

  lemma {:induction false} SameDisks(svs: seq<SubVolume>, vms: seq<Bytes>, plan: seq<SubVolume>, key: Bytes, n: nat)
    requires SameKeys(svs, vms, plan) && Chosen(vms, key) && n <= |svs|
    ensures |KeptTo(svs, vms, n)| <= |plan|
    ensures |DisksTo(plan, key, |KeptTo(svs, vms, n)|)| == |DisksTo(svs, key, n)|
  {
    if n > 0 {
      SameDisks(svs, vms, plan, key, n - 1);
      if vms == [] || Grouped(svs[n - 1], vms) {
        EntryOf(svs, vms, plan, n - 1);
        OneMoreDisk(svs, plan, key, n - 1, |KeptTo(svs, vms, n - 1)|);
      } else {
        NotAmongKept(svs, vms, key, n - 1);
      }
    }
  }

  lemma {:induction false} NotAmongKept(svs: seq<SubVolume>, vms: seq<Bytes>, key: Bytes, n: nat)
    requires n < |svs| && vms != [] && !Grouped(svs[n], vms) && Chosen(vms, key)
    ensures KeptTo(svs, vms, n + 1) == KeptTo(svs, vms, n) && DisksTo(svs, key, n + 1) == DisksTo(svs, key, n)
  {
  }

  lemma {:induction false} OneMoreDisk(svs: seq<SubVolume>, plan: seq<SubVolume>, key: Bytes, n: nat, k: nat)
    requires n < |svs| && k < |plan| && Key(plan[k]) == Key(svs[n]) && |DisksTo(plan, key, k)| == |DisksTo(svs, key, n)|
    ensures |DisksTo(plan, key, k + 1)| == |DisksTo(svs, key, n + 1)|
  {
  }

  /** A volume of a chosen group is in the plan, and the plan has no other. */
  lemma {:induction false} GroupIsKept(svs: seq<SubVolume>, opts: Options, plan: seq<SubVolume>, key: Bytes)
    requires Resolved(svs, opts, plan) && Chosen(opts.vms, key)
    ensures forall i :: 0 <= i < |svs| && InGroup(svs[i], key) ==>
              exists k :: 0 <= k < |plan| && InGroup(plan[k], key) && plan[k].seen == svs[i].seen
    ensures forall k :: 0 <= k < |plan| && InGroup(plan[k], key) ==>
              exists i :: 0 <= i < |svs| && InGroup(svs[i], key) && plan[k].seen == svs[i].seen
  {
    var kept := Kept(svs, opts.vms);
    KeptToOrder(svs, opts.vms, |svs|);
    forall i | 0 <= i < |svs| && InGroup(svs[i], key)
      ensures exists k :: 0 <= k < |plan| && InGroup(plan[k], key) && plan[k].seen == svs[i].seen
    {
      assert i in kept;
      var k :| 0 <= k < |kept| && kept[k] == i;
      SameGroup(svs, opts, plan, k);
    }
    forall k | 0 <= k < |plan| && InGroup(plan[k], key)
      ensures exists i :: 0 <= i < |svs| && InGroup(svs[i], key) && plan[k].seen == svs[i].seen
    {
      SameGroup(svs, opts, plan, k);
      assert InGroup(svs[kept[k]], key);
    }
  }

  /** A resolve leaves a VM the restore points it had: the plan's own list of them
      is the list of the volumes it was made from. */
  lemma {:induction false} ResolveKeepsMoments(svs: seq<SubVolume>, opts: Options, plan: seq<SubVolume>, key: Bytes)
    requires Resolved(svs, opts, plan) && Chosen(opts.vms, key)
    ensures forall m :: CommonMoment(plan, key, opts.rewindTo, m) <==> CommonMoment(svs, key, opts.rewindTo, m)
    ensures AllKnown(plan, key) <==> AllKnown(svs, key)
    ensures LoneUnknown(plan, key) <==> LoneUnknown(svs, key)
    ensures |Disks(plan, key)| == |Disks(svs, key)|
  {
    assert SameKeys(svs, opts.vms, plan) by {
      forall k | 0 <= k < |plan| ensures Key(plan[k]) == Key(svs[Kept(svs, opts.vms)[k]]) {
        SameGroup(svs, opts, plan, k);
      }
    }
    SameDisks(svs, opts.vms, plan, key, |svs|);
    GroupIsKept(svs, opts, plan, key);
  }

  lemma {:induction false} SameCommonList(svs: seq<SubVolume>, opts: Options, plan: seq<SubVolume>, key: Bytes,
                                          common: seq<Instant>)
    requires Resolved(svs, opts, plan) && Chosen(opts.vms, key) && CommonList(plan, key, opts.rewindTo, common)
    ensures CommonList(svs, key, opts.rewindTo, common)
  {
    ResolveKeepsMoments(svs, opts, plan, key);
  }

  /** A plan that was resolved can be analyzed again, so the list of restore points
      that a Job reports never fails on its own. */
  lemma {:induction false} ResolvedIsAnalyzable(svs: seq<SubVolume>, opts: Options, plan: seq<SubVolume>)
    requires Resolved(svs, opts, plan)
    ensures Analyzable(plan, opts)
  {
    var kept := Kept(svs, opts.vms);
    forall k | 0 <= k < |plan| ensures plan[k].seen == svs[kept[k]].seen && Key(plan[k]) == Key(svs[kept[k]]) {
      SameGroup(svs, opts, plan, k);
    }
    assert ScanOk(plan, opts) by { FoundIsKept(svs, opts, plan); }
    forall key | key in Keys(plan, opts.vms) ensures GroupOk(plan, key, opts.rewindTo) {
      var k :| 0 <= k < |plan| && Grouped(plan[k], opts.vms) && Key(plan[k]).value == key;
      assert key in Keys(svs, opts.vms) && GroupOk(svs, key, opts.rewindTo);
      ResolveKeepsMoments(svs, opts, plan, key);
    }
  }

  lemma {:induction false} FoundIsKept(svs: seq<SubVolume>, opts: Options, plan: seq<SubVolume>)
    requires Resolved(svs, opts, plan)
    ensures Names(opts.vms) <= Found(plan)
  {
    var kept := Kept(svs, opts.vms);
    KeptToOrder(svs, opts.vms, |svs|);
    forall v | v in Names(opts.vms) ensures v in Found(plan) {
      var i :| 0 <= i < |svs| && Key(svs[i]).Some? && svs[i].seen.state.group != [] && svs[i].seen.state.group == v;
      assert i in kept;
      var k :| 0 <= k < |kept| && kept[k] == i;
      SameGroup(svs, opts, plan, k);
    }
  }
}
