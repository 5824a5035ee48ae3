/** The exports of one volume among the snapshots of a repository, and the export
  that a time asks for.
 */
module Exports {
  import opened Order
  import opened Common
  import Paths
  import Manifest

  datatype Snapshot = Snapshot(id: Bytes, root: Bytes, volume: Bytes, path: Bytes, start: nat, moment: Instant)

  datatype Params = Params(policy: Bytes, volume: Bytes, sourceRoot: Bytes)

  /** A backup snapshot without an ID stands for none. */
  datatype Export = Export(moment: Instant, backup: Snapshot, moments: Option<Snapshot>)

  const SHARE0: Bytes := [47, 115, 104, 97, 114, 101, 48]
  const SLASH_BACKUP: Bytes := [47, 98, 97, 99, 107, 117, 112, 47]
  const SLASH_PVCS: Bytes := [47, 112, 118, 99, 115, 47]
  const SLASH_MOMENTS: Bytes := [47, 46, 109, 111, 109, 101, 110, 116, 115]
  const NO_SNAPSHOT := Snapshot([], [], [], [], 0, 0)

  function RootOf(p: Params): (r: Bytes)
    ensures r != []
  {
    if p.sourceRoot == [] then SHARE0 else p.sourceRoot
  }

  function BackupPath(p: Params): (r: Bytes) {
    RootOf(p) + SLASH_BACKUP + (p.policy + (SLASH_PVCS + p.volume))
  }

  function MomentsPath(p: Params): (r: Bytes) {
    RootOf(p) + SLASH_BACKUP + (p.policy + (SLASH_MOMENTS + (SLASH_PVCS + p.volume)))
  }

  // ---- paths tell volumes apart ----

  lemma {:induction false} SplitPolicy(policy: Bytes, after: Bytes)
    requires Paths.SLASH !in policy && after != [] && after[0] == Paths.SLASH
    ensures Paths.Split(policy + after) == [policy] + Paths.Split(after[1..])
  {
    Paths.SplitHead(policy, after);
    assert Paths.Split(after)[0] == [] && Paths.Split(after)[1..] == Paths.Split(after[1..]);
    assert policy + [] == policy;
  }

  lemma {:induction false} SplitTail(p: Params)
    requires Paths.SLASH !in p.policy && Paths.SLASH !in p.volume
    ensures Paths.Split(p.policy + (SLASH_PVCS + p.volume)) == [p.policy, SLASH_PVCS[1..5], p.volume]
    ensures Paths.Split(p.policy + (SLASH_MOMENTS + (SLASH_PVCS + p.volume))) ==
            [p.policy, SLASH_MOMENTS[1..], SLASH_PVCS[1..5], p.volume]
  {
    var pvcs: Bytes := SLASH_PVCS[1..5];
    var hidden: Bytes := SLASH_MOMENTS[1..];
    var last: Bytes := [Paths.SLASH] + p.volume;
    assert last[1..] == p.volume;
    assert Paths.Split(p.volume) == [p.volume] by {
      Paths.SplitHead(p.volume, []);
      assert p.volume + [] == p.volume;
    }
    SplitPolicy(pvcs, last);
    var tail := SLASH_PVCS + p.volume;
    assert tail[1..] == pvcs + last;
    SplitPolicy(p.policy, tail);
    SplitPolicy(hidden, tail);
    var both := SLASH_MOMENTS + tail;
    assert both[1..] == hidden + tail;
    SplitPolicy(p.policy, both);
  }

  /** For names without a slash, the folder of a snapshot tells its policy and its
      volume, and a backup folder is never a moments folder. */
  lemma {:induction false} PathTellsVolume(p: Params, q: Params)
    requires Paths.SLASH !in p.policy && Paths.SLASH !in p.volume
    requires Paths.SLASH !in q.policy && Paths.SLASH !in q.volume
    requires RootOf(p) == RootOf(q)
    ensures BackupPath(p) == BackupPath(q) ==> p.policy == q.policy && p.volume == q.volume
    ensures MomentsPath(p) == MomentsPath(q) ==> p.policy == q.policy && p.volume == q.volume
    ensures BackupPath(p) != MomentsPath(q)
  {
    SplitTail(p);
    SplitTail(q);
    var head := RootOf(p) + SLASH_BACKUP;
    var a, b := p.policy + (SLASH_PVCS + p.volume), q.policy + (SLASH_PVCS + q.volume);
    var c := p.policy + (SLASH_MOMENTS + (SLASH_PVCS + p.volume));
    var d := q.policy + (SLASH_MOMENTS + (SLASH_PVCS + q.volume));
    DropHead(head, a, b);
    DropHead(head, c, d);
    DropHead(head, a, d);
    assert |Paths.Split(a)| == 3 && |Paths.Split(d)| == 4;
    if a == b {
      assert Paths.Split(a)[0] == Paths.Split(b)[0] && Paths.Split(a)[2] == Paths.Split(b)[2];
    }
    if c == d {
      assert Paths.Split(c)[0] == Paths.Split(d)[0] && Paths.Split(c)[3] == Paths.Split(d)[3];
    }
  }

  lemma {:induction false} DropHead(head: Bytes, a: Bytes, b: Bytes)
    ensures head + a == head + b <==> a == b
  {
    assert (head + a)[|head|..] == a && (head + b)[|head|..] == b;
  }

  // ---- which snapshots count ----

  predicate Ours(s: Snapshot, p: Params) {
    s.volume == p.volume && s.moment != 0 && Manifest.ValidOID(s.root)
  }

  predicate IsBackup(s: Snapshot, p: Params, t: Instant) {
    Ours(s, p) && s.path == BackupPath(p) && s.moment == t
  }

  predicate IsMoments(s: Snapshot, p: Params, t: Instant) {
    Ours(s, p) && s.path == MomentsPath(p) && s.path != BackupPath(p) && s.moment == t
  }

  ghost predicate NewestBackup(s: Snapshot, all: seq<Snapshot>, p: Params, t: Instant) {
    s in all && IsBackup(s, p, t) && forall other :: other in all && IsBackup(other, p, t) ==> other.start <= s.start
  }

  ghost predicate NewestMoments(s: Snapshot, all: seq<Snapshot>, p: Params, t: Instant) {
    s in all && IsMoments(s, p, t) && forall other :: other in all && IsMoments(other, p, t) ==> other.start <= s.start
  }

  /** What one export holds, after some snapshots. */
  ghost predicate ExportOk(e: Export, all: seq<Snapshot>, p: Params) {
    && (e.backup.id != [] ==> NewestBackup(e.backup, all, p, e.moment))
    && (e.backup.id == [] ==> forall s :: s in all ==> !IsBackup(s, p, e.moment))
    && (e.moments.Some? ==> NewestMoments(e.moments.value, all, p, e.moment))
    && (e.moments.None? ==> forall s :: s in all ==> !IsMoments(s, p, e.moment))
  }

  /** Every backup of the volume has an ID. */
  ghost predicate Identified(all: seq<Snapshot>, p: Params) {
    forall s :: s in all && IsBackup(s, p, s.moment) ==> s.id != []
  }

  ghost predicate Grouped(groups: map<Instant, Export>, all: seq<Snapshot>, p: Params) {
    && (forall t :: t in groups ==> groups[t].moment == t && ExportOk(groups[t], all, p))
    && (forall s :: s in all && (IsBackup(s, p, s.moment) || IsMoments(s, p, s.moment)) ==> s.moment in groups)
  }

  /** Whatever the IDs: an export holds only snapshots of this volume's folders. */
  ghost predicate SafeExport(e: Export, all: seq<Snapshot>, p: Params) {
    && (e.backup.id != [] ==> e.backup in all && OfVolume(e.backup, p, e.moment) && e.backup.path == BackupPath(p))
    && (e.moments.Some? ==>
          && e.moments.value in all && OfVolume(e.moments.value, p, e.moment)
          && e.moments.value.path == MomentsPath(p))
  }

  /** A snapshot of this volume at that time, whose root Kopia may be asked for. */
  predicate OfVolume(s: Snapshot, p: Params, t: Instant) {
    s.volume == p.volume && s.moment == t && t != 0 && Manifest.ValidOID(s.root)
  }

  ghost predicate Safe(groups: map<Instant, Export>, all: seq<Snapshot>, p: Params) {
    forall t :: t in groups ==> groups[t].moment == t && SafeExport(groups[t], all, p)
  }

  function Start(t: Instant): (e: Export) {
    Export(t, NO_SNAPSHOT, None)
  }

  function Put(e: Export, s: Snapshot, p: Params): (r: Export)
    ensures r.moment == e.moment
  {
    if s.path == BackupPath(p) then if e.backup.id == [] || s.start > e.backup.start then e.(backup := s) else e
    else if e.moments.None? || s.start > e.moments.value.start then e.(moments := Some(s)) else e
  }

  lemma {:induction false} StartOk(t: Instant, all: seq<Snapshot>, p: Params)
    requires forall s :: s in all && (IsBackup(s, p, s.moment) || IsMoments(s, p, s.moment)) ==> s.moment != t
    ensures ExportOk(Start(t), all, p)
  {
    forall s | s in all ensures !IsBackup(s, p, t) && !IsMoments(s, p, t) {
      if s.moment == t {
        assert !IsBackup(s, p, s.moment) && !IsMoments(s, p, s.moment);
      }
    }
  }

  lemma {:induction false} PutOk(e: Export, all: seq<Snapshot>, s: Snapshot, p: Params)
    requires ExportOk(e, all, p) && (s.path == BackupPath(p) ==> s.id != [])
    requires IsBackup(s, p, e.moment) || IsMoments(s, p, e.moment)
    ensures ExportOk(Put(e, s, p), all + [s], p)
  {
  }

  lemma {:induction false} OtherOk(e: Export, all: seq<Snapshot>, s: Snapshot, p: Params)
    requires ExportOk(e, all, p) && !IsBackup(s, p, e.moment) && !IsMoments(s, p, e.moment)
    ensures ExportOk(e, all + [s], p)
  {
  }

  /** The exports of the volume, as they must be. */
  ghost predicate ExportsOk(out: seq<Export>, all: seq<Snapshot>, p: Params) {
    && (forall i, j :: 0 <= i < j < |out| ==> out[i].moment < out[j].moment)
    && (forall k :: 0 <= k < |out| ==> out[k].backup.id != [] && ExportOk(out[k], all, p))
    && (forall s :: s in all && IsBackup(s, p, s.moment) ==> exists k :: 0 <= k < |out| && out[k].moment == s.moment)
  }

  predicate ByMoment(a: Export, b: Export) {
    a.moment <= b.moment
  }

  /** exportsOf. */
  method ExportsOf(snaps: seq<Snapshot>, p: Params) returns (out: seq<Export>)
    ensures Identified(snaps, p) ==> ExportsOk(out, snaps, p)
    ensures forall k :: 0 <= k < |out| ==> out[k].backup.id != [] && SafeExport(out[k], snaps, p)
  {
    var groups := Group(snaps, p);
    out := Collect(groups, snaps, p);
  }

  method Group(snaps: seq<Snapshot>, p: Params) returns (groups: map<Instant, Export>)
    ensures Identified(snaps, p) ==> Grouped(groups, snaps, p)
    ensures Safe(groups, snaps, p)
  {
    groups := map[];
    for i := 0 to |snaps|
      invariant Safe(groups, snaps[..i], p)
      invariant Identified(snaps, p) ==> Grouped(groups, snaps[..i], p)
    {
      var s := snaps[i];
      assert snaps[..i + 1] == snaps[..i] + [s];
      assert s in snaps;
      if !Ours(s, p) || (s.path != BackupPath(p) && s.path != MomentsPath(p)) {
        if Identified(snaps, p) {
          SkipStep(groups, snaps[..i], s, p);
        }
        continue;
      }
      var e := if s.moment in groups then groups[s.moment] else Start(s.moment);
      if Identified(snaps, p) {
        GroupStep(groups, snaps[..i], s, p);
      }
      groups := groups[s.moment := Put(e, s, p)];
    }
    assert snaps[..|snaps|] == snaps;
  }

  lemma {:induction false} SkipStep(groups: map<Instant, Export>, all: seq<Snapshot>, s: Snapshot, p: Params)
    requires Grouped(groups, all, p) && (!Ours(s, p) || (s.path != BackupPath(p) && s.path != MomentsPath(p)))
    ensures Grouped(groups, all + [s], p)
  {
    forall t | t in groups ensures ExportOk(groups[t], all + [s], p) {
      OtherOk(groups[t], all, s, p);
    }
  }

  lemma {:induction false} GroupStep(groups: map<Instant, Export>, all: seq<Snapshot>, s: Snapshot, p: Params)
    requires Grouped(groups, all, p) && (s.path == BackupPath(p) ==> s.id != [])
    requires Ours(s, p) && (s.path == BackupPath(p) || s.path == MomentsPath(p))
    ensures var e := if s.moment in groups then groups[s.moment] else Start(s.moment);
            Grouped(groups[s.moment := Put(e, s, p)], all + [s], p)
  {
    var e := if s.moment in groups then groups[s.moment] else Start(s.moment);
    if s.moment !in groups {
      StartOk(s.moment, all, p);
    }
    PutOk(e, all, s, p);
    forall t | t in groups && t != s.moment ensures ExportOk(groups[t], all + [s], p) {
      OtherOk(groups[t], all, s, p);
    }
  }

  /** The exports that hold a backup, whatever order the map gives them in. */
  method Collect(groups: map<Instant, Export>, ghost all: seq<Snapshot>, ghost p: Params) returns (out: seq<Export>)
    requires Safe(groups, all, p) && (Identified(all, p) ==> Grouped(groups, all, p))
    ensures Identified(all, p) ==> ExportsOk(out, all, p)
    ensures forall k :: 0 <= k < |out| ==> out[k].backup.id != [] && SafeExport(out[k], all, p)
  {
    var found: seq<Export> := [];
    var left := groups.Keys;
    while left != {}
      invariant left <= groups.Keys
      invariant forall e :: e in found <==>
                  e.moment in groups && e.moment !in left && e == groups[e.moment] && e.backup.id != []
      invariant forall i, j :: 0 <= i < j < |found| ==> found[i].moment != found[j].moment
      decreases left
    {
      var t :| t in left;
      var e: Export := groups[t];
      left := left - {t};
      if e.backup.id != [] {
        found := found + [e];
      }
    }
    out := Sort(found, ByMoment);
    DistinctMoments(found, out);
    forall k | 0 <= k < |out| ensures out[k].backup.id != [] && SafeExport(out[k], all, p) {
      assert out[k] in found;
    }
    if Identified(all, p) {
      CollectedOk(groups, all, p, found);
    }
  }

  lemma {:induction false} DistinctMoments(found: seq<Export>, out: seq<Export>)
    requires out == Sort(found, ByMoment)
    requires forall i, j :: 0 <= i < j < |found| ==> found[i].moment != found[j].moment
    ensures forall i, j :: 0 <= i < j < |out| ==> out[i].moment < out[j].moment
    ensures forall e :: e in out <==> e in found
  {
    SortSorts(found, ByMoment);
    SortMembers(found, ByMoment);
    forall i, j | 0 <= i < j < |out| ensures out[i].moment != out[j].moment {
      if out[i].moment == out[j].moment {
        assert out[i] in found && out[j] in found;
        assert out[i] == out[j];
        MultiplicityOfTwo(out, i, j);
        MultiplicityOfDistinct(found, out[i]);
      }
    }
    forall i, j | 0 <= i < j < |out| ensures out[i].moment < out[j].moment {
      assert ByMoment(out[i], out[j]);
    }
  }

  lemma {:induction false} CollectedOk(groups: map<Instant, Export>, all: seq<Snapshot>, p: Params, found: seq<Export>)
    requires Grouped(groups, all, p) && Identified(all, p)
    requires forall e :: e in found <==> e.moment in groups && e == groups[e.moment] && e.backup.id != []
    requires forall i, j :: 0 <= i < j < |found| ==> found[i].moment != found[j].moment
    ensures ExportsOk(Sort(found, ByMoment), all, p)
  {
    var out := Sort(found, ByMoment);
    DistinctMoments(found, out);
    forall k | 0 <= k < |out| ensures out[k].backup.id != [] && ExportOk(out[k], all, p) {
      assert out[k] in found;
    }
    forall s | s in all && IsBackup(s, p, s.moment) ensures exists k :: 0 <= k < |out| && out[k].moment == s.moment {
      var e := groups[s.moment];
      assert ExportOk(e, all, p);
      assert e in found && e in out;
    }
  }

  // ---- the order of the list does not matter ----

  /** In neither folder of the volume do two snapshots tie as the newest of the moment. */
  ghost predicate NoTieAt(all: seq<Snapshot>, p: Params, t: Instant) {
    && (forall a, b :: NewestBackup(a, all, p, t) && NewestBackup(b, all, p, t) ==> a == b)
    && (forall a, b :: NewestMoments(a, all, p, t) && NewestMoments(b, all, p, t) ==> a == b)
  }

  ghost predicate NoTie(all: seq<Snapshot>, p: Params) {
    forall t: Instant :: NoTieAt(all, p, t)
  }

  lemma {:induction false} ExportUnique(a: Export, b: Export, all: seq<Snapshot>, more: seq<Snapshot>, p: Params)
    requires forall s :: s in all <==> s in more
    requires NoTie(all, p) && a.moment == b.moment && a.backup.id != [] && b.backup.id != []
    requires ExportOk(a, all, p) && ExportOk(b, more, p)
    ensures a == b
  {
    assert NoTieAt(all, p, a.moment);
    assert NewestBackup(b.backup, all, p, a.moment);
    if a.moments.Some? && b.moments.Some? {
      assert NewestMoments(b.moments.value, all, p, a.moment);
    }
  }

  lemma {:induction false} NoTieEither(all: seq<Snapshot>, more: seq<Snapshot>, p: Params)
    requires (forall s :: s in all <==> s in more) && NoTie(all, p)
    ensures NoTie(more, p)
  {
    forall t: Instant ensures NoTieAt(more, p, t) {
      assert NoTieAt(all, p, t);
      forall s ensures NewestBackup(s, more, p, t) ==> NewestBackup(s, all, p, t) {
      }
      forall s ensures NewestMoments(s, more, p, t) ==> NewestMoments(s, all, p, t) {
      }
    }
  }

  /** With a tie the order does matter: of two backups of a moment that start at the same
      time, the one that comes first in the list is taken. */
  lemma {:induction false} TieKeepsFirst(a: Snapshot, b: Snapshot, p: Params, t: Instant)
    requires IsBackup(a, p, t) && IsBackup(b, p, t) && a.id != [] && b.id != [] && a.start == b.start
    ensures Put(Put(Start(t), a, p), b, p).backup == a
    ensures Put(Put(Start(t), b, p), a, p).backup == b
  {
  }

  lemma {:induction false} EveryExportIsThere(out: seq<Export>, all: seq<Snapshot>, two: seq<Export>,
                                              more: seq<Snapshot>, p: Params, k: nat)
    requires forall s :: s in all <==> s in more
    requires NoTie(all, p) && ExportsOk(out, all, p) && ExportsOk(two, more, p) && k < |out|
    ensures out[k] in two
  {
    var b := out[k].backup;
    assert ExportOk(out[k], all, p);
    assert b in more && IsBackup(b, p, b.moment);
    var j :| 0 <= j < |two| && two[j].moment == b.moment;
    ExportUnique(out[k], two[j], all, more, p);
  }

  /** Two lists of the same snapshots, in any order, give the same exports when no two
      tie as the newest of a moment in a folder of the volume. */
  lemma {:induction false} AnyOrderSameExports(out: seq<Export>, all: seq<Snapshot>, two: seq<Export>,
                                               more: seq<Snapshot>, p: Params)
    requires forall s :: s in all <==> s in more
    requires NoTie(all, p) && ExportsOk(out, all, p) && ExportsOk(two, more, p)
    ensures out == two
  {
    forall k | 0 <= k < |out| ensures out[k] in two {
      EveryExportIsThere(out, all, two, more, p, k);
    }
    NoTieEither(all, more, p);
    forall k | 0 <= k < |two| ensures two[k] in out {
      EveryExportIsThere(two, more, out, all, p, k);
    }
    assert Within(out, two) && Within(two, out);
    SameIncreasing(out, two);
  }

  ghost predicate Increasing(a: seq<Export>) {
    forall i, j :: 0 <= i < j < |a| ==> a[i].moment < a[j].moment
  }

  ghost predicate Within(a: seq<Export>, b: seq<Export>) {
    forall e :: e in a ==> e in b
  }

  lemma {:induction false} TailWithin(a: seq<Export>, b: seq<Export>)
    requires Increasing(a) && Within(a, b) && a != [] && b != [] && a[0] == b[0]
    ensures Within(a[1..], b[1..])
  {
    forall e | e in a[1..] ensures e in b[1..] {
      var k :| 0 <= k < |a[1..]| && a[1..][k] == e;
      assert e == a[k + 1] && e != a[0];
      assert e in b;
    }
  }

  lemma {:induction false} FirstOldest(a: seq<Export>, e: Export)
    requires Increasing(a) && e in a
    ensures a[0].moment <= e.moment && (a[0].moment == e.moment ==> e == a[0])
  {
  }

  lemma {:induction false} SameIncreasing(a: seq<Export>, b: seq<Export>)
    requires Increasing(a) && Increasing(b) && Within(a, b) && Within(b, a)
    ensures a == b
  {
    assert a != [] ==> a[0] in b;
    assert b != [] ==> b[0] in a;
    if a != [] {
      FirstOldest(a, b[0]);
      FirstOldest(b, a[0]);
      TailWithin(a, b);
      TailWithin(b, a);
      SameIncreasing(a[1..], b[1..]);
      assert a == [a[0]] + a[1..] && b == [b[0]] + b[1..];
    }
  }

  // ---- the export for a time ----

  /** exportFor: the oldest export at or after a set time, or else the newest. */
  method ExportFor(exports: seq<Export>, at: Instant) returns (index: int)
    requires forall i, j :: 0 <= i < j < |exports| ==> exports[i].moment < exports[j].moment
    ensures -1 <= index < |exports| && (index == -1 <==> exports == [])
    ensures at != 0 && (exists k :: 0 <= k < |exports| && exports[k].moment >= at) ==>
              && exports[index].moment >= at
              && forall k :: 0 <= k < |exports| && exports[k].moment >= at ==>
                   exports[index].moment <= exports[k].moment
    ensures at == 0 || (forall k :: 0 <= k < |exports| ==> exports[k].moment < at) ==>
              forall k :: 0 <= k < |exports| ==> exports[k].moment <= exports[index].moment
  {
    if at != 0 {
      for i := 0 to |exports|
        invariant forall k :: 0 <= k < i ==> exports[k].moment < at
      {
        if exports[i].moment >= at {
          return i;
        }
      }
    }
    index := |exports| - 1;
  }
}
