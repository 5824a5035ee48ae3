/** The gate in front of an Execute: the newest finished Plan for the same thing. */
module Gate {
  import opened Order
  import opened Common
  import opened VMFilter
  import opened Job
  import Paths

  const PLAN_MAX_AGE: nat := 15 * 60 * SECOND
  const SLASH: byte := 47

  datatype Action = PlanAction | ExecuteAction | OtherAction

  datatype Phase = New | Planning | Planned | Executing | Done | Failed

  datatype Spec = Spec(source: Bytes, action: Action, rewindTo: Option<Instant>, vms: seq<Bytes>,
                       basePath: Bytes, drPool: Bytes)

  datatype Status = Status(phase: Phase, source: Bytes, startedAt: Option<Instant>, finishedAt: Option<Instant>,
                           vms: seq<VMReport>, volumes: seq<VolumeReport>)

  datatype Failover = Failover(uid: nat, name: Bytes, spec: Spec, status: Status)

  /** The claim a Failover reads: the status's, the spec's, or the default. */
  function EffectiveSource(f: Failover, defaultSource: Bytes): (s: Bytes) {
    if f.status.source != [] then f.status.source
    else if f.spec.source != [] then f.spec.source
    else defaultSource
  }

  predicate PathByte(b: byte) {
    65 <= b <= 90 || 97 <= b <= 122 || 48 <= b <= 57 || b == 46 || b == 95 || b == 45 || b == SLASH
  }

  /** An absolute path of safe bytes with no ".." element. */
  predicate ValidBasePath(p: Bytes) {
    && p != [] && p[0] == SLASH
    && (forall b :: b in p ==> PathByte(b))
    && Paths.DOT_DOT !in Paths.Split(p)
  }

  function TrimRight(p: Bytes): (r: Bytes) {
    if p != [] && p[|p| - 1] == SLASH then TrimRight(p[..|p| - 1]) else p
  }

  /** spec.basePath as a folder under the claim, or none if it is not safe. */
  function BasePathOf(spec: Spec): (r: Option<Bytes>) {
    if spec.basePath == [] || spec.basePath == [SLASH] then Some([])
    else if ValidBasePath(spec.basePath) then Some(TrimRight(spec.basePath))
    else None
  }

  /** The base path where an error is ignored. */
  function BaseOrRoot(spec: Spec): (r: Bytes) {
    if BasePathOf(spec).Some? then BasePathOf(spec).value else []
  }

  /** ".." stands at `i` as an element of its own. */
  predicate DotDotAt(p: Bytes, i: nat) {
    i > 0 && i + 2 <= |p| && p[i - 1..i + 2] == [47, 46, 46] && (i + 2 == |p| || p[i + 2] == 47)
  }

  /** A base path is taken exactly when it is unset, or it starts with a slash, holds safe
      bytes only and has no ".." between slashes. */
  lemma {:induction false} BasePathTakenExactly(spec: Spec)
    ensures var p := spec.basePath;
            BasePathOf(spec).Some? <==>
              p == [] || (p[0] == 47 && (forall b :: b in p ==> PathByte(b)) && forall i: nat :: !DotDotAt(p, i))
  {
    var p := spec.basePath;
    if p != [] && p[0] == SLASH {
      Paths.ElementsOfSplit(p, Paths.DOT_DOT);
      forall i: nat ensures DotDotAt(p, i) <==> Paths.ElementAt(p, i, Paths.DOT_DOT) {
        DotDotIsElement(p, i);
      }
    }
  }

  lemma {:induction false} DotDotIsElement(p: Bytes, i: nat)
    requires p != [] && p[0] == SLASH
    ensures DotDotAt(p, i) <==> Paths.ElementAt(p, i, Paths.DOT_DOT)
  {
    if i > 0 && i + 2 <= |p| {
      assert p[i - 1..i + 2] == [p[i - 1]] + p[i..i + 2];
    }
  }

  lemma {:induction false} TrimmedOfSlashes(p: Bytes)
    ensures TrimRight(p) <= p && forall i :: |TrimRight(p)| <= i < |p| ==> p[i] == SLASH
    ensures TrimRight(p) == [] || TrimRight(p)[|TrimRight(p)| - 1] != SLASH
  {
    if p != [] && p[|p| - 1] == SLASH {
      TrimmedOfSlashes(p[..|p| - 1]);
    }
  }

  /** The folder a base path names: the path without the slashes at its end, and a folder that
      is never outside the claim. */
  lemma {:induction false} BasePathIsSafe(spec: Spec, claim: seq<Bytes>)
    requires BasePathOf(spec).Some?
    ensures var p, b := spec.basePath, BasePathOf(spec).value;
            && b <= p && (forall i :: |b| <= i < |p| ==> p[i] == SLASH)
            && (b == [] || (b[0] == SLASH && b[|b| - 1] != SLASH))
            && claim <= Paths.Leads(claim, Paths.Split(b))
  {
    var p, b := spec.basePath, BasePathOf(spec).value;
    TrimmedOfSlashes(p);
    Paths.ElementsOfSplit(p, Paths.DOT_DOT);
    Paths.ElementsOfSplit(b, Paths.DOT_DOT);
    if i: nat :| Paths.ElementAt(b, i, Paths.DOT_DOT) {
      assert b[i..i + 2] == p[i..i + 2];
      assert Paths.ElementAt(p, i, Paths.DOT_DOT);
    }
    Paths.NoDotDotStaysBelow(claim, Paths.Split(b));
  }

  predicate SameRewind(a: Option<Instant>, b: Option<Instant>) {
    if a.None? || b.None? then a.None? && b.None? else Seconds(a.value) == Seconds(b.value)
  }

  predicate FinishedPlan(p: Failover) {
    p.spec.action == PlanAction && p.status.phase == Planned && p.status.finishedAt.Some?
  }

  predicate SameSource(p: Failover, f: Failover, defaultSource: Bytes) {
    EffectiveSource(p, defaultSource) == EffectiveSource(f, defaultSource)
  }

  /** A finished Plan for the same source, second of rewind, VMs and base path. */
  predicate PlanFor(p: Failover, f: Failover, defaultSource: Bytes) {
    && FinishedPlan(p)
    && SameSource(p, f, defaultSource)
    && SameRewind(p.spec.rewindTo, f.spec.rewindTo)
    && Names(p.spec.vms) == Names(f.spec.vms)
    && BaseOrRoot(p.spec) == BaseOrRoot(f.spec)
  }

  predicate Fresh(p: Failover, now: Instant)
    requires p.status.finishedAt.Some?
  {
    now <= p.status.finishedAt.value + PLAN_MAX_AGE
  }

  /** A Plan that an Execute may rely on. */
  predicate Eligible(p: Failover, f: Failover, defaultSource: Bytes, now: Instant) {
    PlanFor(p, f, defaultSource) && Fresh(p, now)
  }

  /** What makes a Failover a Plan that an Execute may rely on. */
  lemma {:induction false} EligibleMeans(p: Failover, f: Failover, defaultSource: Bytes, now: Instant)
    ensures Eligible(p, f, defaultSource, now) <==>
            && p.spec.action == PlanAction && p.status.phase == Planned
            && p.status.finishedAt.Some? && now - p.status.finishedAt.value <= 900 * SECOND
            && EffectiveSource(p, defaultSource) == EffectiveSource(f, defaultSource)
            && (p.spec.rewindTo.Some? <==> f.spec.rewindTo.Some?)
            && (p.spec.rewindTo.Some? ==> Seconds(p.spec.rewindTo.value) == Seconds(f.spec.rewindTo.value))
            && (forall v :: v != [] ==> (v in p.spec.vms <==> v in f.spec.vms))
            && BaseOrRoot(p.spec) == BaseOrRoot(f.spec)
  {
    if forall v :: v != [] ==> (v in p.spec.vms <==> v in f.spec.vms) {
      assert Names(p.spec.vms) == Names(f.spec.vms);
    }
    if Names(p.spec.vms) == Names(f.spec.vms) {
      forall v | v != [] ensures v in p.spec.vms <==> v in f.spec.vms {
        assert v in Names(p.spec.vms) <==> v in Names(f.spec.vms);
      }
    }
  }

  datatype Refusal = NoSource | TooOld | OtherRewind | OtherBase | OtherVMs | NoPlan

  /** How a Failover fits an Execute: it is no Plan for it, it differs in one
      thing, or it may be relied on. */
  datatype Fit = Unrelated | Off(why: Refusal) | Fits

  function Judge(p: Failover, f: Failover, defaultSource: Bytes, now: Instant): (fit: Fit)
    ensures fit == Fits <==> Eligible(p, f, defaultSource, now)
    ensures fit == Off(TooOld) <==> PlanFor(p, f, defaultSource) && !Fresh(p, now)
    ensures fit == Off(OtherRewind) ==> !SameRewind(p.spec.rewindTo, f.spec.rewindTo)
    ensures fit == Off(OtherVMs) ==> Names(p.spec.vms) != Names(f.spec.vms)
    ensures fit == Off(OtherBase) ==> BaseOrRoot(p.spec) != BaseOrRoot(f.spec)
    ensures fit == Unrelated <==> !FinishedPlan(p) || !SameSource(p, f, defaultSource)
  {
    if !FinishedPlan(p) || !SameSource(p, f, defaultSource) then Unrelated
    else if !SameRewind(p.spec.rewindTo, f.spec.rewindTo) then Off(OtherRewind)
    else if Names(p.spec.vms) != Names(f.spec.vms) then Off(OtherVMs)
    else if BaseOrRoot(p.spec) != BaseOrRoot(f.spec) then Off(OtherBase)
    else if now > p.status.finishedAt.value + PLAN_MAX_AGE then Off(TooOld)
    else Fits
  }

  method JudgeOne(p: Failover, f: Failover, defaultSource: Bytes, now: Instant) returns (fit: Fit)
    ensures fit == Judge(p, f, defaultSource, now)
  {
    if !FinishedPlan(p) || !SameSource(p, f, defaultSource) {
      return Unrelated;
    }
    if !SameRewind(p.spec.rewindTo, f.spec.rewindTo) {
      return Off(OtherRewind);
    }
    var same := SameVMs(p.spec.vms, f.spec.vms);
    if !same {
      return Off(OtherVMs);
    }
    if BaseOrRoot(p.spec) != BaseOrRoot(f.spec) {
      return Off(OtherBase);
    }
    if now > p.status.finishedAt.value + PLAN_MAX_AGE {
      return Off(TooOld);
    }
    fit := Fits;
  }

  function Finish(p: Failover): (t: Instant) {
    if p.status.finishedAt.Some? then p.status.finishedAt.value else 0
  }

  /** The newest of the Plans that fit, given how each fits; of two that finished
      together, the first. */
  ghost predicate BestTo(fits: seq<Fit>, at: seq<Instant>, n: nat, best: Option<nat>)
    requires n <= |fits| == |at|
  {
    match best
    case None => forall k :: 0 <= k < n ==> fits[k] != Fits
    case Some(b) =>
      && b < n && fits[b] == Fits
      && (forall k :: 0 <= k < n && fits[k] == Fits ==> at[k] <= at[b] && (k < b ==> at[k] < at[b]))
  }

  ghost function Judged(all: seq<Failover>, f: Failover, defaultSource: Bytes, now: Instant): (r: seq<Fit>)
    ensures |r| == |all|
  {
    seq(|all|, k requires 0 <= k < |all| => Judge(all[k], f, defaultSource, now))
  }

  ghost function Finishes(all: seq<Failover>): (r: seq<Instant>)
    ensures |r| == |all|
  {
    seq(|all|, k requires 0 <= k < |all| => Finish(all[k]))
  }

  /** Plan `b` is the one that an Execute relies on. */
  ghost predicate Best(all: seq<Failover>, f: Failover, defaultSource: Bytes, now: Instant, best: Option<nat>) {
    BestTo(Judged(all, f, defaultSource, now), Finishes(all), |all|, best)
  }

  /** What the loop over the Failovers has seen: the best Plan, and in what others were off. */
  datatype Tally = Tally(best: Option<nat>, stale: bool, rewind: bool, vms: bool, base: bool)

  function Seen(t: Tally, fit: Fit, i: nat, newer: bool): (r: Tally) {
    match fit
    case Off(OtherRewind) => t.(rewind := true)
    case Off(OtherVMs) => t.(vms := true)
    case Off(OtherBase) => t.(base := true)
    case Off(TooOld) => t.(stale := true)
    case Fits => if newer then t.(best := Some(i)) else t
    case _ => t
  }

  ghost predicate TallyTo(fits: seq<Fit>, at: seq<Instant>, n: nat, t: Tally)
    requires n <= |fits| == |at|
  {
    && BestTo(fits, at, n, t.best)
    && (t.stale <==> Off(TooOld) in fits[..n])
    && (t.rewind <==> Off(OtherRewind) in fits[..n])
    && (t.vms <==> Off(OtherVMs) in fits[..n])
    && (t.base <==> Off(OtherBase) in fits[..n])
  }

  lemma {:induction false} BestStep(fits: seq<Fit>, at: seq<Instant>, n: nat, best: Option<nat>)
    requires n < |fits| == |at| && BestTo(fits, at, n, best)
    ensures BestTo(fits, at, n + 1, if fits[n] == Fits && (best.None? || at[n] > at[best.value]) then Some(n) else best)
  {
  }

  lemma {:induction false} TallyStep(fits: seq<Fit>, at: seq<Instant>, n: nat, t: Tally)
    requires n < |fits| == |at| && TallyTo(fits, at, n, t)
    ensures TallyTo(fits, at, n + 1, Seen(t, fits[n], n, t.best.None? || at[n] > at[t.best.value]))
  {
    BestStep(fits, at, n, t.best);
    assert fits[..n + 1] == fits[..n] + [fits[n]];
  }

  /** The refusal when no Plan fits: the age first, then the rewind time, the base
      path and the VMs. */
  function WhyNot(t: Tally): (r: Refusal) {
    if t.stale then TooOld else if t.rewind then OtherRewind else if t.base then OtherBase
    else if t.vms then OtherVMs else NoPlan
  }

  /** Finds the newest Plan that an Execute may rely on, or says what is missing. */
  method FindPlan(all: seq<Failover>, f: Failover, defaultSource: Bytes, now: Instant) returns (r: Result<nat, Refusal>)
    ensures r == Err(NoSource) <==> EffectiveSource(f, defaultSource) == []
    ensures r.Ok? ==> Best(all, f, defaultSource, now, Some(r.value))
    ensures r.Err? && r.error != NoSource ==>
              && Best(all, f, defaultSource, now, None)
              && var fits := Judged(all, f, defaultSource, now);
                 r.error ==
                   if Off(TooOld) in fits then TooOld
                   else if Off(OtherRewind) in fits then OtherRewind
                   else if Off(OtherBase) in fits then OtherBase
                   else if Off(OtherVMs) in fits then OtherVMs
                   else NoPlan
  {
    if EffectiveSource(f, defaultSource) == [] {
      return Err(NoSource);
    }
    var t := TallyAll(all, f, defaultSource, now);
    ghost var fits := Judged(all, f, defaultSource, now);
    assert fits[..|all|] == fits;
    if t.best.Some? {
      return Ok(t.best.value);
    }
    r := Err(WhyNot(t));
  }

  method TallyAll(all: seq<Failover>, f: Failover, defaultSource: Bytes, now: Instant) returns (t: Tally)
    ensures TallyTo(Judged(all, f, defaultSource, now), Finishes(all), |all|, t)
  {
    ghost var fits, at := Judged(all, f, defaultSource, now), Finishes(all);
    t := Tally(None, false, false, false, false);
    for i := 0 to |all|
      invariant TallyTo(fits, at, i, t)
    {
      var fit := JudgeOne(all[i], f, defaultSource, now);
      TallyStep(fits, at, i, t);
      t := Seen(t, fit, i, t.best.None? || Finish(all[i]) > Finish(all[t.best.value]));
    }
  }

  /** An eligible Plan opens the gate. */
  lemma {:induction false} GateOpens(all: seq<Failover>, f: Failover, defaultSource: Bytes, now: Instant, p: Failover)
    requires p in all && Eligible(p, f, defaultSource, now)
    ensures Choice(all, f, defaultSource, now).Some?
  {
    GateRefuses(all, f, defaultSource, now);
  }

  /** What the gate lets through: a finished Plan for the same source, second of
      rewind, VMs and base path, at most 15 minutes old, and no newer one. */
  lemma {:induction false} GateMeaning(all: seq<Failover>, f: Failover, defaultSource: Bytes, now: Instant, b: nat)
    requires Best(all, f, defaultSource, now, Some(b))
    ensures b < |all| && Eligible(all[b], f, defaultSource, now)
    ensures forall p :: p in all && Eligible(p, f, defaultSource, now) ==> Finish(p) <= Finish(all[b])
  {
    var fits, at := Judged(all, f, defaultSource, now), Finishes(all);
    forall p | p in all && Eligible(p, f, defaultSource, now) ensures Finish(p) <= Finish(all[b]) {
      var k :| 0 <= k < |all| && all[k] == p;
      assert fits[k] == Fits;
    }
  }

  /** The gate refuses exactly when no Plan is eligible. */
  lemma {:induction false} GateRefuses(all: seq<Failover>, f: Failover, defaultSource: Bytes, now: Instant)
    ensures Best(all, f, defaultSource, now, None) <==> forall p :: p in all ==> !Eligible(p, f, defaultSource, now)
  {
    var fits := Judged(all, f, defaultSource, now);
    if Best(all, f, defaultSource, now, None) {
      forall p | p in all ensures !Eligible(p, f, defaultSource, now) {
        var k :| 0 <= k < |all| && all[k] == p;
        assert fits[k] != Fits;
      }
    }
    if forall p :: p in all ==> !Eligible(p, f, defaultSource, now) {
      forall k | 0 <= k < |all| ensures fits[k] != Fits {
        assert all[k] in all;
      }
    }
  }

  /** The gate's choice is one. */
  lemma {:induction false} BestUnique(all: seq<Failover>, f: Failover, defaultSource: Bytes, now: Instant, a: nat,
                                      b: nat)
    requires Best(all, f, defaultSource, now, Some(a)) && Best(all, f, defaultSource, now, Some(b))
    ensures a == b
  {
    var fits := Judged(all, f, defaultSource, now);
    assert fits[a] == Fits && fits[b] == Fits;
  }

  /** The gate's choice as a function of what it sees. */
  ghost function ChoiceTo(all: seq<Failover>, f: Failover, defaultSource: Bytes, now: Instant,
                          n: nat): (best: Option<nat>)
    requires n <= |all|
    ensures BestTo(Judged(all, f, defaultSource, now), Finishes(all), n, best)
  {
    if n == 0 then None
    else
      var best := ChoiceTo(all, f, defaultSource, now, n - 1);
      BestStep(Judged(all, f, defaultSource, now), Finishes(all), n - 1, best);
      if Judge(all[n - 1], f, defaultSource, now) == Fits
         && (best.None? || Finish(all[n - 1]) > Finish(all[best.value]))
      then Some(n - 1) else best
  }

  ghost function Choice(all: seq<Failover>, f: Failover, defaultSource: Bytes, now: Instant): (best: Option<nat>)
    ensures Best(all, f, defaultSource, now, best)
  {
    ChoiceTo(all, f, defaultSource, now, |all|)
  }

  lemma {:induction false} ChoiceIsFound(all: seq<Failover>, f: Failover, defaultSource: Bytes, now: Instant,
                                         best: Option<nat>)
    requires Best(all, f, defaultSource, now, best)
    ensures best == Choice(all, f, defaultSource, now)
  {
    var c := Choice(all, f, defaultSource, now);
    var fits := Judged(all, f, defaultSource, now);
    if best.Some? && c.Some? {
      BestUnique(all, f, defaultSource, now, best.value, c.value);
    }
  }
}
