/** The termination message of a failover Job: at most 3800 bytes, with every
  volume in it and as many restore points as fit.

  JSON, gzip and base64 are taken as encoders that their decoders undo; the choice
  between them, the length limits and the cutting are the program's own.
 */
module Outcome {
  import opened Order
  import opened Common
  import opened Job

  const MAX_MESSAGE_BYTES := 3800
  const MAX_EXPANDED := 8 * 1024 * 1024
  const GZIP_PREFIX: Bytes := [103, 122, 58] // "gz:"

  datatype Message = Message(error: Bytes, report: Option<Report>)

  // ---- what the text keeps ----

  function WireVM(v: VMReport): (r: VMReport) {
    v.(moment := Seconds(v.moment),
       moments := seq(|v.moments|, i requires 0 <= i < |v.moments| => Seconds(v.moments[i])))
  }

  function WireVolume(v: VolumeReport): (r: VolumeReport) {
    v.(lastSync := Seconds(v.lastSync))
  }

  /** A report as JSON keeps it: its times are cut to whole seconds. */
  function Wire(r: Report): (w: Report) {
    r.(vms := seq(|r.vms|, i requires 0 <= i < |r.vms| => WireVM(r.vms[i])),
       volumes := seq(|r.volumes|, i requires 0 <= i < |r.volumes| => WireVolume(r.volumes[i])))
  }

  function WireMessage(m: Message): (w: Message) {
    if m.report.Some? then m.(report := Some(Wire(m.report.value))) else m
  }

  // ---- the encoders ----

  datatype Codec = Codec(marshal: Message -> Option<Bytes>, unmarshal: Bytes -> Option<Message>,
                         pack: Bytes -> Bytes, unpack: Bytes -> Option<Bytes>)

  predicate HasPrefix(b: Bytes, prefix: Bytes) {
    prefix <= b
  }

  /** JSON text of a message reads back, and is never taken for packed text; packed
      text unpacks, and packing shrinks by at most the ratio of DEFLATE. */
  ghost predicate Lawful(codec: Codec) {
    && (forall m :: codec.marshal(m).Some? ==> codec.unmarshal(codec.marshal(m).value) == Some(WireMessage(m)))
    && (forall m :: codec.marshal(m).Some? ==> !HasPrefix(codec.marshal(m).value, GZIP_PREFIX))
    && (forall b :: codec.unpack(codec.pack(b)) == Some(b))
    && (forall b :: |b| <= 1032 * |codec.pack(b)|)
  }

  function EncodeOnce(codec: Codec, m: Message): (r: Option<Bytes>) {
    var plain := codec.marshal(m);
    if plain.None? then None
    else if |plain.value| <= MAX_MESSAGE_BYTES then plain
    else Some(GZIP_PREFIX + codec.pack(plain.value))
  }

  /** What the controller reads from a message. */
  function DecodeOutcome(codec: Codec, msg: Bytes): (r: Option<Message>) {
    if HasPrefix(msg, GZIP_PREFIX) then
      var raw := codec.unpack(msg[|GZIP_PREFIX|..]);
      if raw.None? then None
      else codec.unmarshal(if |raw.value| <= MAX_EXPANDED then raw.value else raw.value[..MAX_EXPANDED])
    else codec.unmarshal(msg)
  }

  /** A message that fits reads back: the cap on what it may expand to is never reached. */
  lemma {:induction false} DecodeUndoesEncode(codec: Codec, m: Message)
    requires Lawful(codec) && EncodeOnce(codec, m).Some? && |EncodeOnce(codec, m).value| <= MAX_MESSAGE_BYTES
    ensures DecodeOutcome(codec, EncodeOnce(codec, m).value) == Some(WireMessage(m))
  {
    var plain := codec.marshal(m).value;
    if |plain| > MAX_MESSAGE_BYTES {
      var msg := GZIP_PREFIX + codec.pack(plain);
      assert msg[|GZIP_PREFIX|..] == codec.pack(plain);
      assert |plain| <= 1032 * |codec.pack(plain)|;
      assert |codec.pack(plain)| <= MAX_MESSAGE_BYTES;
    }
  }

  // ---- cutting the restore points ----

  function HalveVM(v: VMReport): (r: VMReport) {
    if |v.moments| <= 1 then v else v.(moments := v.moments[..|v.moments| / 2])
  }

  /** One round of cutting. */
  ghost function HalveReport(r: Report): (h: Report) {
    r.(vms := seq(|r.vms|, i requires 0 <= i < |r.vms| => HalveVM(r.vms[i])),
       truncated := r.truncated || exists i :: 0 <= i < |r.vms| && |r.vms[i].moments| > 1)
  }

  ghost function HalvedTimes(r: Report, k: nat): (h: Report) {
    if k == 0 then r else HalveReport(HalvedTimes(r, k - 1))
  }

  ghost predicate TooLong(codec: Codec, error: Bytes, r: Report) {
    var msg := EncodeOnce(codec, Message(error, Some(r)));
    msg.Some? && |msg.value| > MAX_MESSAGE_BYTES
  }

  /** Cutting `k` times is the least that makes a message short enough. */
  ghost predicate FirstThatFits(codec: Codec, error: Bytes, orig: Report, k: nat) {
    && (forall m :: 0 <= m < k ==> TooLong(codec, error, HalvedTimes(orig, m)))
    && EncodeOnce(codec, Message(error, Some(HalvedTimes(orig, k)))).Some?
    && !TooLong(codec, error, HalvedTimes(orig, k))
  }

  /** Cutting keeps the newest half, and the last restore point of a VM. */
  lemma {:induction false} HalvedKeepsNewest(r: Report, k: nat, i: nat)
    requires i < |r.vms|
    ensures |HalvedTimes(r, k).vms| == |r.vms| && HalvedTimes(r, k).vms[i].moments <= r.vms[i].moments
    ensures r.vms[i].moments != [] ==> HalvedTimes(r, k).vms[i].moments != []
    ensures k > 0 ==> 2 * |HalvedTimes(r, k).vms[i].moments| <= |r.vms[i].moments| + 1
  {
    if k > 0 {
      HalvedKeepsNewest(r, k - 1, i);
    }
  }

  /** How many restore points a list of VMs carries. */
  function Total(vms: seq<VMReport>): (n: nat) {
    if vms == [] then 0 else |vms[0].moments| + Total(vms[1..])
  }

  /** `vms` is `orig` with some lists of restore points cut to a front part, the
      newest, that keeps at least one. */
  ghost predicate CutVMs(orig: seq<VMReport>, vms: seq<VMReport>) {
    && |vms| == |orig|
    && (forall i :: 0 <= i < |orig| ==> CutVM(orig[i], vms[i]))
  }

  ghost predicate CutVM(a: VMReport, b: VMReport) {
    && b == a.(moments := b.moments)
    && b.moments <= a.moments
    && (a.moments != [] ==> b.moments != [])
  }

  /** `r` is what of `orig` is sent: everything, except that restore points may be
      cut, and then it says so. */
  ghost predicate CutReport(orig: Report, r: Report) {
    && CutVMs(orig.vms, r.vms)
    && r == orig.(vms := r.vms, truncated := r.truncated)
    && (r.truncated <==> orig.truncated || r.vms != orig.vms)
  }

  lemma {:induction false} TotalMonotone(a: seq<VMReport>, b: seq<VMReport>)
    requires |a| == |b| && forall i :: 0 <= i < |a| ==> |b[i].moments| <= |a[i].moments|
    ensures Total(b) <= Total(a)
    ensures (exists i :: 0 <= i < |a| && |b[i].moments| < |a[i].moments|) ==> Total(b) < Total(a)
  {
    if a != [] {
      assert forall i :: 0 <= i < |a[1..]| ==> a[1..][i] == a[i + 1] && b[1..][i] == b[i + 1];
      TotalMonotone(a[1..], b[1..]);
      if i :| 0 <= i < |a| && |b[i].moments| < |a[i].moments| {
        assert i > 0 ==> |b[1..][i - 1].moments| < |a[1..][i - 1].moments|;
      }
    }
  }

  /** The smallest form: at most one restore point for each VM. */
  function Smallest(orig: Report): (r: Report) {
    var vms := seq(|orig.vms|, i requires 0 <= i < |orig.vms| =>
      if |orig.vms[i].moments| <= 1 then orig.vms[i] else orig.vms[i].(moments := orig.vms[i].moments[..1]));
    orig.(vms := vms, truncated := orig.truncated || vms != orig.vms)
  }

  lemma {:induction false} NothingLeftToCut(orig: Report, r: Report)
    requires CutReport(orig, r) && forall i :: 0 <= i < |r.vms| ==> |r.vms[i].moments| <= 1
    ensures r == Smallest(orig)
  {
    var s := Smallest(orig);
    forall i | 0 <= i < |r.vms| ensures r.vms[i] == s.vms[i] {
      assert CutVM(orig.vms[i], r.vms[i]);
    }
    assert r.vms == s.vms;
  }

  datatype EncodeError = CannotMarshal | TooLarge

  /** The result that a Job holds in memory. */
  class Held {
    var rpoSeconds: int
    var vms: array<VMReport>
    var volumes: seq<VolumeReport>
    var truncated: bool

    constructor (r: Report)
      ensures View() == r && fresh(vms)
    {
      rpoSeconds, volumes, truncated := r.rpoSeconds, r.volumes, r.truncated;
      var a := new VMReport[|r.vms|](i requires 0 <= i < |r.vms| => r.vms[i]);
      vms := a;
      new;
      assert vms[..] == r.vms;
    }

    ghost function View(): (r: Report)
      reads this, vms
    {
      Report(rpoSeconds, vms[..], volumes, truncated)
    }

    /** Cuts every list of restore points to half, down to one, in place. */
    method HalveMoments() returns (cut: bool)
      modifies this`truncated, vms
      ensures vms == old(vms) && rpoSeconds == old(rpoSeconds) && volumes == old(volumes)
      ensures forall i :: 0 <= i < vms.Length ==> vms[i] == HalveVM(old(vms[i]))
      ensures cut <==> exists i :: 0 <= i < vms.Length && |old(vms[i]).moments| > 1
      ensures truncated == (old(truncated) || cut)
    {
      cut := false;
      for i := 0 to vms.Length
        invariant forall k :: 0 <= k < i ==> vms[k] == HalveVM(old(vms[k]))
        invariant forall k :: i <= k < vms.Length ==> vms[k] == old(vms[k])
        invariant cut <==> exists k :: 0 <= k < i && |old(vms[k]).moments| > 1
        invariant truncated == old(truncated)
      {
        var n := |vms[i].moments|;
        if n > 1 {
          vms[i] := vms[i].(moments := vms[i].moments[..n / 2]);
          cut := true;
        }
      }
      if cut {
        truncated := true;
      }
    }
  }

  lemma {:induction false} HalvedIsCut(orig: Report, a: Report, b: Report)
    requires CutReport(orig, a) && |b.vms| == |a.vms|
    requires forall i :: 0 <= i < |a.vms| ==> b.vms[i] == HalveVM(a.vms[i])
    requires exists i :: 0 <= i < |a.vms| && |a.vms[i].moments| > 1
    requires b == a.(vms := b.vms, truncated := true)
    ensures CutReport(orig, b) && Total(b.vms) < Total(a.vms) && b == HalveReport(a)
  {
    assert b.vms == HalveReport(a).vms;
    forall i | 0 <= i < |orig.vms| ensures CutVM(orig.vms[i], b.vms[i]) {
      assert CutVM(orig.vms[i], a.vms[i]);
    }
    var i :| 0 <= i < |a.vms| && |a.vms[i].moments| > 1;
    assert |b.vms[i].moments| < |a.vms[i].moments|;
    TotalMonotone(a.vms, b.vms);
    assert CutVM(orig.vms[i], a.vms[i]);
    assert b.vms[i] != orig.vms[i];
  }

  // ---- the message ----

  /** A message for a result is right: it is short enough, it is read back as the result with
      some restore points cut, no more of them than needed, and a short result is sent plain. */
  ghost predicate Sent(codec: Codec, error: Bytes, orig: Report, r: Result<Bytes, EncodeError>) {
    && (r.Ok? ==>
          && |r.value| <= MAX_MESSAGE_BYTES
          && ReadBack(codec, error, orig, r.value)
          && LeastCut(codec, error, orig, r.value))
    && (r == Err(TooLarge) ==> TooLong(codec, error, Smallest(orig)))
    && (Short(codec, Message(error, Some(orig))) ==> r == Ok(codec.marshal(Message(error, Some(orig))).value))
  }

  ghost predicate ReadBack(codec: Codec, error: Bytes, orig: Report, msg: Bytes) {
    exists sent ::
      && CutReport(orig, sent)
      && DecodeOutcome(codec, msg) == Some(Message(error, Some(Wire(sent))))
  }

  ghost predicate LeastCut(codec: Codec, error: Bytes, orig: Report, msg: Bytes) {
    exists k: nat ::
      && FirstThatFits(codec, error, orig, k)
      && EncodeOnce(codec, Message(error, Some(HalvedTimes(orig, k)))) == Some(msg)
  }

  /** The JSON text of the message is short enough as it is. */
  predicate Short(codec: Codec, m: Message) {
    codec.marshal(m).Some? && |codec.marshal(m).value| <= MAX_MESSAGE_BYTES
  }

  lemma {:induction false} FitsIsSent(codec: Codec, error: Bytes, orig: Report, k: nat, msg: Bytes)
    requires Lawful(codec) && CutReport(orig, HalvedTimes(orig, k))
    requires forall m :: 0 <= m < k ==> TooLong(codec, error, HalvedTimes(orig, m))
    requires EncodeOnce(codec, Message(error, Some(HalvedTimes(orig, k)))) == Some(msg) && |msg| <= MAX_MESSAGE_BYTES
    ensures Sent(codec, error, orig, Ok(msg))
  {
    DecodeUndoesEncode(codec, Message(error, Some(HalvedTimes(orig, k))));
    assert FirstThatFits(codec, error, orig, k);
    assert k > 0 ==> TooLong(codec, error, HalvedTimes(orig, 0));
  }

  lemma {:induction false} NotSent(codec: Codec, error: Bytes, orig: Report, k: nat, r: Result<Bytes, EncodeError>)
    requires forall m :: 0 <= m < k ==> TooLong(codec, error, HalvedTimes(orig, m))
    requires r.Err? && !Short(codec, Message(error, Some(HalvedTimes(orig, k))))
    requires r == Err(TooLarge) ==> TooLong(codec, error, Smallest(orig))
    ensures Sent(codec, error, orig, r)
  {
    assert k > 0 ==> TooLong(codec, error, HalvedTimes(orig, 0));
  }

  /** Makes the termination message for an error, or for a result. The caller's result is left
      as it is: only a copy is cut. */
  method EncodeOutcome(codec: Codec, error: Bytes, held: Held?) returns (r: Result<Bytes, EncodeError>)
    requires Lawful(codec)
    ensures held != null ==> Sent(codec, error, held.View(), r)
    ensures held == null && r.Ok? ==>
              |r.value| <= MAX_MESSAGE_BYTES && DecodeOutcome(codec, r.value) == Some(Message(error, None))
    ensures held == null && r == Err(TooLarge) ==>
              var msg := EncodeOnce(codec, Message(error, None));
              msg.Some? && |msg.value| > MAX_MESSAGE_BYTES
    ensures held == null && Short(codec, Message(error, None)) ==> r == Ok(codec.marshal(Message(error, None)).value)
  {
    if held == null {
      var m := Message(error, None);
      var msg := EncodeOnce(codec, m);
      if msg.None? {
        return Err(CannotMarshal);
      }
      if |msg.value| > MAX_MESSAGE_BYTES {
        return Err(TooLarge);
      }
      DecodeUndoesEncode(codec, m);
      return Ok(msg.value);
    }
    var cp := new Held(Report(held.rpoSeconds, held.vms[..], held.volumes, held.truncated));
    r := EncodeHeld(codec, error, cp);
  }

  /** `now` is the result after `k` rounds of cutting, all of them needed. */
  ghost predicate Tried(codec: Codec, error: Bytes, orig: Report, now: Report, k: nat) {
    && CutReport(orig, now) && now == HalvedTimes(orig, k)
    && (forall m :: 0 <= m < k ==> TooLong(codec, error, HalvedTimes(orig, m)))
  }

  lemma {:induction false} CutOnce(codec: Codec, error: Bytes, orig: Report, now: Report, next: Report, k: nat)
    requires Tried(codec, error, orig, now, k) && TooLong(codec, error, now)
    requires |next.vms| == |now.vms| && forall i :: 0 <= i < |now.vms| ==> next.vms[i] == HalveVM(now.vms[i])
    requires exists i :: 0 <= i < |now.vms| && |now.vms[i].moments| > 1
    requires next == now.(vms := next.vms, truncated := true)
    ensures Tried(codec, error, orig, next, k + 1) && Total(next.vms) < Total(now.vms)
  {
    HalvedIsCut(orig, now, next);
    assert HalvedTimes(orig, k + 1) == HalveReport(HalvedTimes(orig, k));
  }

  /** Halves the restore points of the result until its message is short enough. */
  method EncodeHeld(codec: Codec, error: Bytes, cp: Held) returns (r: Result<Bytes, EncodeError>)
    requires Lawful(codec)
    modifies cp`truncated, cp.vms
    ensures Sent(codec, error, old(cp.View()), r)
  {
    ghost var orig := cp.View();
    ghost var k := 0;
    while true
      invariant cp.vms == old(cp.vms) && Tried(codec, error, orig, cp.View(), k)
      decreases Total(cp.View().vms)
    {
      var done, out := TryOnce(codec, error, cp, orig, k);
      if done {
        return out;
      }
      k := k + 1;
    }
  }

  /** One try, and one round of cutting if the message is too long. */
  method TryOnce(codec: Codec, error: Bytes, cp: Held, ghost orig: Report, ghost k: nat)
    returns (done: bool, r: Result<Bytes, EncodeError>)
    requires Lawful(codec) && Tried(codec, error, orig, cp.View(), k)
    modifies cp`truncated, cp.vms
    ensures done ==> Sent(codec, error, orig, r)
    ensures cp.vms == old(cp.vms)
    ensures !done ==> Tried(codec, error, orig, cp.View(), k + 1) && Total(cp.View().vms) < old(Total(cp.View().vms))
  {
    var now := Report(cp.rpoSeconds, cp.vms[..], cp.volumes, cp.truncated);
    var msg := EncodeOnce(codec, Message(error, Some(now)));
    done := true;
    if msg.None? {
      NotSent(codec, error, orig, k, Err(CannotMarshal));
      return true, Err(CannotMarshal);
    }
    if |msg.value| <= MAX_MESSAGE_BYTES {
      FitsIsSent(codec, error, orig, k, msg.value);
      return true, Ok(msg.value);
    }
    var cut := cp.HalveMoments();
    r := Err(TooLarge);
    if !cut {
      NothingLeftToCut(orig, now);
      NotSent(codec, error, orig, k, r);
      return;
    }
    CutOnce(codec, error, orig, now, cp.View(), k);
    done := false;
  }
}
