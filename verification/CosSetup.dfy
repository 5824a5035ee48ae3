/** One pass of cos-setup over an account: look for each object, and in an apply
  pass make it if it is missing.
 */
module CosSetup {
  import opened Common
  import opened Order
  import opened CloudAccount

  /** How a call to the cloud, or the write of a file, ends. A lost call took effect
      but its answer did not arrive. */
  datatype Answer = Works | Fails | Lost

  /** What the run is given beside its options: the cloud's and the person's answers.

      - `preflight`: the root key, the resource group, the zone and the caller's
        address are in order.
      - `blindKey`, `blindLock`: the read of the wrapped key, or of the object lock,
        is answered with an error status, which passes for "not there".
      - `bucketReached`: the bucket's name is free or its bucket can be reached.
      - `keyReadable`: a wrapped key in the bucket can be decoded.
      - `saved`: a key could be made and wrapped, and the person typed the phrase.
      - `hmacAnswered`: the answer to making an HMAC key holds the key.
      - `implicit`: the policy that the cloud adds when it makes an HMAC key. */
  datatype World = World(preflight: bool, answer: nat -> Answer, blindKey: bool, blindLock: bool, bucketReached: bool,
                         keyReadable: bool, saved: bool, hmacAnswered: bool, shown: bool, implicit: Option<Policy>,
                         guid: nat, iam: nat, crn: nat, zone: nat)

  /** The kinds of objects that this run cannot see. */
  function Blind(w: World): (r: set<Kind>)
    ensures BackupKey in r <==> w.blindKey
    ensures ObjectLock in r <==> w.blindLock
    ensures forall k :: k in r ==> k == BackupKey || k == ObjectLock
  {
    (if w.blindKey then {BackupKey} else {}) + (if w.blindLock then {ObjectLock} else {})
  }

  ghost predicate Answers(w: World) {
    forall n: nat :: w.answer(n) == Works
  }

  /** Every read and write works and nothing stands in the way, except that the read
      of the wrapped key may be blind. */
  ghost predicate Able(w: World) {
    w.preflight && w.bucketReached && w.keyReadable && !w.blindLock && Answers(w)
  }

  ghost predicate Calm(w: World) {
    Able(w) && !w.blindKey
  }

  /** Nothing that is there makes a run refuse. */
  ghost predicate Fitting(a: Account, o: Options) {
    && RolesFit(a.roles)
    && (a.bucket.Some? ==> a.bucket.value.marker || o.existingBucket)
    && (SidOf(a, o).Some? ==> Narrow(a.policies, SidOf(a, o).value, o))
  }

  /** Everything is there, and a run has no reason to refuse. */
  ghost predicate Ready(a: Account, o: Options) {
    Fitting(a, o) && forall k: Kind :: Has(a, o, k)
  }

  /** What a run keeps: no object of the start is lost, no policy of the start is
      deleted, a plan changes nothing, and what was made was not there before and
      was made once, unless it is of a kind that the run cannot see. */
  ghost predicate RunOk(o: Options, apply: bool, blind: set<Kind>, start: Account, now: Account, made: seq<Kind>) {
    && DistinctIds(now.policies)
    && Grown(start, now, o)
    && (!apply ==> now == start && made == [])
    && (forall k :: k in made ==> Has(now, o, k))
    && (forall k :: k in made && k !in blind ==> !Has(start, o, k))
    && (forall i, j :: 0 <= i < j < |made| && made[i] == made[j] ==> made[i] in blind)
  }

  lemma {:induction false} MakeKeeps(o: Options, blind: set<Kind>, start: Account, a: Account, made: seq<Kind>,
                                     k: Kind, b: Account)
    requires RunOk(o, true, blind, start, a, made) && (k !in blind ==> !Has(a, o, k))
    requires Grown(a, b, o) && Has(b, o, k) && DistinctIds(b.policies)
    ensures RunOk(o, true, blind, start, b, made + [k])
  {
    GrownTransitive(start, a, b, o);
  }

  lemma {:induction false} GrownSame(a: Account, o: Options)
    ensures Grown(a, a, o)
  {
  }

  function Id(known: Option<nat>): (n: nat) {
    if known.Some? then known.value else 0
  }

  /** A step left the account as it was, or made one object that was not there. */
  ghost predicate OneMore(k: Kind, o: Options, blind: set<Kind>, apply: bool, a: Account, b: Account, more: Account) {
    b == a || (apply && (k !in blind ==> !Has(a, o, k)) && b == more)
  }

  function Versioned(b: Option<Bucket>): (r: Option<Bucket>) {
    if b.Some? then Some(b.value.(versioning := true)) else None
  }

  function Locked(b: Option<Bucket>): (r: Option<Bucket>) {
    if b.Some? then Some(b.value.(lock := true)) else None
  }

  function OneKeyMore(b: Option<Bucket>): (r: Option<Bucket>) {
    if b.Some? then Some(b.value.(keys := b.value.keys + 1)) else None
  }

  /** One more wrapped key is in the bucket, and the step failed exactly if the secret
      file was there, because a file is never replaced. */
  ghost predicate BlindKeyStored(a: Account, b: Account, ok: bool) {
    b.bucket == OneKeyMore(a.bucket) && b.secretFile && (ok <==> !a.secretFile)
  }

  /** What storing a key does: at most one more in the bucket, one on success, and
      nothing if the person does not confirm it as saved. */
  ghost predicate KeyStored(w: World, a: Account, b: Account, ok: bool) {
    && b == a.(bucket := b.bucket, secretFile := b.secretFile)
    && (a.secretFile ==> b.secretFile)
    && (b.bucket == a.bucket || b.bucket == OneKeyMore(a.bucket))
    && (ok ==> b.bucket == OneKeyMore(a.bucket))
    && (Answers(w) && w.saved ==> BlindKeyStored(a, b, ok))
    && (!w.saved ==> b.bucket == a.bucket && b.secretFile == a.secretFile)
  }

  /** What the backup key step does, with `more` objects counted as missing. Whether
      it ends well or not, it stores a key beside one that is there only if the read
      was blind; if it ends well it then does; and with a blind read it does so even
      where it fails because the secret file is there. A key that the person does not
      confirm as saved leaves nothing. */
  ghost predicate KeyStep(o: Options, w: World, apply: bool, a: Account, b: Account, ok: bool, more: int) {
    && b == a.(bucket := b.bucket, secretFile := b.secretFile)
    && (a.secretFile ==> b.secretFile)
    && (!apply ==> b == a)
    && (|| b.bucket == a.bucket
        || (apply && (!w.blindKey ==> KeyCount(a.bucket) == 0) && b.bucket == OneKeyMore(a.bucket)))
    && (ok && apply ==>
          && a.bucket.Some?
          && b.bucket == if KeyCount(a.bucket) > 0 && !w.blindKey then a.bucket else OneKeyMore(a.bucket))
    && (ok && !apply && more == 0 ==> KeyCount(a.bucket) > 0)
    && (apply && w.blindKey && w.saved && Answers(w) ==> BlindKeyStored(a, b, ok))
    && (!w.saved ==> b.bucket == a.bucket && b.secretFile == a.secretFile)
    && (Calm(w) && KeyCount(a.bucket) > 0 ==> ok && more == 0 && b == a)
    && (Calm(w) && apply && w.saved && KeyCount(a.bucket) == 0 ==> (ok <==> !a.secretFile))
  }

  lemma {:induction false} KeyNotRead(o: Options, w: World, apply: bool, a: Account)
    requires !Able(w) && !(Answers(w) && w.blindKey)
    ensures KeyStep(o, w, apply, a, a, false, 0)
  {
  }

  lemma {:induction false} KeyFound(o: Options, w: World, apply: bool, a: Account)
    requires KeyCount(a.bucket) > 0 && !w.blindKey
    ensures KeyStep(o, w, apply, a, a, true, 0)
  {
  }

  lemma {:induction false} KeyPlanned(o: Options, w: World, a: Account)
    requires KeyCount(a.bucket) == 0 || w.blindKey
    ensures KeyStep(o, w, false, a, a, true, 1)
  {
  }

  lemma {:induction false} KeyMade(o: Options, w: World, a: Account, b: Account, ok: bool)
    requires KeyCount(a.bucket) == 0 || w.blindKey
    requires KeyStored(w, a, b, ok) && a.bucket.Some?
    ensures KeyStep(o, w, true, a, b, ok, 1)
  {
  }

  lemma {:induction false} KeyStepDid(o: Options, w: World, apply: bool, a: Account, b: Account, ok: bool, more: int)
    requires KeyStep(o, w, apply, a, b, ok, more)
    ensures Did(ok && (apply || more == 0), a, b, o, BackupKey)
  {
    var c := a.(bucket := b.bucket);
    if b.bucket == a.bucket {
      GrownSame(a, o);
    } else {
      KeyGrows(a, o);
    }
    if b.secretFile == a.secretFile {
      GrownSame(c, o);
    } else {
      SecretGrows(c, o);
    }
    GrownTransitive(a, c, b, o);
  }

  /** What the last two steps do together. */
  ghost predicate SecretsDone(o: Options, w: World, apply: bool, a: Account, b: Account, ok: bool, more: int) {
    && b == a.(bucket := b.bucket, secretFile := b.secretFile)
    && (b.bucket == a.bucket || b.bucket == OneKeyMore(a.bucket))
    && Done(ok && (apply || more == 0), a, b, o, 13, 15)
    && (Calm(w) && Ready(a, o) ==> ok && more == 0 && b == a)
    && (Able(w) && w.blindKey && w.saved && apply && Ready(a, o) ==> !ok && b == a.(bucket := OneKeyMore(a.bucket)))
    && (Calm(w) && w.saved && apply ==> (ok <==> SecretsFit(a, o)))
  }

  /** A secret file without a wrapped key in the bucket stands in the way: it is never
      replaced. */
  predicate SecretsFit(a: Account, o: Options) {
    KeyCount(a.bucket) > 0 || !a.secretFile
  }

  lemma {:induction false} KeyFailed(o: Options, w: World, apply: bool, a: Account, b: Account, more: int)
    requires KeyStep(o, w, apply, a, b, false, more)
    ensures SecretsDone(o, w, apply, a, b, false, more)
  {
    KeyStepDid(o, w, apply, a, b, false, more);
    assert Ready(a, o) ==> Has(a, o, SecretFile) && Has(a, o, BackupKey);
  }

  lemma {:induction false} KeyThenFile(o: Options, w: World, apply: bool, a: Account, b: Account, c: Account, more: int,
                                       ok: bool, last: int, needed: bool)
    requires KeyStep(o, w, apply, a, b, true, more) && more >= 0 && last >= 0 && (needed ==> more > 0)
    requires FileStep(w, apply, b, c, ok, last, needed)
    ensures SecretsDone(o, w, apply, a, c, ok, more + last)
  {
    assert Ready(a, o) ==> Has(a, o, SecretFile) && Has(a, o, BackupKey);
    KeyStepDid(o, w, apply, a, b, true, more);
    FileStepDid(o, w, apply, b, c, ok, last, needed);
    Pair(apply || more == 0, ok && (apply || (last == 0 && !needed)), a, b, c, o, BackupKey, SecretFile);
  }

  /** What the step of the secret file does; a plan leaves it to the key step if that one
      will write it. */
  ghost predicate FileStep(w: World, apply: bool, a: Account, b: Account, ok: bool, more: int, needed: bool) {
    && (b == a || (apply && !a.secretFile && b == a.(secretFile := true)))
    && (ok && (apply || (more == 0 && !needed)) ==> b.secretFile)
    && (a.secretFile ==> ok && more == 0)
    && (Answers(w) && apply ==> ok)
  }

  lemma {:induction false} FileStepDid(o: Options, w: World, apply: bool, a: Account, b: Account, ok: bool, more: int,
                                       needed: bool)
    requires FileStep(w, apply, a, b, ok, more, needed)
    ensures Did(ok && (apply || (more == 0 && !needed)), a, b, o, SecretFile)
  {
    GrownSame(a, o);
    SecretGrows(a, o);
  }

  // ---- what a pass in which everything works needs of the account ----

  /** The bucket is still to be made, or it is this command's, or it may be used as it is. */
  predicate BucketFits(b: Option<Bucket>, o: Options) {
    b.None? || b.value.marker || (o.existingBucket && b.value.versioning && b.value.lock)
  }

  /** The instance and the service ID once they are there. */
  function GuidFor(a: Account, o: Options, w: World): (n: nat) {
    if InstanceOf(a, o).Some? then InstanceOf(a, o).value else w.guid
  }

  function IamFor(a: Account, o: Options, w: World): (n: nat) {
    if SidOf(a, o).Some? then SidOf(a, o).value else w.iam
  }

  /** A listing of the HMAC keys shows the secret. */
  predicate KeyShown(a: Account, o: Options) {
    exists h :: h in a.hmacs && h.name == HmacName(o) && h.shown
  }

  /** The policy that comes with an HMAC key does no harm: it is not for the service ID,
      it is deleted, or it is narrow. */
  predicate Harmless(p: Policy, iam: nat, guid: nat, o: Options) {
    !Grants(p, iam) || InstanceWide(p, iam, guid) || NarrowPolicy(p, o)
  }

  /** The HMAC key can be used, or made: one that is there needs its file or a shown
      secret, one that is not must have no file, and the service ID ends up narrow. */
  predicate HmacFits(a: Account, o: Options, w: World, iam: nat, guid: nat) {
    && Narrow(a.policies, iam, o)
    && (HasHmac(a.hmacs, o) ==> a.keyFile || KeyShown(a, o))
    && (!HasHmac(a.hmacs, o) ==>
          !a.keyFile && (w.implicit.Some? ==> Harmless(w.implicit.value, iam, guid, o)))
  }

  /** Exactly what an account must be for a pass to set it up. */
  predicate Settable(a: Account, o: Options, w: World) {
    && BucketFits(a.bucket, o) && RolesFit(a.roles) && SecretsFit(a, o)
    && HmacFits(a, o, w, IamFor(a, o, w), GuidFor(a, o, w))
  }

  /** There is an HMAC key whose secret nobody has. */
  predicate SecretLost(a: Account, o: Options) {
    HasHmac(a.hmacs, o) && !KeyShown(a, o) && !a.keyFile
  }

  /** The policy gives one subject one role on one thing: the service ID a role on the bucket or
      the right to read the root key, or a COS instance the right to read the keys. */
  predicate GivesLittle(p: Policy, o: Options) {
    && |p.subjects| == 1 && |p.roles| == 1 && |p.scopes| == 1
    && var s := p.scopes[0];
       if p.access then
         || (s.service == COS && s.rtype == BUCKET && s.resource == o.bucket)
         || (p.roles[0] == READER_ROLE && s == Scope(o.rootKey.service, o.rootKey.instance, KEY, o.rootKey.id))
       else
         && p.subjects[0].service == COS && p.roles[0] == READER_ROLE
         && s.service == o.rootKey.service && s.instance == o.rootKey.instance
  }

  /** Policies were only added, and none that gives more than is needed. */
  ghost predicate HarmlessAdded(a: seq<Policy>, b: seq<Policy>, o: Options) {
    && (forall p :: p in a ==> p in b)
    && (forall p :: p in b ==> p in a || GivesLittle(p, o))
  }

  lemma {:induction false} HarmlessTransitive(a: seq<Policy>, b: seq<Policy>, c: seq<Policy>, o: Options)
    requires HarmlessAdded(a, b, o) && HarmlessAdded(b, c, o)
    ensures HarmlessAdded(a, c, o)
  {
  }

  lemma {:induction false} HarmlessKeepsNarrow(a: seq<Policy>, b: seq<Policy>, o: Options, iam: nat)
    requires HarmlessAdded(a, b, o)
    ensures Narrow(a, iam, o) <==> Narrow(b, iam, o)
  {
  }

  lemma {:induction false} MaybeHarmless(a: Account, b: Account, p: Policy, o: Options)
    requires GivesLittle(p, o) && (b == a || b == WithPolicy(a, p))
    ensures HarmlessAdded(a.policies, b.policies, o)
  {
  }

  /** What the making of the key leaves of the policies: the one that came with it stays
      unless it is wide and for the service ID. */
  ghost predicate KeyTrimmed(a: Account, b: Account, w: World, iam: nat, guid: nat) {
    && (forall p :: p in a.policies ==> p in b.policies)
    && (w.implicit.None? ==> forall p :: p in b.policies ==> p in a.policies)
    && (w.implicit.Some? ==>
          var q := w.implicit.value.(id := MaxId(a.policies) + 1);
          && (forall p :: p in b.policies ==> p in a.policies || p == q)
          && (Grants(q, iam) ==> (q in b.policies <==> !InstanceWide(q, iam, guid))))
  }

  lemma {:induction false} NarrowWithKey(a: Account, b: Account, o: Options, w: World, iam: nat, guid: nat)
    requires KeyTrimmed(a, b, w, iam, guid)
    ensures Narrow(b.policies, iam, o) <==>
            Narrow(a.policies, iam, o) && (w.implicit.Some? ==> Harmless(w.implicit.value, iam, guid, o))
  {
    if w.implicit.Some? {
      var q := w.implicit.value.(id := MaxId(a.policies) + 1);
      SamePolicy(w.implicit.value, q, iam, guid, o);
      if Narrow(b.policies, iam, o) {
        assert Grants(q, iam) && q in b.policies ==> NarrowPolicy(q, o);
      }
    }
  }

  lemma {:induction false} SamePolicy(p: Policy, q: Policy, iam: nat, guid: nat, o: Options)
    requires q == p.(id := q.id)
    ensures Grants(q, iam) == Grants(p, iam) && InstanceWide(q, iam, guid) == InstanceWide(p, iam, guid)
    ensures NarrowPolicy(q, o) == NarrowPolicy(p, o)
  {
  }

  predicate EmptyBucket(b: Option<Bucket>) {
    b.Some? && !b.value.versioning && !b.value.lock && b.value.keys == 0
  }

  /** At most one HMAC key is added, and of policies only the one that comes with it. */
  ghost predicate KeyAdded(a: Account, b: Account, o: Options, w: World) {
    && (b.hmacs == a.hmacs || b.hmacs == a.hmacs + [Hmac(HmacName(o), w.shown)])
    && (forall p :: p in b.policies ==>
          p in a.policies || (w.implicit.Some? && p == w.implicit.value.(id := MaxId(a.policies) + 1)))
  }

  /** Nothing is lost, and at most the key, its policy and its file are new. */
  ghost predicate HmacMade(o: Options, w: World, a: Account, b: Account) {
    && Grown(a, b, o) && KeyAdded(a, b, o, w)
    && b == a.(hmacs := b.hmacs, policies := b.policies, keyFile := b.keyFile)
  }

  lemma {:induction false} MadeThenWritten(o: Options, w: World, a: Account, b: Account, c: Account)
    requires HmacMade(o, w, a, b) && Grown(b, c, o) && c == b.(keyFile := c.keyFile)
    ensures HmacMade(o, w, a, c) && (HasHmac(b.hmacs, o) ==> HasHmac(c.hmacs, o))
  {
    GrownTransitive(a, b, c, o);
  }

  ghost predicate BucketKnown(b: Option<Bucket>, o: Options, blind: set<Kind>, there: bool, versionOn: bool,
                              lockOn: bool) {
    && (there <==> b.Some?)
    && (b.Some? ==>
          && (b.value.marker || o.existingBucket)
          && versionOn == b.value.versioning
          && (lockOn ==> b.value.lock) && (ObjectLock !in blind ==> lockOn == b.value.lock))
    && (b.None? ==> !versionOn && !lockOn)
  }

  /** How the first nine steps go: nothing about keys changes, policies are added that do
      no harm, and when everything works only the bucket and the role can stop an apply. */
  ghost predicate FirstWent(o: Options, w: World, apply: bool, a: Account, b: Account, iam: Option<nat>,
                            guid: Option<nat>, ok: bool) {
    && b.hmacs == a.hmacs && b.keyFile == a.keyFile && b.secretFile == a.secretFile
    && KeyCount(b.bucket) == KeyCount(a.bucket) && HarmlessAdded(a.policies, b.policies, o)
    && (ok && apply ==> iam == Some(IamFor(a, o, w)) && guid == Some(GuidFor(a, o, w)))
    && (Able(w) && apply ==> (ok <==> BucketFits(a.bucket, o) && RolesFit(a.roles)))
  }

  /** How the last six steps go in an apply pass. */
  ghost predicate LastWent(o: Options, w: World, a: Account, b: Account, iam: nat, guid: nat, ok: bool) {
    && (SecretLost(a, o) ==> !ok && b == a)
    && (Calm(w) && w.hmacAnswered && w.saved ==> (ok <==> HmacFits(a, o, w, iam, guid) && SecretsFit(a, o)))
    && (Able(w) && !w.hmacAnswered && !HasHmac(a.hmacs, o) && !a.keyFile ==> !ok && b == NewHmac(a, o, w))
  }

  /** How a whole apply pass goes. */
  ghost predicate PassWent(o: Options, w: World, a: Account, b: Account, ok: bool) {
    && (SecretLost(a, o) ==> !ok && SecretLost(b, o))
    && (Calm(w) && w.hmacAnswered && w.saved ==> (ok <==> Settable(a, o, w)))
    && (Able(w) && LosesSecret(a, o, w) ==> !ok && SecretLost(b, o))
  }

  /** The pass gets as far as making the HMAC key, and is not told the key. */
  predicate LosesSecret(a: Account, o: Options, w: World) {
    && !w.hmacAnswered && !w.shown && BucketFits(a.bucket, o) && RolesFit(a.roles)
    && !HasHmac(a.hmacs, o) && !a.keyFile
  }

  /** What the last six steps do together, with `more` objects counted as missing. */
  ghost predicate LastDone(o: Options, w: World, apply: bool, a: Account, b: Account, ok: bool, more: int) {
    && Done(ok && (apply || more == 0), a, b, o, 9, 15)
    && (Calm(w) && Ready(a, o) ==> ok && more == 0 && b == a)
    && (Able(w) && w.blindKey && w.saved && apply && Ready(a, o) ==> !ok && b == a.(bucket := OneKeyMore(a.bucket)))
  }

  lemma {:induction false} HmacFailed(o: Options, w: World, apply: bool, a: Account, b: Account, more: int)
    requires Done(false, a, b, o, 9, 13) && (Able(w) ==> !Ready(a, o))
    ensures LastDone(o, w, apply, a, b, false, more)
  {
  }

  lemma {:induction false} HmacThenSecrets(o: Options, w: World, apply: bool, a: Account, b: Account, c: Account,
                                           more: int,
                                           ok: bool, last: int)
    requires Done(apply || more == 0, a, b, o, 9, 13) && more >= 0 && last >= 0
    requires Able(w) && Ready(a, o) ==> more == 0 && b == a
    requires SecretsDone(o, w, apply, b, c, ok, last)
    ensures LastDone(o, w, apply, a, c, ok, more + last)
  {
    Compose(apply || more == 0, ok && (apply || last == 0), a, b, c, o, 9, 13, 15);
  }

  /** What the steps of the HMAC key, the zone and the rule leave as it was. */
  ghost predicate LateSame(a: Account, b: Account) {
    b == a.(hmacs := b.hmacs, policies := b.policies, keyFile := b.keyFile, zones := b.zones, rules := b.rules)
  }

  /** What a run has made sure of stays so to its end. */
  lemma {:induction false} StillFits(a: Account, b: Account, c: Account, o: Options)
    requires RolesFit(a.roles) && (a.bucket.Some? ==> a.bucket.value.marker || o.existingBucket)
    requires LateSame(a, b)
    requires SidOf(a, o).Some? ==> Narrow(b.policies, SidOf(a, o).value, o)
    requires c == b.(bucket := c.bucket, secretFile := c.secretFile)
    requires (c.bucket == b.bucket || c.bucket == OneKeyMore(b.bucket))
    ensures Fitting(c, o)
  {
  }

  lemma {:induction false} LastFailed(o: Options, w: World, a: Account, b: Account, iam: nat, guid: nat)
    requires HmacWent(o, w, a, b, iam, guid, false)
    ensures LastWent(o, w, a, b, iam, guid, false)
  {
  }

  lemma {:induction false} LastBoth(o: Options, w: World, a: Account, b: Account, c: Account, iam: nat, guid: nat,
                                    ok: bool, more: int)
    requires HmacWent(o, w, a, b, iam, guid, true) && b.bucket == a.bucket && b.secretFile == a.secretFile
    requires SecretsDone(o, w, true, b, c, ok, more)
    ensures LastWent(o, w, a, c, iam, guid, ok)
  {
  }

  lemma {:induction false} StoppedEarly(o: Options, w: World, a: Account, b: Account, iam: Option<nat>,
                                        guid: Option<nat>)
    requires FirstWent(o, w, true, a, b, iam, guid, false)
    ensures PassWent(o, w, a, b, false)
  {
  }

  lemma {:induction false} WentThrough(o: Options, w: World, a: Account, b: Account, c: Account, iam: nat, guid: nat,
                                       ok: bool)
    requires FirstWent(o, w, true, a, b, Some(iam), Some(guid), true) && LastWent(o, w, b, c, iam, guid, ok)
    ensures PassWent(o, w, a, c, ok)
  {
    HarmlessKeepsNarrow(a.policies, b.policies, o, iam);
    if !w.shown && !HasHmac(b.hmacs, o) && !b.keyFile {
      LostWithTheAnswer(b, o, w);
    }
  }

  lemma {:induction false} LostWithTheAnswer(a: Account, o: Options, w: World)
    requires !HasHmac(a.hmacs, o) && !a.keyFile && !w.shown
    ensures SecretLost(NewHmac(a, o, w), o)
  {
    var h := Hmac(HmacName(o), false);
    assert NewHmac(a, o, w).hmacs == a.hmacs + [h];
    assert h in NewHmac(a, o, w).hmacs;
  }

  /** How the step of the HMAC key goes in an apply pass. A lost secret stops it, whatever
      is answered; when everything works it ends well exactly if the account fits and the
      cloud's answer holds the key; and without the key in the answer it is made and lost. */
  ghost predicate HmacWent(o: Options, w: World, a: Account, b: Account, iam: nat, guid: nat, ok: bool) {
    && (SecretLost(a, o) ==> !ok && b == a)
    && (Able(w) && w.hmacAnswered ==> (ok <==> HmacFits(a, o, w, iam, guid)))
    && (Able(w) && !w.hmacAnswered && !HasHmac(a.hmacs, o) && !a.keyFile ==> !ok && b == NewHmac(a, o, w))
  }

  class Run {
    const o: Options
    const w: World
    const apply: bool
    const start: Account
    var acc: Account
    var calls: nat
    var creates: nat
    ghost var made: seq<Kind>

    var guid: Option<nat>
    var role: Option<nat>
    var iam: Option<nat>
    var bucketExists: bool
    var bucketOurs: bool
    var versionOn: bool
    var lockOn: bool
    var hmacKnown: bool
    var keyWritten: bool
    var keyNeeded: bool

    constructor (o: Options, w: World, apply: bool, acc: Account)
      requires DistinctIds(acc.policies)
      ensures Valid() && this.o == o && this.w == w && this.apply == apply && start == acc
      ensures this.acc == acc && creates == 0 && made == [] && !bucketExists && !versionOn && !lockOn && !keyWritten
      ensures guid == None && role == None && iam == None && !hmacKnown
    {
      GrownSame(acc, o);
      this.o, this.w, this.apply, start := o, w, apply, acc;
      this.acc, calls, creates, made := acc, 0, 0, [];
      guid, role, iam := None, None, None;
      bucketExists, bucketOurs, versionOn, lockOn := false, false, false, false;
      hmacKnown, keyWritten, keyNeeded := false, false, false;
    }

    ghost predicate Valid()
      reads this
    {
      RunOk(o, apply, Blind(w), start, acc, made)
    }

    // What the run knows once a step has ended well.

    ghost predicate KnowsInstance()
      reads this
    {
      guid == InstanceOf(acc, o) && (apply ==> guid.Some?)
    }

    ghost predicate KnowsSid()
      reads this
    {
      iam == SidOf(acc, o) && (apply ==> iam.Some?)
    }

    ghost predicate KnowsRole()
      reads this
    {
      role == FindRole(acc.roles) && RolesFit(acc.roles) && (apply ==> role.Some?)
    }

    ghost predicate KnowsBucket()
      reads this
    {
      && (apply ==> bucketExists)
      && BucketKnown(acc.bucket, o, Blind(w), bucketExists, versionOn, lockOn)
    }

    ghost predicate KnowsAll()
      reads this
    {
      KnowsInstance() && KnowsBucket() && KnowsSid() && KnowsRole()
    }

    method Ask() returns (ok: bool)
      modifies this`calls
      ensures Answers(w) ==> ok
    {
      ok := w.answer(calls) == Works;
      calls := calls + 1;
    }

    /** A call that makes one object. */
    method Make(k: Kind, next: Account) returns (ok: bool)
      requires Valid() && apply && (k !in Blind(w) ==> !Has(acc, o, k))
      requires Grown(acc, next, o) && Has(next, o, k) && DistinctIds(next.policies)
      modifies this`calls, this`acc, this`made
      ensures Valid() && Grown(old(acc), acc, o)
      ensures acc == next || acc == old(acc)
      ensures ok ==> acc == next
      ensures Answers(w) ==> ok
    {
      var a := w.answer(calls);
      calls := calls + 1;
      if a == Fails {
        GrownSame(acc, o);
        return false;
      }
      MakeKeeps(o, Blind(w), start, acc, made, k, next);
      acc, made := next, made + [k];
      ok := a == Works;
    }

    // ---- the steps ----

    method InstanceStep() returns (ok: bool)
      requires Valid()
      modifies this`calls, this`acc, this`made, this`creates, this`guid
      ensures Valid() && acc == old(acc).(instances := acc.instances)
      ensures OneMore(Instance, o, Blind(w), apply, old(acc), acc, WithInstance(old(acc), o, w.guid))
      ensures ok ==> KnowsInstance() && (apply ==> guid == Some(GuidFor(old(acc), o, w)))
      ensures creates >= old(creates) && Did(ok && (apply || creates == old(creates)), old(acc), acc, o, Instance)
      ensures Able(w) ==> ok
      ensures Able(w) && Ready(old(acc), o) ==> ok && creates == old(creates) && acc == old(acc)
    {
      GrownSame(acc, o);
      ok := Ask();
      if !ok {
        return;
      }
      guid := InstanceOf(acc, o);
      if guid.Some? {
        return;
      }
      assert !Has(acc, o, Instance);
      creates := creates + 1;
      if apply {
        InstanceAdds(acc, o, w.guid);
        ok := Make(Instance, WithInstance(acc, o, w.guid));
        guid := Some(w.guid);
      }
    }

    method LookForAuthorization() returns (ok: bool, there: bool)
      requires KnowsInstance()
      modifies this`calls
      ensures ok ==> (there <==> Has(acc, o, Authorization))
      ensures Able(w) ==> ok
    {
      if guid.None? {
        return true, false;
      }
      ok := Ask();
      there := exists p :: p in acc.policies && IsAuthorization(p, guid.value, o);
    }

    method AuthorizationStep() returns (ok: bool)
      requires Valid() && KnowsInstance()
      modifies this`calls, this`acc, this`made, this`creates
      ensures Valid() && acc == old(acc).(policies := acc.policies)
      ensures OneMore(Authorization, o, Blind(w), apply, old(acc), acc,
                      WithPolicy(old(acc), AuthorizationFor(Id(guid), o)))
      ensures creates >= old(creates) && Did(ok && (apply || creates == old(creates)), old(acc), acc, o, Authorization)
      ensures Able(w) ==> ok
      ensures Able(w) && Ready(old(acc), o) ==> ok && creates == old(creates) && acc == old(acc)
    {
      GrownSame(acc, o);
      assert Ready(acc, o) ==> Has(acc, o, Authorization);
      var there;
      ok, there := LookForAuthorization();
      if !ok || there {
        return;
      }
      creates := creates + 1;
      if apply {
        AuthorizationAdds(acc, o, guid.value);
        ok := Make(Authorization, WithPolicy(acc, AuthorizationFor(guid.value, o)));
      }
    }

    /** Reads the bucket's settings; an object lock that cannot be read counts as off. */
    method BucketSettings() returns (ok: bool)
      requires acc.bucket.Some?
      modifies this`calls, this`versionOn, this`lockOn
      ensures ok ==> versionOn == acc.bucket.value.versioning && lockOn == (acc.bucket.value.lock && !w.blindLock)
      ensures Able(w) ==> ok
    {
      ok := Ask();
      if !ok {
        return;
      }
      versionOn := acc.bucket.value.versioning;
      ok := Ask();
      lockOn := acc.bucket.value.lock && !w.blindLock;
    }

    /** Looks at a bucket that is there; refuses one that is not to be touched. */
    method InspectBucket() returns (ok: bool)
      requires acc.bucket.Some?
      modifies this`calls, this`bucketOurs, this`versionOn, this`lockOn
      ensures ok ==> versionOn == acc.bucket.value.versioning && lockOn == (acc.bucket.value.lock && !w.blindLock)
      ensures ok ==> acc.bucket.value.marker || (o.existingBucket && versionOn && lockOn)
      ensures Able(w) && guid.Some? ==> (ok <==> BucketFits(acc.bucket, o))
    {
      ok := Ask();
      bucketOurs := ok && acc.bucket.value.marker;
      if !bucketOurs && !o.existingBucket {
        return false;
      }
      ok := BucketSettings();
      if !ok {
        return;
      }
      if !bucketOurs && (!versionOn || !lockOn) {
        return false;
      }
      ok := guid.Some?;
    }

    method BucketStep() returns (ok: bool)
      requires Valid() && KnowsInstance() && !bucketExists && !versionOn && !lockOn
      modifies this`calls, this`acc, this`made, this`creates, this`bucketExists, this`bucketOurs, this`versionOn,
               this`lockOn
      ensures Valid() && acc == old(acc).(bucket := acc.bucket)
      ensures acc.bucket == old(acc.bucket) || (apply && old(acc.bucket).None? && EmptyBucket(acc.bucket))
      ensures ok ==> KnowsBucket()
      ensures creates >= old(creates) && Did(ok && (apply || creates == old(creates)), old(acc), acc, o, TheBucket)
      ensures Able(w) && apply ==> (ok <==> BucketFits(old(acc.bucket), o))
      ensures Able(w) && Ready(old(acc), o) ==> ok && creates == old(creates) && acc == old(acc)
    {
      GrownSame(acc, o);
      assert Ready(acc, o) ==> Has(acc, o, TheBucket) && Has(acc, o, Versioning) && Has(acc, o, ObjectLock);
      assert Ready(acc, o) ==> Has(acc, o, Instance);
      ok := Ask();
      if !ok || !w.bucketReached {
        return false;
      }
      bucketExists := acc.bucket.Some?;
      if bucketExists {
        ok := InspectBucket();
        return;
      }
      assert !Has(acc, o, TheBucket);
      creates := creates + 1;
      if apply {
        ok := MakeBucket();
      }
    }

    /** Makes the bucket, and then writes the marker that says whose it is. */
    method MakeBucket() returns (ok: bool)
      requires Valid() && apply && acc.bucket.None?
      modifies this`calls, this`acc, this`made, this`bucketExists, this`bucketOurs
      ensures Valid() && Grown(old(acc), acc, o) && acc == old(acc).(bucket := acc.bucket)
      ensures acc.bucket == old(acc.bucket) || EmptyBucket(acc.bucket)
      ensures ok ==> bucketExists && acc.bucket == Some(Bucket(true, false, false, 0))
      ensures Answers(w) ==> ok
    {
      ghost var before := acc;
      ok := Make(TheBucket, acc.(bucket := Some(Bucket(false, false, false, 0))));
      if !ok {
        return;
      }
      bucketExists, bucketOurs := true, true;
      var a := w.answer(calls);
      calls := calls + 1;
      if a != Fails {
        ghost var plain := acc;
        acc := acc.(bucket := Some(Bucket(true, false, false, 0)));
        MarkerKeeps(o, Blind(w), start, plain, made, acc);
        GrownTransitive(before, plain, acc, o);
      }
      ok := a == Works;
    }

    method VersioningStep() returns (ok: bool)
      requires Valid() && KnowsBucket()
      modifies this`calls, this`acc, this`made, this`creates, this`versionOn
      ensures Valid() && acc == old(acc).(bucket := acc.bucket)
      ensures OneMore(Versioning, o, Blind(w), apply, old(acc), acc, old(acc).(bucket := Versioned(old(acc.bucket))))
      ensures ok ==> KnowsBucket()
      ensures creates >= old(creates) && Did(ok && (apply || creates == old(creates)), old(acc), acc, o, Versioning)
      ensures Able(w) ==> ok
      ensures Able(w) && Ready(old(acc), o) ==> ok && creates == old(creates) && acc == old(acc)
    {
      GrownSame(acc, o);
      assert Ready(acc, o) ==> Has(acc, o, Versioning);
      ok := true;
      if versionOn {
        return;
      }
      creates := creates + 1;
      if apply {
        ok := Make(Versioning, acc.(bucket := Some(acc.bucket.value.(versioning := true))));
        versionOn := ok;
      }
    }

    method ObjectLockStep() returns (ok: bool)
      requires Valid() && KnowsBucket()
      modifies this`calls, this`acc, this`made, this`creates, this`lockOn
      ensures Valid() && acc == old(acc).(bucket := acc.bucket)
      ensures OneMore(ObjectLock, o, Blind(w), apply, old(acc), acc, old(acc).(bucket := Locked(old(acc.bucket))))
      ensures ok ==> KnowsBucket()
      ensures creates >= old(creates) && Did(ok && (apply || creates == old(creates)), old(acc), acc, o, ObjectLock)
      ensures Able(w) ==> ok
      ensures Able(w) && Ready(old(acc), o) ==> ok && creates == old(creates) && acc == old(acc)
    {
      GrownSame(acc, o);
      assert Ready(acc, o) ==> Has(acc, o, ObjectLock);
      ok := true;
      if lockOn {
        return;
      }
      creates := creates + 1;
      if apply {
        ok := Make(ObjectLock, acc.(bucket := Some(acc.bucket.value.(lock := true))));
        lockOn := ok;
      }
    }

    method RoleStep() returns (ok: bool)
      requires Valid()
      modifies this`calls, this`acc, this`made, this`creates, this`role
      ensures Valid() && acc == old(acc).(roles := acc.roles)
      ensures OneMore(CustomRole, o, Blind(w), apply, old(acc), acc,
                      old(acc).(roles := old(acc.roles) + [Role(ROLE_NAME, w.crn, true)]))
      ensures ok ==> KnowsRole() && (apply || creates == old(creates) ==> role.Some?)
      ensures creates >= old(creates) && Did(ok && (apply || creates == old(creates)), old(acc), acc, o, CustomRole)
      ensures Able(w) ==> (ok <==> RolesFit(old(acc.roles)))
      ensures Able(w) && Ready(old(acc), o) ==> ok && creates == old(creates) && acc == old(acc)
    {
      GrownSame(acc, o);
      assert Ready(acc, o) ==> Has(acc, o, CustomRole);
      ok := Ask();
      if !ok || !RolesFit(acc.roles) {
        return false;
      }
      role := FindRole(acc.roles);
      if role.Some? {
        return;
      }
      assert !Has(acc, o, CustomRole);
      creates := creates + 1;
      if apply {
        RoleAdds(acc, o, w.crn);
        ok := Make(CustomRole, acc.(roles := acc.roles + [Role(ROLE_NAME, w.crn, true)]));
        role := Some(w.crn);
      }
    }

    method ServiceIdStep() returns (ok: bool)
      requires Valid()
      modifies this`calls, this`acc, this`made, this`creates, this`iam
      ensures Valid() && acc == old(acc).(sids := acc.sids)
      ensures OneMore(ServiceId, o, Blind(w), apply, old(acc), acc,
                      old(acc).(sids := old(acc.sids) + [Named(SidName(o), w.iam)]))
      ensures ok ==> KnowsSid() && (apply ==> iam == Some(IamFor(old(acc), o, w)))
      ensures creates >= old(creates) && Did(ok && (apply || creates == old(creates)), old(acc), acc, o, ServiceId)
      ensures Able(w) ==> ok
      ensures Able(w) && Ready(old(acc), o) ==> ok && creates == old(creates) && acc == old(acc)
    {
      GrownSame(acc, o);
      assert Ready(acc, o) ==> Has(acc, o, ServiceId);
      ok := Ask();
      if !ok {
        return;
      }
      iam := SidOf(acc, o);
      if iam.Some? {
        return;
      }
      assert !Has(acc, o, ServiceId);
      creates := creates + 1;
      if apply {
        SidAdds(acc, o, w.iam);
        ok := Make(ServiceId, acc.(sids := acc.sids + [Named(SidName(o), w.iam)]));
        iam := Some(w.iam);
      }
    }

    /** The policies of the service ID; none while it is still to be made. */
    method ListSubject() returns (ok: bool, pols: seq<Policy>)
      modifies this`calls
      ensures ok ==> pols == if iam.Some? then SubjectPolicies(acc.policies, iam.value) else []
      ensures Answers(w) ==> ok
    {
      if iam.None? {
        return true, [];
      }
      ok := Ask();
      pols := SubjectPolicies(acc.policies, iam.value);
    }

    method LookForBucketPolicy() returns (ok: bool, there: bool)
      requires KnowsInstance() && KnowsSid() && KnowsRole()
      modifies this`calls
      ensures ok && role.Some? ==> (there <==> Has(acc, o, BucketPolicy))
      ensures ok && !there ==> !Has(acc, o, BucketPolicy)
      ensures Able(w) ==> ok
    {
      var pols;
      ok, pols := ListSubject();
      there := guid.Some? && exists p :: p in pols && IsBucketPolicy(p, guid.value, Id(role), o);
    }

    method BucketPolicyStep() returns (ok: bool)
      requires Valid() && KnowsInstance() && KnowsSid() && KnowsRole()
      modifies this`calls, this`acc, this`made, this`creates
      ensures Valid() && acc == old(acc).(policies := acc.policies)
      ensures OneMore(BucketPolicy, o, Blind(w), apply, old(acc), acc,
                      WithPolicy(old(acc), BucketPolicyFor(Id(iam), Id(guid), Id(role), o)))
      ensures creates >= old(creates)
      ensures Did(ok && role.Some? && (apply || creates == old(creates)), old(acc), acc, o, BucketPolicy)
      ensures Able(w) ==> ok
      ensures Able(w) && Ready(old(acc), o) ==> ok && creates == old(creates) && acc == old(acc)
    {
      GrownSame(acc, o);
      assert Ready(acc, o) ==> Has(acc, o, BucketPolicy);
      var there;
      ok, there := LookForBucketPolicy();
      if !ok || there {
        return;
      }
      creates := creates + 1;
      if apply {
        BucketPolicyAdds(acc, o, iam.value, guid.value, role.value);
        ok := Make(BucketPolicy, WithPolicy(acc, BucketPolicyFor(iam.value, guid.value, role.value, o)));
      }
    }

    method LookForRootKeyPolicy() returns (ok: bool, there: bool)
      requires KnowsSid()
      modifies this`calls
      ensures ok ==> (there <==> Has(acc, o, RootKeyPolicy))
      ensures Answers(w) ==> ok
    {
      var pols;
      ok, pols := ListSubject();
      there := exists p :: p in pols && IsRootKeyPolicy(p, o);
    }

    method RootKeyPolicyStep() returns (ok: bool)
      requires Valid() && KnowsSid()
      modifies this`calls, this`acc, this`made, this`creates
      ensures Valid() && acc == old(acc).(policies := acc.policies)
      ensures OneMore(RootKeyPolicy, o, Blind(w), apply, old(acc), acc,
                      WithPolicy(old(acc), RootKeyPolicyFor(Id(iam), o)))
      ensures creates >= old(creates) && Did(ok && (apply || creates == old(creates)), old(acc), acc, o, RootKeyPolicy)
      ensures Able(w) ==> ok
      ensures Able(w) && Ready(old(acc), o) ==> ok && creates == old(creates) && acc == old(acc)
    {
      GrownSame(acc, o);
      assert Ready(acc, o) ==> Has(acc, o, RootKeyPolicy);
      var there;
      ok, there := LookForRootKeyPolicy();
      if !ok || there {
        return;
      }
      creates := creates + 1;
      if apply {
        RootKeyPolicyAdds(acc, o, iam.value);
        ok := Make(RootKeyPolicy, WithPolicy(acc, RootKeyPolicyFor(iam.value, o)));
      }
    }

    /** Makes the HMAC key, saves its secret at once, and tells which policies the
        service ID had before. */
    method MakeHmac() returns (ok: bool, before: set<nat>)
      requires Valid() && apply && KnowsSid() && !Has(acc, o, HmacKey) && !acc.keyFile
      modifies this`calls, this`acc, this`made, this`hmacKnown, this`keyWritten
      ensures Valid() && HmacMade(o, w, old(acc), acc)
      ensures ok ==> Has(acc, o, HmacKey) && acc.keyFile && keyWritten
      ensures ok ==> before == IdsOf(SubjectPolicies(old(acc.policies), iam.value))
      ensures ok ==> acc.policies == NewHmac(old(acc), o, w).policies
      ensures Answers(w) ==> (ok <==> w.hmacAnswered)
      ensures Answers(w) && !ok ==> acc == NewHmac(old(acc), o, w)
    {
      GrownSame(acc, o);
      var pols;
      ok, pols := ListSubject();
      before := IdsOf(pols);
      if ok {
        ok := PostAndSave();
      }
    }

    method PostAndSave() returns (ok: bool)
      requires Valid() && apply && !Has(acc, o, HmacKey) && !acc.keyFile
      modifies this`calls, this`acc, this`made, this`hmacKnown, this`keyWritten
      ensures Valid() && HmacMade(o, w, old(acc), acc)
      ensures ok ==> Has(acc, o, HmacKey) && acc.keyFile && keyWritten
      ensures ok ==> acc.policies == NewHmac(old(acc), o, w).policies
      ensures Answers(w) ==> (ok <==> w.hmacAnswered)
      ensures Answers(w) && !ok ==> acc == NewHmac(old(acc), o, w)
    {
      ghost var first := acc;
      ok := PostHmac();
      if ok {
        ghost var second := acc;
        hmacKnown := true;
        ok := WriteKeyFile();
        MadeThenWritten(o, w, first, second, acc);
      }
    }

    /** The call that makes the key; without a key in its answer it has failed. */
    method PostHmac() returns (ok: bool)
      requires Valid() && apply && !Has(acc, o, HmacKey)
      modifies this`calls, this`acc, this`made
      ensures Valid() && HmacMade(o, w, old(acc), acc) && acc.keyFile == old(acc.keyFile)
      ensures ok ==> Has(acc, o, HmacKey)
      ensures ok || Answers(w) ==> acc == NewHmac(old(acc), o, w)
      ensures Answers(w) ==> (ok <==> w.hmacAnswered)
    {
      NewHmacGrows(acc, o, w);
      ok := Make(HmacKey, NewHmac(acc, o, w));
      ok := ok && w.hmacAnswered;
    }

    /** Writes the key file; a file is never replaced. */
    method WriteKeyFile() returns (ok: bool)
      requires Valid() && apply
      modifies this`calls, this`acc, this`made, this`keyWritten
      ensures Valid() && Grown(old(acc), acc, o) && acc == old(acc).(keyFile := acc.keyFile)
      ensures ok ==> acc.keyFile && keyWritten
      ensures Answers(w) && !old(acc.keyFile) ==> ok
    {
      keyWritten := true;
      if acc.keyFile {
        GrownSame(acc, o);
        return false;
      }
      FileGrows(acc, o);
      ok := Make(KeyFile, acc.(keyFile := true));
    }

    /** Deletes the wide policies of the service ID that were not there before. */
    method RemoveImplicit(before: set<nat>) returns (ok: bool)
      requires Valid() && apply && KnowsSid() && KnowsInstance()
      requires forall p :: p in start.policies && Grants(p, iam.value) ==> p.id in before
      modifies this`calls, this`acc
      ensures Valid() && Trimmed(old(acc), acc, iam.value, guid.value, before, o)
      ensures ok ==>
                forall p :: p in acc.policies && Grants(p, iam.value) && InstanceWide(p, iam.value, guid.value) ==>
                  p.id in before
      ensures Answers(w) ==> ok
    {
      ghost var first := acc;
      var pols;
      ok, pols := ListSubject();
      if !ok {
        return;
      }
      ok := DeleteNew(before, pols);
      TrimmedRunOk(o, Blind(w), start, first, acc, made, iam.value, guid.value, before);
      if ok {
        AllTrimmed(first, acc, iam.value, guid.value, before, o, pols);
      }
    }

    method DeleteNew(before: set<nat>, pols: seq<Policy>) returns (ok: bool)
      requires iam.Some? && guid.Some? && SidOf(acc, o) == iam && InstanceOf(acc, o) == guid
      requires DistinctIds(acc.policies)
      requires forall p :: p in pols ==> p in acc.policies && Grants(p, iam.value)
      modifies this`calls, this`acc
      ensures Trimmed(old(acc), acc, iam.value, guid.value, before, o)
      ensures ok ==> forall k :: 0 <= k < |pols| ==> Handled(pols[k], acc, iam.value, guid.value, before)
      ensures Answers(w) ==> ok
    {
      for i := 0 to |pols|
        invariant Trimmed(old(acc), acc, iam.value, guid.value, before, o)
        invariant forall k :: 0 <= k < i ==> Handled(pols[k], acc, iam.value, guid.value, before)
      {
        var p := pols[i];
        if p.id in before || !InstanceWide(p, iam.value, guid.value) {
          continue;
        }
        var a := w.answer(calls);
        calls := calls + 1;
        if a != Fails {
          TrimStep(old(acc), acc, iam.value, guid.value, before, o, p);
          acc := acc.(policies := Without(acc.policies, p.id));
        }
        if a != Works {
          return false;
        }
      }
      ok := true;
    }

    /** Every policy of the service ID must be for buckets and keys only. */
    method CheckNarrow() returns (ok: bool)
      requires KnowsSid() && iam.Some?
      modifies this`calls
      ensures ok ==> Narrow(acc.policies, iam.value, o)
      ensures Able(w) && Narrow(acc.policies, iam.value, o) ==> ok
    {
      var pols;
      ok, pols := ListSubject();
      if !ok {
        return;
      }
      for i := 0 to |pols|
        invariant forall k :: 0 <= k < i ==> NarrowPolicy(pols[k], o)
      {
        if !NarrowPolicy(pols[i], o) {
          assert pols[i] in pols;
          return false;
        }
      }
    }

    method LookForHmac() returns (ok: bool, there: bool)
      requires KnowsSid()
      modifies this`calls, this`hmacKnown
      ensures ok ==> (there <==> iam.Some? && Has(acc, o, HmacKey))
      ensures ok && there ==> (hmacKnown <==> old(hmacKnown) || KeyShown(acc, o))
      ensures Able(w) ==> ok
    {
      if iam.None? {
        return true, false;
      }
      ok := Ask();
      there := exists h :: h in acc.hmacs && h.name == HmacName(o);
      hmacKnown := hmacKnown || KeyShown(acc, o);
    }

    method HmacStep() returns (ok: bool)
      requires Valid() && KnowsInstance() && KnowsSid() && !hmacKnown
      modifies this`calls, this`acc, this`made, this`creates, this`hmacKnown, this`keyWritten
      ensures Valid()
      ensures acc == old(acc) || (apply && !old(Has(acc, o, HmacKey)) && KeyAdded(old(acc), acc, o, w))
      ensures acc == old(acc).(hmacs := acc.hmacs, policies := acc.policies, keyFile := acc.keyFile)
      ensures creates >= old(creates) && Did(ok && (apply || creates == old(creates)), old(acc), acc, o, HmacKey)
      ensures ok && iam.Some? ==> Narrow(acc.policies, iam.value, o)
      ensures ok && keyWritten && !old(keyWritten) ==> acc.keyFile
      ensures apply ==> HmacWent(o, w, old(acc), acc, iam.value, guid.value, ok)
      ensures Able(w) && Ready(old(acc), o) ==> ok && creates == old(creates) && acc == old(acc)
    {
      GrownSame(acc, o);
      assert Ready(acc, o) ==> Has(acc, o, HmacKey) && Has(acc, o, KeyFile) && Has(acc, o, ServiceId);
      var there;
      ok, there := LookForHmac();
      if !ok || (there && !hmacKnown && !acc.keyFile) || (!there && acc.keyFile) {
        return false;
      }
      if there {
        ok := NarrowNow();
        return;
      }
      creates := creates + 1;
      if apply {
        ok := MakeAndCheck();
      } else {
        ok := NarrowNow();
      }
    }

    /** The check of the policies, once there is a service ID. */
    method NarrowNow() returns (ok: bool)
      requires KnowsSid()
      modifies this`calls
      ensures ok && iam.Some? ==> Narrow(acc.policies, iam.value, o)
      ensures Able(w) && (iam.Some? ==> Narrow(acc.policies, iam.value, o)) ==> ok
    {
      ok := true;
      if iam.Some? {
        ok := CheckNarrow();
      }
    }

    method MakeAndCheck() returns (ok: bool)
      requires Valid() && apply && KnowsInstance() && KnowsSid() && !Has(acc, o, HmacKey) && !acc.keyFile
      modifies this`calls, this`acc, this`made, this`hmacKnown, this`keyWritten
      ensures Valid() && Did(ok, old(acc), acc, o, HmacKey)
      ensures KeyAdded(old(acc), acc, o, w)
      ensures acc == old(acc).(hmacs := acc.hmacs, policies := acc.policies, keyFile := acc.keyFile)
      ensures ok ==> acc.keyFile && Narrow(acc.policies, iam.value, o)
      ensures HmacWent(o, w, old(acc), acc, iam.value, guid.value, ok)
    {
      ghost var a := acc;
      ok := MakeAndTrim();
      if ok {
        NarrowWithKey(a, acc, o, w, iam.value, guid.value);
        ok := CheckNarrow();
      }
    }

    /** The policies may have been trimmed, and then the check is on what is left. */
    method MakeAndTrim() returns (ok: bool)
      requires Valid() && apply && KnowsInstance() && KnowsSid() && !Has(acc, o, HmacKey) && !acc.keyFile
      modifies this`calls, this`acc, this`made, this`hmacKnown, this`keyWritten
      ensures Valid() && Grown(old(acc), acc, o)
      ensures KeyAdded(old(acc), acc, o, w)
      ensures acc == old(acc).(hmacs := acc.hmacs, policies := acc.policies, keyFile := acc.keyFile)
      ensures ok ==> Has(acc, o, HmacKey) && acc.keyFile && KeyTrimmed(old(acc), acc, w, iam.value, guid.value)
      ensures Answers(w) ==> (ok <==> w.hmacAnswered)
      ensures Answers(w) && !ok ==> acc == NewHmac(old(acc), o, w)
    {
      ghost var first := acc;
      var before;
      ok, before := MakeHmac();
      if !ok {
        return;
      }
      ghost var second := acc;
      forall p | p in first.policies && Grants(p, iam.value) ensures p.id in before {
        assert p in SubjectPolicies(first.policies, iam.value);
      }
      ok := RemoveImplicit(before);
      forall p | p in first.policies ensures p in acc.policies {
        assert p in second.policies;
        assert Grants(p, iam.value) ==> p.id in before;
      }
      forall k | Has(first, o, k) ensures Has(acc, o, k) {
        assert Has(second, o, k);
      }
      if ok {
        TrimmedKey(o, w, first, second, acc, iam.value, guid.value, before);
      }
    }

    method KeyFileStep() returns (ok: bool)
      requires Valid() && (keyWritten ==> acc.keyFile)
      modifies this`calls, this`acc, this`made, this`creates, this`keyWritten
      ensures Valid() && acc == old(acc).(keyFile := acc.keyFile)
      ensures OneMore(KeyFile, o, Blind(w), apply, old(acc), acc, old(acc).(keyFile := true))
      ensures creates >= old(creates) && Did(ok && (apply || creates == old(creates)), old(acc), acc, o, KeyFile)
      ensures Able(w) ==> ok
      ensures Able(w) && Ready(old(acc), o) ==> ok && creates == old(creates) && acc == old(acc)
    {
      GrownSame(acc, o);
      assert Ready(acc, o) ==> Has(acc, o, KeyFile);
      ok := true;
      if acc.keyFile || keyWritten {
        return;
      }
      creates := creates + 1;
      if apply {
        ok := WriteKeyFile();
      }
    }

    method ZoneStep() returns (ok: bool)
      requires Valid()
      modifies this`calls, this`acc, this`made, this`creates
      ensures Valid() && acc == old(acc).(zones := acc.zones)
      ensures OneMore(Zone, o, Blind(w), apply, old(acc), acc,
                      old(acc).(zones := old(acc.zones) + [Named(ZoneName(o), w.zone)]))
      ensures creates >= old(creates) && Did(ok && (apply || creates == old(creates)), old(acc), acc, o, Zone)
      ensures Able(w) ==> ok
      ensures Able(w) && Ready(old(acc), o) ==> ok && creates == old(creates) && acc == old(acc)
    {
      GrownSame(acc, o);
      assert Ready(acc, o) ==> Has(acc, o, Zone);
      ok := true;
      if o.zoneGiven {
        return;
      }
      ok := Ask();
      if !ok || Find(acc.zones, ZoneName(o)).Some? {
        return;
      }
      creates := creates + 1;
      if apply {
        ZoneAdds(acc, o, w.zone);
        ok := Make(Zone, acc.(zones := acc.zones + [Named(ZoneName(o), w.zone)]));
      }
    }

    method RuleStep() returns (ok: bool)
      requires Valid() && KnowsInstance()
      modifies this`calls, this`acc, this`made, this`creates
      ensures Valid() && acc == old(acc).(rules := acc.rules)
      ensures OneMore(BucketRule, o, Blind(w), apply, old(acc), acc,
                      old(acc).(rules := old(acc.rules) + [Rule([Scope(COS, Id(guid), BUCKET, o.bucket)])]))
      ensures creates >= old(creates) && Did(ok && (apply || creates == old(creates)), old(acc), acc, o, BucketRule)
      ensures Able(w) ==> ok
      ensures Able(w) && Ready(old(acc), o) ==> ok && creates == old(creates) && acc == old(acc)
    {
      GrownSame(acc, o);
      assert Ready(acc, o) ==> Has(acc, o, BucketRule) && Has(acc, o, Instance);
      var there := false;
      if guid.Some? {
        ok := Ask();
        if !ok {
          return;
        }
        there := exists r :: r in acc.rules && IsBucketRule(r, o);
      }
      ok := true;
      if there {
        return;
      }
      creates := creates + 1;
      if apply {
        RuleAdds(acc, o, guid.value);
        ok := Make(BucketRule, acc.(rules := acc.rules + [Rule([Scope(COS, guid.value, BUCKET, o.bucket)])]));
      }
    }

    method WriteSecretFile() returns (ok: bool)
      requires Valid() && apply
      modifies this`calls, this`acc, this`made
      ensures Valid() && (acc == old(acc) || acc == old(acc).(secretFile := true))
      ensures ok ==> acc.secretFile
      ensures old(acc.secretFile) ==> !ok && acc == old(acc)
      ensures Answers(w) && !old(acc.secretFile) ==> ok
    {
      if acc.secretFile {
        return false;
      }
      SecretGrows(acc, o);
      ok := Make(SecretFile, acc.(secretFile := true));
    }

    method LookForKey() returns (ok: bool, there: bool)
      requires KnowsBucket()
      modifies this`calls
      ensures ok ==> (there <==> Has(acc, o, BackupKey) && !w.blindKey)
      ensures Able(w) ==> ok
      ensures Answers(w) && w.blindKey ==> ok
    {
      there := false;
      if !bucketExists {
        return true, false;
      }
      ok := Ask();
      if ok && acc.bucket.value.keys > 0 && !w.blindKey {
        return w.keyReadable, true;
      }
    }

    /** The backup key. Only a read that is answered with an error status stores a
        wrapped key beside one that is there. */
    method BackupKeyStep() returns (ok: bool)
      requires Valid() && KnowsBucket()
      modifies this`calls, this`acc, this`made, this`creates, this`keyNeeded
      ensures Valid() && creates >= old(creates)
      ensures KeyStep(o, w, apply, old(acc), acc, ok, creates - old(creates))
      ensures ok && keyNeeded ==> creates > old(creates)
    {
      ghost var a := acc;
      var there;
      ok, there := LookForKey();
      if !ok {
        KeyNotRead(o, w, apply, a);
        return;
      }
      keyNeeded := !there;
      if there {
        KeyFound(o, w, apply, a);
      } else {
        ok := NewKey();
      }
    }

    method NewKey() returns (ok: bool)
      requires Valid() && KnowsBucket() && (!w.blindKey ==> !Has(acc, o, BackupKey))
      modifies this`calls, this`acc, this`made, this`creates
      ensures Valid() && creates == old(creates) + 1
      ensures KeyStep(o, w, apply, old(acc), acc, ok, 1)
    {
      ghost var a := acc;
      creates := creates + 1;
      ok := true;
      if apply {
        ok := StoreKey();
        KeyMade(o, w, a, acc, ok);
      } else {
        KeyPlanned(o, w, a);
      }
    }

    method StoreKey() returns (ok: bool)
      requires Valid() && KnowsBucket() && apply && (!w.blindKey ==> !Has(acc, o, BackupKey))
      modifies this`calls, this`acc, this`made
      ensures Valid() && KeyStored(w, old(acc), acc, ok)
    {
      ok := Ask();
      if !ok || !w.saved {
        return false;
      }
      ok := PutKey();
      if ok {
        ok := WriteSecretFile();
      }
    }

    method PutKey() returns (ok: bool)
      requires Valid() && acc.bucket.Some? && apply && (!w.blindKey ==> !Has(acc, o, BackupKey))
      modifies this`calls, this`acc, this`made
      ensures Valid() && acc == old(acc).(bucket := acc.bucket)
      ensures acc.bucket == old(acc.bucket) || acc.bucket == OneKeyMore(old(acc.bucket))
      ensures ok ==> acc.bucket == OneKeyMore(old(acc.bucket))
      ensures Answers(w) ==> ok
    {
      var b := acc.bucket.value;
      KeyGrows(acc, o);
      ok := Make(BackupKey, acc.(bucket := Some(b.(keys := b.keys + 1))));
    }

    method SecretFileStep() returns (ok: bool)
      requires Valid()
      modifies this`calls, this`acc, this`made, this`creates
      ensures Valid() && creates >= old(creates)
      ensures FileStep(w, apply, old(acc), acc, ok, creates - old(creates), keyNeeded)
    {
      ok := true;
      if !apply && keyNeeded {
        return;
      }
      if acc.secretFile {
        return;
      }
      creates := creates + 1;
      if apply {
        ok := WriteSecretFile();
      }
    }

    // ---- the pass ----

    method InstanceSteps() returns (ok: bool)
      requires Valid()
      modifies this`calls, this`acc, this`made, this`creates, this`guid
      ensures Valid() && creates >= old(creates)
      ensures acc == old(acc).(instances := acc.instances, policies := acc.policies)
      ensures ok ==> KnowsInstance() && (apply ==> guid == Some(GuidFor(old(acc), o, w)))
      ensures Done(ok && (apply || creates == old(creates)), old(acc), acc, o, 0, 2)
      ensures HarmlessAdded(old(acc.policies), acc.policies, o)
      ensures Able(w) ==> ok
      ensures Able(w) && Ready(old(acc), o) ==> ok && creates == old(creates) && acc == old(acc)
    {
      ghost var a0, c0 := acc, creates;
      ok := Ask();
      if !ok || !w.preflight {
        GrownSame(acc, o);
        return false;
      }
      ok := InstanceStep();
      if !ok {
        return;
      }
      ghost var a, c := acc, creates;
      ok := AuthorizationStep();
      MaybeHarmless(a, acc, AuthorizationFor(Id(guid), o), o);
      Pair(apply || c == c0, ok && (apply || creates == c), a0, a, acc, o, Instance, Authorization);
    }

    method BucketSteps() returns (ok: bool)
      requires Valid() && KnowsInstance() && !bucketExists && !versionOn && !lockOn
      modifies this`calls, this`acc, this`made, this`creates, this`bucketExists, this`bucketOurs, this`versionOn,
               this`lockOn
      ensures Valid() && creates >= old(creates)
      ensures acc == old(acc).(bucket := acc.bucket)
      ensures ok ==> KnowsBucket()
      ensures KeyCount(acc.bucket) == KeyCount(old(acc.bucket))
      ensures Done(ok && (apply || creates == old(creates)), old(acc), acc, o, 2, 5)
      ensures Able(w) && apply ==> (ok <==> BucketFits(old(acc.bucket), o))
      ensures Able(w) && Ready(old(acc), o) ==> ok && creates == old(creates) && acc == old(acc)
    {
      ghost var a0, c0 := acc, creates;
      ok := BucketStep();
      if !ok {
        return;
      }
      ghost var a, c := acc, creates;
      ok := SettingSteps();
      One(apply || c == c0, a0, a, o, TheBucket);
      Compose(apply || c == c0, ok && (apply || creates == c), a0, a, acc, o, 2, 3, 5);
    }

    method SettingSteps() returns (ok: bool)
      requires Valid() && KnowsBucket()
      modifies this`calls, this`acc, this`made, this`creates, this`versionOn, this`lockOn
      ensures Valid() && creates >= old(creates)
      ensures acc == old(acc).(bucket := acc.bucket)
      ensures ok ==> KnowsBucket()
      ensures KeyCount(acc.bucket) == KeyCount(old(acc.bucket))
      ensures Done(ok && (apply || creates == old(creates)), old(acc), acc, o, 3, 5)
      ensures Able(w) ==> ok
      ensures Able(w) && Ready(old(acc), o) ==> creates == old(creates) && acc == old(acc)
    {
      ghost var a0, c0 := acc, creates;
      ok := VersioningStep();
      if !ok {
        return;
      }
      ghost var a, c := acc, creates;
      ok := ObjectLockStep();
      Pair(apply || c == c0, ok && (apply || creates == c), a0, a, acc, o, Versioning, ObjectLock);
    }

    method IdentitySteps() returns (ok: bool)
      requires Valid()
      modifies this`calls, this`acc, this`made, this`creates, this`role, this`iam
      ensures Valid() && creates >= old(creates)
      ensures acc == old(acc).(roles := acc.roles, sids := acc.sids)
      ensures ok ==> KnowsRole() && KnowsSid() && (apply || creates == old(creates) ==> role.Some?)
      ensures ok && apply ==> iam == Some(IamFor(old(acc), o, w))
      ensures Done(ok && (apply || creates == old(creates)), old(acc), acc, o, 5, 7)
      ensures Able(w) ==> (ok <==> RolesFit(old(acc.roles)))
      ensures Able(w) && Ready(old(acc), o) ==> ok && creates == old(creates) && acc == old(acc)
    {
      ghost var a0, c0 := acc, creates;
      ok := RoleStep();
      if !ok {
        return;
      }
      ghost var a, c := acc, creates;
      ok := ServiceIdStep();
      Pair(apply || c == c0, ok && (apply || creates == c), a0, a, acc, o, CustomRole, ServiceId);
    }

    method PolicySteps() returns (ok: bool)
      requires Valid() && KnowsInstance() && KnowsSid() && KnowsRole()
      modifies this`calls, this`acc, this`made, this`creates
      ensures Valid() && creates >= old(creates)
      ensures acc == old(acc).(policies := acc.policies)
      ensures Done(ok && role.Some? && (apply || creates == old(creates)), old(acc), acc, o, 7, 9)
      ensures HarmlessAdded(old(acc.policies), acc.policies, o)
      ensures Able(w) ==> ok
      ensures Able(w) && Ready(old(acc), o) ==> creates == old(creates) && acc == old(acc)
    {
      ghost var a0, c0 := acc, creates;
      ok := BucketPolicyStep();
      MaybeHarmless(a0, acc, BucketPolicyFor(Id(iam), Id(guid), Id(role), o), o);
      if ok {
        ok := RootKeyPolicyAfter(a0, c0);
      }
    }

    /** The second policy; `a0` and `c0` are what there was before the first. */
    method RootKeyPolicyAfter(ghost a0: Account, ghost c0: nat) returns (ok: bool)
      requires Valid() && KnowsSid() && creates >= c0 && acc == a0.(policies := acc.policies)
      requires Did(role.Some? && (apply || creates == c0), a0, acc, o, BucketPolicy)
      requires HarmlessAdded(a0.policies, acc.policies, o)
      requires Able(w) && Ready(a0, o) ==> creates == c0 && acc == a0
      modifies this`calls, this`acc, this`made, this`creates
      ensures Valid() && creates >= old(creates) && acc == a0.(policies := acc.policies)
      ensures Done(ok && role.Some? && (apply || creates == c0), a0, acc, o, 7, 9)
      ensures HarmlessAdded(a0.policies, acc.policies, o)
      ensures Able(w) ==> ok
      ensures Able(w) && Ready(a0, o) ==> creates == c0 && acc == a0
    {
      ghost var a, c := acc, creates;
      ok := RootKeyPolicyStep();
      MaybeHarmless(a, acc, RootKeyPolicyFor(Id(iam), o), o);
      HarmlessTransitive(a0.policies, a.policies, acc.policies, o);
      Pair(role.Some? && (apply || c == c0), ok && (apply || creates == c), a0, a, acc, o, BucketPolicy, RootKeyPolicy);
    }

    method HmacSteps() returns (ok: bool)
      requires Valid() && KnowsInstance() && KnowsSid() && !keyWritten && !hmacKnown
      modifies this`calls, this`acc, this`made, this`creates, this`hmacKnown, this`keyWritten
      ensures Valid() && creates >= old(creates)
      ensures acc == old(acc).(hmacs := acc.hmacs, policies := acc.policies, keyFile := acc.keyFile)
      ensures ok && iam.Some? ==> Narrow(acc.policies, iam.value, o)
      ensures Done(ok && (apply || creates == old(creates)), old(acc), acc, o, 9, 11)
      ensures apply ==> HmacWent(o, w, old(acc), acc, iam.value, guid.value, ok)
      ensures Able(w) && Ready(old(acc), o) ==> ok && creates == old(creates) && acc == old(acc)
    {
      ghost var a0, c0 := acc, creates;
      ok := HmacStep();
      if !ok {
        return;
      }
      ghost var a, c := acc, creates;
      ok := KeyFileStep();
      Pair(apply || c == c0, ok && (apply || creates == c), a0, a, acc, o, HmacKey, KeyFile);
    }

    method ZoneSteps() returns (ok: bool)
      requires Valid() && KnowsInstance()
      modifies this`calls, this`acc, this`made, this`creates
      ensures Valid() && creates >= old(creates)
      ensures acc == old(acc).(zones := acc.zones, rules := acc.rules)
      ensures Done(ok && (apply || creates == old(creates)), old(acc), acc, o, 11, 13)
      ensures Able(w) ==> ok
      ensures Able(w) && Ready(old(acc), o) ==> ok && creates == old(creates) && acc == old(acc)
    {
      ghost var a0, c0 := acc, creates;
      ok := ZoneStep();
      if !ok {
        return;
      }
      ghost var a, c := acc, creates;
      ok := RuleStep();
      Pair(apply || c == c0, ok && (apply || creates == c), a0, a, acc, o, Zone, BucketRule);
    }

    method SecretSteps() returns (ok: bool)
      requires Valid() && KnowsBucket()
      modifies this`calls, this`acc, this`made, this`creates, this`keyNeeded
      ensures Valid() && creates >= old(creates)
      ensures SecretsDone(o, w, apply, old(acc), acc, ok, creates - old(creates))
    {
      ghost var a0, c0 := acc, creates;
      ok := BackupKeyStep();
      if !ok {
        KeyFailed(o, w, apply, a0, acc, creates - c0);
        return;
      }
      ghost var a, c := acc, creates;
      ok := SecretFileStep();
      KeyThenFile(o, w, apply, a0, a, acc, c - c0, ok, creates - c, keyNeeded);
    }

    method InstanceAndBucket() returns (ok: bool)
      requires Valid() && !bucketExists && !versionOn && !lockOn
      modifies this`calls, this`acc, this`made, this`creates, this`guid, this`bucketExists, this`bucketOurs,
               this`versionOn, this`lockOn
      ensures Valid() && creates >= old(creates)
      ensures acc == old(acc).(instances := acc.instances, policies := acc.policies, bucket := acc.bucket)
      ensures ok ==> KnowsInstance() && KnowsBucket() && (apply ==> guid == Some(GuidFor(old(acc), o, w)))
      ensures KeyCount(acc.bucket) == KeyCount(old(acc.bucket)) && HarmlessAdded(old(acc.policies), acc.policies, o)
      ensures Done(ok && (apply || creates == old(creates)), old(acc), acc, o, 0, 5)
      ensures Able(w) && apply ==> (ok <==> BucketFits(old(acc.bucket), o))
      ensures Able(w) && Ready(old(acc), o) ==> ok && creates == old(creates) && acc == old(acc)
    {
      ghost var a0, c0 := acc, creates;
      ok := InstanceSteps();
      if !ok {
        return;
      }
      ghost var a, c := acc, creates;
      ok := BucketSteps();
      Compose(apply || c == c0, ok && (apply || creates == c), a0, a, acc, o, 0, 2, 5);
    }

    method IdentityAndPolicies() returns (ok: bool)
      requires Valid() && KnowsInstance()
      modifies this`calls, this`acc, this`made, this`creates, this`role, this`iam
      ensures Valid() && creates >= old(creates)
      ensures acc == old(acc).(roles := acc.roles, sids := acc.sids, policies := acc.policies)
      ensures ok ==> KnowsRole() && KnowsSid() && (apply ==> iam == Some(IamFor(old(acc), o, w)))
      ensures HarmlessAdded(old(acc.policies), acc.policies, o)
      ensures Done(ok && (apply || creates == old(creates)), old(acc), acc, o, 5, 9)
      ensures Able(w) ==> (ok <==> RolesFit(old(acc.roles)))
      ensures Able(w) && Ready(old(acc), o) ==> ok && creates == old(creates) && acc == old(acc)
    {
      ghost var a0, c0 := acc, creates;
      ok := IdentitySteps();
      if !ok {
        return;
      }
      ghost var a, c := acc, creates;
      ok := PolicySteps();
      Compose(apply || c == c0, ok && role.Some? && (apply || creates == c), a0, a, acc, o, 5, 7, 9);
    }

    method HmacAndZone() returns (ok: bool)
      requires Valid() && KnowsInstance() && KnowsSid() && !keyWritten && !hmacKnown
      modifies this`calls, this`acc, this`made, this`creates, this`hmacKnown, this`keyWritten
      ensures Valid() && creates >= old(creates)
      ensures LateSame(old(acc), acc)
      ensures ok && iam.Some? ==> Narrow(acc.policies, iam.value, o)
      ensures Done(ok && (apply || creates == old(creates)), old(acc), acc, o, 9, 13)
      ensures apply ==> HmacWent(o, w, old(acc), acc, iam.value, guid.value, ok)
      ensures Able(w) && Ready(old(acc), o) ==> ok && creates == old(creates) && acc == old(acc)
    {
      ghost var a0, c0 := acc, creates;
      ok := HmacSteps();
      if !ok {
        return;
      }
      ghost var a, c := acc, creates;
      ok := ZoneSteps();
      Compose(apply || c == c0, ok && (apply || creates == c), a0, a, acc, o, 9, 11, 13);
    }

    /** The steps up to the two policies. */
    method FirstSteps() returns (ok: bool)
      requires Valid() && !bucketExists && !versionOn && !lockOn
      modifies this`calls, this`acc, this`made, this`creates, this`guid, this`bucketExists, this`bucketOurs,
               this`versionOn, this`lockOn, this`role, this`iam
      ensures Valid() && creates >= old(creates)
      ensures ok ==> KnowsAll()
      ensures Done(ok && (apply || creates == old(creates)), old(acc), acc, o, 0, 9)
      ensures FirstWent(o, w, apply, old(acc), acc, iam, guid, ok)
      ensures Able(w) && Ready(old(acc), o) ==> ok && creates == old(creates) && acc == old(acc)
    {
      ghost var a0, c0 := acc, creates;
      ok := InstanceAndBucket();
      if !ok {
        return;
      }
      ghost var a, c := acc, creates;
      ok := IdentityAndPolicies();
      HarmlessTransitive(a0.policies, a.policies, acc.policies, o);
      Compose(apply || c == c0, ok && (apply || creates == c), a0, a, acc, o, 0, 5, 9);
    }

    /** The steps from the HMAC key on. */
    method LastSteps() returns (ok: bool)
      requires Valid() && KnowsAll() && !keyWritten && !hmacKnown
      modifies this`calls, this`acc, this`made, this`creates, this`hmacKnown, this`keyWritten, this`keyNeeded
      ensures Valid() && creates >= old(creates)
      ensures ok ==> Fitting(acc, o)
      ensures LastDone(o, w, apply, old(acc), acc, ok, creates - old(creates))
      ensures apply ==> LastWent(o, w, old(acc), acc, iam.value, guid.value, ok)
    {
      ghost var a0, c0 := acc, creates;
      ok := HmacAndZone();
      if ok {
        ok := SecretsAfter(a0, c0);
      } else {
        HmacFailed(o, w, apply, a0, acc, creates - c0);
        if apply {
          LastFailed(o, w, a0, acc, iam.value, guid.value);
        }
      }
    }

    /** The last two steps; `a0` and `c0` are what there was before the steps of the HMAC
        key, the zone and the rule, which went well. */
    method SecretsAfter(ghost a0: Account, ghost c0: nat) returns (ok: bool)
      requires Valid() && KnowsBucket() && creates >= c0 && (apply ==> iam.Some? && guid.Some?)
      requires LateSame(a0, acc) && RolesFit(a0.roles) && SidOf(a0, o) == iam
      requires Done(apply || creates == c0, a0, acc, o, 9, 13) && (iam.Some? ==> Narrow(acc.policies, iam.value, o))
      requires apply ==> HmacWent(o, w, a0, acc, iam.value, guid.value, true)
      requires Able(w) && Ready(a0, o) ==> creates == c0 && acc == a0
      modifies this`calls, this`acc, this`made, this`creates, this`keyNeeded
      ensures Valid() && creates >= old(creates)
      ensures ok ==> Fitting(acc, o)
      ensures LastDone(o, w, apply, a0, acc, ok, creates - c0)
      ensures apply ==> LastWent(o, w, a0, acc, iam.value, guid.value, ok)
    {
      ghost var a, c := acc, creates;
      ok := SecretSteps();
      HmacThenSecrets(o, w, apply, a0, a, acc, c - c0, ok, creates - c);
      StillFits(a0, a, acc, o);
      if apply {
        LastBoth(o, w, a0, a, acc, iam.value, guid.value, ok, creates - c);
      }
    }

    /** The whole pass. A plan that finds nothing to create, and an apply that
        succeeds, leave an account where everything is there; on such an account
        the next pass finds nothing to create. */
    method All() returns (ok: bool)
      requires Valid() && acc == start && creates == 0 && !bucketExists && !versionOn && !lockOn && !keyWritten
      requires !hmacKnown
      modifies this
      ensures Valid()
      ensures ok && (apply || creates == 0) ==> Ready(acc, o)
      ensures Calm(w) && Ready(start, o) ==> ok && creates == 0 && acc == start
      ensures Able(w) && w.blindKey && w.saved && apply && Ready(start, o) ==>
                !ok && acc == start.(bucket := OneKeyMore(start.bucket))
      ensures apply ==> PassWent(o, w, start, acc, ok)
    {
      ok := FirstSteps();
      if ok {
        ok := RestOfPass();
      } else if apply {
        StoppedEarly(o, w, start, acc, iam, guid);
      }
    }

    /** The pass once its first nine steps went well. */
    method RestOfPass() returns (ok: bool)
      requires Valid() && KnowsAll() && !keyWritten && !hmacKnown
      requires Done(apply || creates == 0, start, acc, o, 0, 9) && FirstWent(o, w, apply, start, acc, iam, guid, true)
      requires Able(w) && Ready(start, o) ==> creates == 0 && acc == start
      modifies this`calls, this`acc, this`made, this`creates, this`hmacKnown, this`keyWritten, this`keyNeeded
      ensures Valid() && PassDone(o, w, apply, start, acc, ok, creates)
      ensures apply ==> PassWent(o, w, start, acc, ok)
    {
      ghost var a, c := acc, creates;
      ok := LastSteps();
      FirstThenLast(o, w, apply, start, a, acc, c, ok, creates - c);
      if apply {
        WentThrough(o, w, start, a, acc, iam.value, guid.value, ok);
      }
    }
  }

  lemma {:induction false} MarkerKeeps(o: Options, blind: set<Kind>, start: Account, a: Account, made: seq<Kind>,
                                       b: Account)
    requires RunOk(o, true, blind, start, a, made)
    requires a.bucket == Some(Bucket(false, false, false, 0)) && b == a.(bucket := Some(Bucket(true, false, false, 0)))
    ensures RunOk(o, true, blind, start, b, made) && Grown(a, b, o)
  {
    assert Grown(a, b, o);
    GrownTransitive(start, a, b, o);
  }

  lemma {:induction false} FileGrows(a: Account, o: Options)
    ensures Grown(a, a.(keyFile := true), o)
  {
  }

  lemma {:induction false} SecretGrows(a: Account, o: Options)
    ensures Grown(a, a.(secretFile := true), o)
  {
  }

  lemma {:induction false} KeyGrows(a: Account, o: Options)
    requires a.bucket.Some?
    ensures var b := a.(bucket := Some(a.bucket.value.(keys := a.bucket.value.keys + 1)));
            Grown(a, b, o) && Has(b, o, BackupKey)
  {
  }

  // ---- deleting the policy that the cloud added ----

  /** Only new wide policies of the service ID are gone, and no object with them. */
  ghost predicate Trimmed(a: Account, b: Account, iam: nat, guid: nat, before: set<nat>, o: Options) {
    && b == a.(policies := b.policies) && DistinctIds(b.policies)
    && (forall k :: Has(a, o, k) ==> Has(b, o, k))
    && (forall p :: p in b.policies ==> p in a.policies)
    && (forall p :: p in a.policies && p !in b.policies ==>
          Grants(p, iam) && InstanceWide(p, iam, guid) && p.id !in before)
  }

  lemma {:induction false} TrimStep(a: Account, b: Account, iam: nat, guid: nat, before: set<nat>, o: Options,
                                    p: Policy)
    requires Trimmed(a, b, iam, guid, before, o) && DistinctIds(a.policies)
    requires SidOf(b, o) == Some(iam) && InstanceOf(b, o) == Some(guid)
    requires p in a.policies && Grants(p, iam) && InstanceWide(p, iam, guid) && p.id !in before
    ensures Trimmed(a, b.(policies := Without(b.policies, p.id)), iam, guid, before, o)
    ensures p !in Without(b.policies, p.id)
  {
    WithoutDistinct(b.policies, p.id);
    var c := b.(policies := Without(b.policies, p.id));
    if p in b.policies {
      DeletingWideKeepsObjects(b, p, iam, guid, o);
    } else {
      SameWithout(b.policies, p, a.policies);
    }
    forall q | q in a.policies && q !in c.policies
      ensures Grants(q, iam) && InstanceWide(q, iam, guid) && q.id !in before
    {
      if q.id == p.id {
        SameId(a.policies, p, q);
      }
    }
  }

  lemma {:induction false} SameWithout(policies: seq<Policy>, p: Policy, all: seq<Policy>)
    requires DistinctIds(all) && p in all && p !in policies && forall q :: q in policies ==> q in all
    ensures Without(policies, p.id) == policies
  {
    forall q | q in policies ensures q.id != p.id {
      if q.id == p.id {
        SameId(all, p, q);
      }
    }
    NothingToDrop(policies, p.id);
  }

  lemma {:induction false} NothingToDrop(policies: seq<Policy>, id: nat)
    requires forall q :: q in policies ==> q.id != id
    ensures Without(policies, id) == policies
  {
    if policies != [] {
      var front, last := policies[..|policies| - 1], policies[|policies| - 1];
      assert policies == front + [last];
      assert last in policies && forall q :: q in front ==> q in policies;
      NothingToDrop(front, id);
    }
  }

  lemma {:induction false} TrimmedRunOk(o: Options, blind: set<Kind>, start: Account, a: Account, b: Account,
                                        made: seq<Kind>,
                                        iam: nat, guid: nat, before: set<nat>)
    requires RunOk(o, true, blind, start, a, made) && Trimmed(a, b, iam, guid, before, o)
    requires forall q :: q in start.policies && Grants(q, iam) ==> q.id in before
    ensures RunOk(o, true, blind, start, b, made)
  {
    forall q | q in start.policies ensures q in b.policies {
      assert q in a.policies;
    }
    forall k | Has(start, o, k) ensures Has(b, o, k) {
      assert Has(a, o, k);
    }
    forall k | k in made ensures Has(b, o, k) {
      assert Has(a, o, k);
    }
  }

  lemma {:induction false} NewIdIsNew(policies: seq<Policy>, iam: nat, id: nat)
    requires id > MaxId(policies)
    ensures id !in IdsOf(SubjectPolicies(policies, iam))
  {
  }

  /** Only wide policies are gone, and of the service ID's only old ones are left. */
  ghost predicate WideGone(b: seq<Policy>, c: seq<Policy>, iam: nat, guid: nat, before: set<nat>) {
    && (forall p :: p in c ==> p in b)
    && (forall p :: p in b && p !in c ==> InstanceWide(p, iam, guid))
    && (forall p :: p in c && Grants(p, iam) && InstanceWide(p, iam, guid) ==> p.id in before)
  }

  lemma {:induction false} TrimmedKey(o: Options, w: World, a: Account, b: Account, c: Account, iam: nat, guid: nat,
                                      before: set<nat>)
    requires b.policies == NewHmac(a, o, w).policies && WideGone(b.policies, c.policies, iam, guid, before)
    requires before == IdsOf(SubjectPolicies(a.policies, iam)) && forall p :: p in a.policies ==> p in c.policies
    ensures KeyTrimmed(a, c, w, iam, guid)
  {
    if w.implicit.Some? {
      var q := w.implicit.value.(id := MaxId(a.policies) + 1);
      assert b.policies == a.policies + [q];
      NewIdIsNew(a.policies, iam, q.id);
      assert q in b.policies;
    }
  }

  predicate Handled(p: Policy, a: Account, iam: nat, guid: nat, before: set<nat>) {
    p.id in before || !InstanceWide(p, iam, guid) || p !in a.policies
  }

  function IdsOf(pols: seq<Policy>): (r: set<nat>)
    ensures forall p :: p in pols ==> p.id in r
    ensures forall n :: n in r ==> exists p :: p in pols && p.id == n
  {
    set p | p in pols :: p.id
  }

  /** The account once the cloud has made the HMAC key, with the policy it adds. */
  function NewHmac(a: Account, o: Options, w: World): (r: Account) {
    var b := a.(hmacs := a.hmacs + [Hmac(HmacName(o), w.shown)]);
    if w.implicit.Some? then WithPolicy(b, w.implicit.value) else b
  }

  lemma {:induction false} NewHmacGrows(a: Account, o: Options, w: World)
    requires DistinctIds(a.policies)
    ensures var b := NewHmac(a, o, w);
            Grown(a, b, o) && Has(b, o, HmacKey) && DistinctIds(b.policies)
  {
    var b := a.(hmacs := a.hmacs + [Hmac(HmacName(o), w.shown)]);
    HmacAdds(a, o, w.shown);
    if w.implicit.Some? {
      WithPolicyGrows(b, w.implicit.value, o);
      GrownTransitive(a, b, WithPolicy(b, w.implicit.value), o);
      assert Has(b, o, HmacKey);
    }
  }

  lemma {:induction false} AllTrimmed(a: Account, b: Account, iam: nat, guid: nat, before: set<nat>, o: Options,
                                      pols: seq<Policy>)
    requires Trimmed(a, b, iam, guid, before, o) && pols == SubjectPolicies(a.policies, iam)
    requires forall k :: 0 <= k < |pols| ==> Handled(pols[k], b, iam, guid, before)
    ensures forall p :: p in b.policies && Grants(p, iam) && InstanceWide(p, iam, guid) ==> p.id in before
  {
    forall p | p in b.policies && Grants(p, iam) && InstanceWide(p, iam, guid) ensures p.id in before {
      assert p in pols;
    }
  }

  // ---- one step after another ----

  /** The place of an object in the order of the steps. */
  function Rank(k: Kind): (n: nat)
    ensures n < 15
  {
    match k
    case Instance => 0
    case Authorization => 1
    case TheBucket => 2
    case Versioning => 3
    case ObjectLock => 4
    case CustomRole => 5
    case ServiceId => 6
    case BucketPolicy => 7
    case RootKeyPolicy => 8
    case HmacKey => 9
    case KeyFile => 10
    case Zone => 11
    case BucketRule => 12
    case BackupKey => 13
    case SecretFile => 14
  }

  /** Nothing is lost, and once settled the object of the step is there. */
  ghost predicate Did(settled: bool, a: Account, b: Account, o: Options, k: Kind) {
    Grown(a, b, o) && (settled ==> Has(b, o, k))
  }

  ghost predicate There(a: Account, o: Options, lo: nat, hi: nat) {
    forall k :: lo <= Rank(k) < hi ==> Has(a, o, k)
  }

  /** Nothing is lost, and once settled the objects of the steps `lo` up to `hi` are
      there. */
  ghost predicate Done(settled: bool, a: Account, b: Account, o: Options, lo: nat, hi: nat) {
    Grown(a, b, o) && (settled ==> There(b, o, lo, hi))
  }

  lemma {:induction false} RankTells(j: Kind, k: Kind)
    requires Rank(j) == Rank(k)
    ensures j == k
  {
  }

  lemma {:induction false} One(s: bool, a: Account, b: Account, o: Options, k: Kind)
    requires Did(s, a, b, o, k)
    ensures Done(s, a, b, o, Rank(k), Rank(k) + 1)
  {
    if s {
      forall j | Rank(k) <= Rank(j) < Rank(k) + 1 ensures Has(b, o, j) {
        RankTells(j, k);
      }
    }
  }

  lemma {:induction false} Compose(s: bool, t: bool, a: Account, b: Account, c: Account, o: Options, lo: nat,
                                   mid: nat, hi: nat)
    requires Done(s, a, b, o, lo, mid) && Done(t, b, c, o, mid, hi)
    ensures Done(s && t, a, c, o, lo, hi)
  {
    GrownTransitive(a, b, c, o);
    if s && t {
      forall k | lo <= Rank(k) < hi ensures Has(c, o, k) {
        if Rank(k) < mid {
          assert Has(b, o, k);
        }
      }
    }
  }

  lemma {:induction false} Pair(s: bool, t: bool, a: Account, b: Account, c: Account, o: Options, j: Kind, k: Kind)
    requires Did(s, a, b, o, j) && Did(t, b, c, o, k) && Rank(k) == Rank(j) + 1
    ensures Done(s && t, a, c, o, Rank(j), Rank(j) + 2)
  {
    One(s, a, b, o, j);
    One(t, b, c, o, k);
    Compose(s, t, a, b, c, o, Rank(j), Rank(k), Rank(k) + 1);
  }

  /** What a whole pass does, with `more` objects counted as missing. */
  ghost predicate PassDone(o: Options, w: World, apply: bool, a: Account, b: Account, ok: bool, more: int) {
    && (ok && (apply || more == 0) ==> Ready(b, o))
    && (Calm(w) && Ready(a, o) ==> ok && more == 0 && b == a)
    && (Able(w) && w.blindKey && w.saved && apply && Ready(a, o) ==> !ok && b == a.(bucket := OneKeyMore(a.bucket)))
  }

  lemma {:induction false} FirstThenLast(o: Options, w: World, apply: bool, a: Account, b: Account, c: Account,
                                         more: int,
                                         ok: bool, last: int)
    requires Done(apply || more == 0, a, b, o, 0, 9) && more >= 0 && last >= 0
    requires Able(w) && Ready(a, o) ==> more == 0 && b == a
    requires LastDone(o, w, apply, b, c, ok, last) && (ok ==> Fitting(c, o))
    ensures PassDone(o, w, apply, a, c, ok, more + last)
  {
    if ok && (apply || more + last == 0) {
      Compose(true, true, a, b, c, o, 0, 9, 15);
    }
  }

  // ---- many runs ----

  /** The command: a plan, the person's answer, and then an apply pass. When it ends
      well, everything is there; a dry run, a plan that fails and an answer of no
      leave the account as it was. */
  method Setup(o: Options, plan: World, later: World, dryRun: bool, confirmed: bool,
               acc: Account) returns (end: Account, ok: bool)
    requires DistinctIds(acc.policies)
    ensures Grown(acc, end, o) && DistinctIds(end.policies)
    ensures dryRun || !confirmed ==> end == acc
    ensures ok && !dryRun ==> Ready(end, o)
    ensures Calm(plan) && Ready(acc, o) ==> ok && end == acc
    ensures SecretLost(acc, o) && !dryRun ==> !ok && SecretLost(end, o)
  {
    GrownSame(acc, o);
    assert Ready(acc, o) ==> Has(acc, o, KeyFile);
    var first := new Run(o, plan, false, acc);
    ok := first.All();
    if !ok || dryRun || first.creates == 0 {
      return acc, ok;
    }
    if !confirmed {
      return acc, false;
    }
    var second := new Run(o, later, true, acc);
    ok := second.All();
    end := second.acc;
  }

  /** When everything works, an apply pass ends well exactly on an account that can be set
      up, and then everything is there. */
  method CalmPassSucceeds(o: Options, w: World, acc: Account) returns (end: Account, ok: bool)
    requires DistinctIds(acc.policies) && Calm(w) && w.hmacAnswered && w.saved
    ensures ok <==> Settable(acc, o, w)
    ensures ok ==> Ready(end, o)
  {
    var run := new Run(o, w, true, acc);
    ok := run.All();
    end := run.acc;
  }

  /** A secret is lost when the cloud makes the HMAC key and its answer does not hold it:
      on any account that gets that far, the pass fails and no later one can succeed. */
  method AnswerWithoutKeyLosesSecret(o: Options, w: World, acc: Account) returns (end: Account, ok: bool)
    requires DistinctIds(acc.policies) && Able(w) && LosesSecret(acc, o, w)
    ensures !ok && SecretLost(end, o)
  {
    var run := new Run(o, w, true, acc);
    ok := run.All();
    end := run.acc;
  }

  /** The worst of a blind read: nothing is missing, yet an apply pass that is told only
      an error status when it looks for the wrapped key puts a new key in its place, and
      then fails on the secret file, which is there. */
  method BlindPassReplacesKey(o: Options, w: World, acc: Account) returns (end: Account, ok: bool)
    requires DistinctIds(acc.policies) && Ready(acc, o) && Able(w) && w.blindKey && w.saved
    ensures !ok && end == acc.(bucket := OneKeyMore(acc.bucket)) && end != acc
  {
    assert Has(acc, o, TheBucket);
    var run := new Run(o, w, true, acc);
    ok := run.All();
    end := run.acc;
  }

  /** One pass, stopped anywhere or not: what it could not see, where it began, where
      it left the account, and what it made. */
  datatype Pass = Pass(apply: bool, blind: set<Kind>, start: Account, end: Account, made: seq<Kind>)

  ghost predicate PassOk(p: Pass, o: Options) {
    RunOk(o, p.apply, p.blind, p.start, p.end, p.made)
  }

  /** Passes one after another over an account that nobody else changes. */
  ghost predicate Passes(passes: seq<Pass>, o: Options) {
    && (forall i :: 0 <= i < |passes| ==> PassOk(passes[i], o))
    && (forall i :: 0 < i < |passes| ==> passes[i].start == passes[i - 1].end)
  }

  lemma {:induction false} PassesGrow(passes: seq<Pass>, o: Options, i: nat, j: nat)
    requires Passes(passes, o) && i < j < |passes|
    ensures Grown(passes[i].end, passes[j].start, o)
    decreases j
  {
    assert passes[j].start == passes[j - 1].end;
    if i < j - 1 {
      PassesGrow(passes, o, i, j - 1);
      assert PassOk(passes[j - 1], o);
      GrownTransitive(passes[i].end, passes[j - 1].start, passes[j - 1].end, o);
    } else {
      GrownSame(passes[i].end, o);
    }
  }

  /** Wherever each pass stops, a later pass makes a second copy only of a kind that
      it cannot see: the wrapped key, or the object lock, whose read was answered
      with an error status. */
  lemma {:induction false} NothingMadeTwice(passes: seq<Pass>, o: Options, i: nat, j: nat, k: Kind)
    requires Passes(passes, o) && i < j < |passes| && k in passes[i].made && k in passes[j].made
    ensures k in passes[j].blind
  {
    PassesGrow(passes, o, i, j);
    assert PassOk(passes[i], o) && PassOk(passes[j], o);
    assert Has(passes[i].end, o, k) && Has(passes[j].start, o, k);
  }

  /** Nor does a pass make what was there before the first pass, or one thing twice,
      except of a kind that it cannot see. */
  lemma {:induction false} NothingMadeAgain(passes: seq<Pass>, o: Options, j: nat, k: Kind)
    requires Passes(passes, o) && j < |passes| && k in passes[j].made && k !in passes[j].blind
    ensures !Has(passes[0].start, o, k)
    ensures multiset(passes[j].made)[k] == 1
  {
    assert PassOk(passes[0], o) && PassOk(passes[j], o);
    if j > 0 {
      PassesGrow(passes, o, 0, j);
      GrownTransitive(passes[0].start, passes[0].end, passes[j].start, o);
    }
    OnceInList(passes[j].made, passes[j].blind, k);
  }

  lemma {:induction false} OnceInList(made: seq<Kind>, blind: set<Kind>, k: Kind)
    requires k in made && k !in blind
    requires forall i, j :: 0 <= i < j < |made| && made[i] == made[j] ==> made[i] in blind
    ensures multiset(made)[k] == 1
  {
    var rest := made[1..];
    assert made == [made[0]] + rest;
    if made[0] == k {
      assert k !in rest;
      assert multiset(rest)[k] == 0;
    } else {
      OnceInList(rest, blind, k);
    }
  }
}
