/** The part of a cloud account that cos-setup looks at and adds to, as plain data,
  and the objects that it makes there.
 */
module CloudAccount {
  import opened Common

  const COS := "cloud-object-storage"
  const BUCKET := "bucket"
  const KEY := "key"
  const READER_ROLE: nat := 1

  /** Where a policy applies; an attribute that is missing is empty, or 0. */
  datatype Scope = Scope(service: string, instance: nat, rtype: string, resource: string)

  datatype Subject = Subject(iam: nat, service: string, instance: nat)

  datatype Policy = Policy(id: nat, access: bool, subjects: seq<Subject>, roles: seq<nat>, scopes: seq<Scope>)

  datatype Named = Named(name: string, id: nat)

  /** A custom role; `fits` says that its actions are the ones that are needed. */
  datatype Role = Role(name: string, crn: nat, fits: bool)

  /** An HMAC key; `shown` says that a listing of keys holds its secret. */
  datatype Hmac = Hmac(name: string, shown: bool)

  datatype Rule = Rule(scopes: seq<Scope>)

  /** The bucket, its marker object, its settings and the wrapped keys stored in it,
      newest last. */
  datatype Bucket = Bucket(marker: bool, versioning: bool, lock: bool, keys: nat)

  datatype Account = Account(
    instances: seq<Named>, policies: seq<Policy>, bucket: Option<Bucket>, roles: seq<Role>, sids: seq<Named>,
    hmacs: seq<Hmac>, zones: seq<Named>, rules: seq<Rule>, keyFile: bool, secretFile: bool)

  datatype RootKey = RootKey(service: string, instance: nat, id: string)

  datatype Options = Options(instance: string, bucket: string, existingBucket: bool, zoneGiven: bool, rootKey: RootKey)

  const ROLE_NAME := "PoolCsiBackupWriter"

  function SidName(o: Options): (s: string) { o.bucket + "-driver" }

  function HmacName(o: Options): (s: string) { o.bucket + "-hmac" }

  function ZoneName(o: Options): (s: string) { o.bucket + "-allowed" }

  // ---- looking ----

  /** The last object with a name. */
  function Find(list: seq<Named>, name: string): (r: Option<nat>)
  {
    if list == [] then None
    else if list[|list| - 1].name == name then Some(list[|list| - 1].id)
    else Find(list[..|list| - 1], name)
  }

  function FindRole(list: seq<Role>): (r: Option<nat>)
  {
    if list == [] then None
    else if list[|list| - 1].name == ROLE_NAME then Some(list[|list| - 1].crn)
    else FindRole(list[..|list| - 1])
  }

  /** Nothing is found exactly when nothing has the name; else it is the last that has it. */
  lemma {:induction false} FindTells(list: seq<Named>, name: string)
    ensures Find(list, name).None? <==> forall n :: n in list ==> n.name != name
    ensures Find(list, name).Some? ==> Named(name, Find(list, name).value) in list
  {
    if list != [] {
      var front, last := list[..|list| - 1], list[|list| - 1];
      assert list == front + [last];
      FindTells(front, name);
    }
  }

  lemma {:induction false} FindRoleTells(list: seq<Role>)
    ensures FindRole(list).None? <==> forall r :: r in list ==> r.name != ROLE_NAME
    ensures FindRole(list).Some? ==> exists r :: r in list && r.name == ROLE_NAME && r.crn == FindRole(list).value
  {
    if list != [] {
      var front, last := list[..|list| - 1], list[|list| - 1];
      assert list == front + [last];
      FindRoleTells(front);
    }
  }

  predicate RolesFit(roles: seq<Role>) {
    forall r :: r in roles && r.name == ROLE_NAME ==> r.fits
  }

  function InstanceOf(a: Account, o: Options): (r: Option<nat>) { Find(a.instances, o.instance) }

  function SidOf(a: Account, o: Options): (r: Option<nat>) { Find(a.sids, SidName(o)) }

  predicate Grants(p: Policy, iam: nat) {
    p.access && exists s :: s in p.subjects && s.iam == iam
  }

  /** The policies of the service ID. */
  function SubjectPolicies(policies: seq<Policy>, iam: nat): (r: seq<Policy>)
    ensures forall p :: p in r <==> p in policies && Grants(p, iam)
  {
    if policies == [] then []
    else
      assert policies == policies[..|policies| - 1] + [policies[|policies| - 1]];
      if Grants(policies[|policies| - 1], iam)
      then SubjectPolicies(policies[..|policies| - 1], iam) + [policies[|policies| - 1]]
      else SubjectPolicies(policies[..|policies| - 1], iam)
  }

  predicate IsAuthorization(p: Policy, guid: nat, o: Options) {
    && !p.access
    && (exists s :: s in p.subjects && s.service == COS && s.instance == guid)
    && (exists r :: r in p.scopes && r.service == o.rootKey.service && r.instance == o.rootKey.instance)
  }

  predicate IsBucketPolicy(p: Policy, guid: nat, role: nat, o: Options) {
    && (exists r :: r in p.scopes && r == Scope(COS, guid, BUCKET, o.bucket))
    && role in p.roles
  }

  predicate IsRootKeyPolicy(p: Policy, o: Options) {
    && (exists r :: r in p.scopes && r == Scope(o.rootKey.service, o.rootKey.instance, KEY, o.rootKey.id))
    && READER_ROLE in p.roles
  }

  /** When a policy counts as there: it has the role and the very bucket, the right to read and
      the very root key, or lets the COS instance reach the instance of the root key. */
  lemma {:induction false} PolicyCountsExactly(p: Policy, guid: nat, role: nat, o: Options)
    ensures IsBucketPolicy(p, guid, role, o) <==> role in p.roles && Scope(COS, guid, BUCKET, o.bucket) in p.scopes
    ensures IsRootKeyPolicy(p, o) <==>
            READER_ROLE in p.roles && Scope(o.rootKey.service, o.rootKey.instance, KEY, o.rootKey.id) in p.scopes
    ensures IsAuthorization(p, guid, o) ==>
              && !p.access
              && (exists s :: s in p.subjects && s.service == COS && s.instance == guid)
              && (exists r :: r in p.scopes && r.service == o.rootKey.service && r.instance == o.rootKey.instance)
  {
  }

  /** A policy of the service ID on the whole COS instance. */
  predicate InstanceWide(p: Policy, iam: nat, guid: nat) {
    && (exists s :: s in p.subjects && s.iam == iam)
    && |p.scopes| == 1
    && p.scopes[0].service == COS && p.scopes[0].instance == guid
    && p.scopes[0].rtype == "" && p.scopes[0].resource == ""
  }

  predicate NarrowScope(r: Scope, o: Options) {
    (r.service == COS && r.rtype == BUCKET) || (r.service == o.rootKey.service && r.rtype == KEY)
  }

  predicate NarrowPolicy(p: Policy, o: Options) {
    forall r :: r in p.scopes ==> NarrowScope(r, o)
  }

  /** The service ID reaches buckets and keys only. */
  predicate Narrow(policies: seq<Policy>, iam: nat, o: Options) {
    forall p :: p in policies && Grants(p, iam) ==> NarrowPolicy(p, o)
  }

  predicate IsBucketRule(r: Rule, o: Options) {
    exists s :: s in r.scopes && s.rtype == BUCKET && s.resource == o.bucket
  }

  // ---- the objects ----

  datatype Kind =
    | Instance | Authorization | TheBucket | Versioning | ObjectLock | CustomRole | ServiceId | BucketPolicy
    | RootKeyPolicy | HmacKey | KeyFile | Zone | BucketRule | BackupKey | SecretFile

  /** The account holds the object. */
  predicate Has(a: Account, o: Options, k: Kind) {
    match k
    case Instance => InstanceOf(a, o).Some?
    case Authorization =>
      InstanceOf(a, o).Some? && exists p :: p in a.policies && IsAuthorization(p, InstanceOf(a, o).value, o)
    case TheBucket => a.bucket.Some?
    case Versioning => a.bucket.Some? && a.bucket.value.versioning
    case ObjectLock => a.bucket.Some? && a.bucket.value.lock
    case CustomRole => FindRole(a.roles).Some?
    case ServiceId => SidOf(a, o).Some?
    case BucketPolicy =>
      && SidOf(a, o).Some? && InstanceOf(a, o).Some? && FindRole(a.roles).Some?
      && HasBucketPolicy(a.policies, SidOf(a, o).value, InstanceOf(a, o).value, FindRole(a.roles).value, o)
    case RootKeyPolicy => SidOf(a, o).Some? && HasRootKeyPolicy(a.policies, SidOf(a, o).value, o)
    case HmacKey => HasHmac(a.hmacs, o)
    case KeyFile => a.keyFile
    case Zone => o.zoneGiven || Find(a.zones, ZoneName(o)).Some?
    case BucketRule => exists r :: r in a.rules && IsBucketRule(r, o)
    case BackupKey => KeyCount(a.bucket) > 0
    case SecretFile => a.secretFile
  }

  predicate HasHmac(hmacs: seq<Hmac>, o: Options) {
    exists h :: h in hmacs && h.name == HmacName(o)
  }

  /** How many wrapped keys the bucket holds. */
  function KeyCount(b: Option<Bucket>): (n: nat) {
    if b.Some? then b.value.keys else 0
  }

  predicate HasBucketPolicy(policies: seq<Policy>, iam: nat, guid: nat, role: nat, o: Options) {
    exists p :: p in policies && Grants(p, iam) && IsBucketPolicy(p, guid, role, o)
  }

  predicate HasRootKeyPolicy(policies: seq<Policy>, iam: nat, o: Options) {
    exists p :: p in policies && Grants(p, iam) && IsRootKeyPolicy(p, o)
  }

  /** Nothing that the account holds is lost, and no policy of it is deleted. */
  ghost predicate Grown(a: Account, b: Account, o: Options) {
    && (forall k :: Has(a, o, k) ==> Has(b, o, k))
    && (forall p :: p in a.policies ==> p in b.policies)
  }

  lemma {:induction false} GrownTransitive(a: Account, b: Account, c: Account, o: Options)
    requires Grown(a, b, o) && Grown(b, c, o)
    ensures Grown(a, c, o)
  {
    forall k | Has(a, o, k) ensures Has(c, o, k) {
      assert Has(b, o, k);
    }
  }

  /** The wide policy is neither of the two policies that are needed. */
  lemma {:induction false} WideIsNotNeeded(p: Policy, iam: nat, guid: nat, role: nat, o: Options)
    requires InstanceWide(p, iam, guid) && p.access
    ensures !IsBucketPolicy(p, guid, role, o) && !IsRootKeyPolicy(p, o) && !IsAuthorization(p, guid, o)
    ensures !NarrowPolicy(p, o)
  {
    assert p.scopes[0] in p.scopes && |BUCKET| > 0 && |KEY| > 0;
    assert forall r :: r in p.scopes ==> r == p.scopes[0];
  }

  // ---- adding ----

  function MaxId(policies: seq<Policy>): (n: nat)
    ensures forall p :: p in policies ==> p.id <= n
  {
    if policies == [] then 0
    else
      var front, last := policies[..|policies| - 1], policies[|policies| - 1];
      assert policies == front + [last];
      var n := MaxId(front);
      if last.id > n then last.id else n
  }

  ghost predicate DistinctIds(policies: seq<Policy>) {
    forall i, j :: 0 <= i < j < |policies| ==> policies[i].id != policies[j].id
  }

  /** A new policy gets an ID of its own. */
  function WithPolicy(a: Account, p: Policy): (r: Account)
    ensures DistinctIds(a.policies) ==> DistinctIds(r.policies)
  {
    assert forall k :: 0 <= k < |a.policies| ==> a.policies[k] in a.policies;
    a.(policies := a.policies + [p.(id := MaxId(a.policies) + 1)])
  }

  lemma {:induction false} FindAppend(list: seq<Named>, n: Named, name: string)
    ensures Find(list + [n], name) == if n.name == name then Some(n.id) else Find(list, name)
  {
    assert (list + [n])[..|list|] == list;
  }

  lemma {:induction false} WithPolicyGrows(a: Account, p: Policy, o: Options)
    ensures Grown(a, WithPolicy(a, p), o)
  {
    var b := WithPolicy(a, p);
    forall k | Has(a, o, k) ensures Has(b, o, k) {
    }
  }

  // ---- deleting ----

  function Without(policies: seq<Policy>, id: nat): (r: seq<Policy>)
    ensures forall p :: p in r <==> p in policies && p.id != id
  {
    if policies == [] then []
    else
      var front, last := policies[..|policies| - 1], policies[|policies| - 1];
      assert policies == front + [last];
      if last.id == id then Without(front, id) else Without(front, id) + [last]
  }

  lemma {:induction false} WithoutDistinct(policies: seq<Policy>, id: nat)
    requires DistinctIds(policies)
    ensures DistinctIds(Without(policies, id))
  {
    if policies != [] {
      var front, last := policies[..|policies| - 1], policies[|policies| - 1];
      WithoutDistinct(front, id);
      var r := Without(front, id);
      forall k | 0 <= k < |r| ensures r[k].id != last.id {
        assert r[k] in front;
        var i :| 0 <= i < |front| && front[i] == r[k];
        assert policies[i] == r[k];
      }
    }
  }

  lemma {:induction false} SameId(policies: seq<Policy>, p: Policy, q: Policy)
    requires DistinctIds(policies) && p in policies && q in policies && p.id == q.id
    ensures p == q
  {
    var i :| 0 <= i < |policies| && policies[i] == p;
    var j :| 0 <= j < |policies| && policies[j] == q;
    assert i == j;
  }

  /** Deleting a wide policy of the service ID takes no object away. */
  lemma {:induction false} DeletingWideKeepsObjects(a: Account, p: Policy, iam: nat, guid: nat, o: Options)
    requires DistinctIds(a.policies) && p in a.policies && Grants(p, iam) && InstanceWide(p, iam, guid)
    requires SidOf(a, o) == Some(iam) && InstanceOf(a, o) == Some(guid)
    ensures forall k :: Has(a, o, k) ==> Has(a.(policies := Without(a.policies, p.id)), o, k)
  {
    var b := a.(policies := Without(a.policies, p.id));
    forall q | q in a.policies && q != p ensures q in b.policies {
      if q.id == p.id {
        SameId(a.policies, p, q);
      }
    }
    var role := if FindRole(a.roles).Some? then FindRole(a.roles).value else 0;
    WideIsNotNeeded(p, iam, guid, role, o);
    forall k | Has(a, o, k) ensures Has(b, o, k) {
      match k
      case Authorization => KeptAuthorization(a, b, p, guid, o);
      case BucketPolicy => KeptBucketPolicy(a, b, p, iam, guid, role, o);
      case RootKeyPolicy => KeptRootKeyPolicy(a, b, p, iam, o);
      case _ =>
    }
  }

  lemma {:induction false} KeptAuthorization(a: Account, b: Account, p: Policy, guid: nat, o: Options)
    requires forall q :: q in a.policies && q != p ==> q in b.policies
    requires !IsAuthorization(p, guid, o) && exists q :: q in a.policies && IsAuthorization(q, guid, o)
    ensures exists q :: q in b.policies && IsAuthorization(q, guid, o)
  {
    var q :| q in a.policies && IsAuthorization(q, guid, o);
    assert q in b.policies;
  }

  lemma {:induction false} KeptBucketPolicy(a: Account, b: Account, p: Policy, iam: nat, guid: nat, role: nat,
                                            o: Options)
    requires forall q :: q in a.policies && q != p ==> q in b.policies
    requires !IsBucketPolicy(p, guid, role, o) && HasBucketPolicy(a.policies, iam, guid, role, o)
    ensures HasBucketPolicy(b.policies, iam, guid, role, o)
  {
    var q :| q in a.policies && Grants(q, iam) && IsBucketPolicy(q, guid, role, o);
    assert q in b.policies;
  }

  lemma {:induction false} KeptRootKeyPolicy(a: Account, b: Account, p: Policy, iam: nat, o: Options)
    requires forall q :: q in a.policies && q != p ==> q in b.policies
    requires !IsRootKeyPolicy(p, o) && HasRootKeyPolicy(a.policies, iam, o)
    ensures HasRootKeyPolicy(b.policies, iam, o)
  {
    var q :| q in a.policies && Grants(q, iam) && IsRootKeyPolicy(q, o);
    assert q in b.policies;
  }

  // ---- what each make step adds ----

  function WithInstance(a: Account, o: Options, guid: nat): (r: Account) {
    a.(instances := a.instances + [Named(o.instance, guid)])
  }

  function AuthorizationFor(guid: nat, o: Options): (p: Policy) {
    Policy(0, false, [Subject(0, COS, guid)], [READER_ROLE], [Scope(o.rootKey.service, o.rootKey.instance, "", "")])
  }

  function BucketPolicyFor(iam: nat, guid: nat, role: nat, o: Options): (p: Policy) {
    Policy(0, true, [Subject(iam, "", 0)], [role], [Scope(COS, guid, BUCKET, o.bucket)])
  }

  function RootKeyPolicyFor(iam: nat, o: Options): (p: Policy) {
    Policy(0, true, [Subject(iam, "", 0)], [READER_ROLE],
           [Scope(o.rootKey.service, o.rootKey.instance, KEY, o.rootKey.id)])
  }

  lemma {:induction false} InstanceAdds(a: Account, o: Options, guid: nat)
    requires InstanceOf(a, o).None?
    ensures Grown(a, WithInstance(a, o, guid), o) && InstanceOf(WithInstance(a, o, guid), o) == Some(guid)
  {
    FindAppend(a.instances, Named(o.instance, guid), o.instance);
  }

  lemma {:induction false} AuthorizationAdds(a: Account, o: Options, guid: nat)
    requires InstanceOf(a, o) == Some(guid)
    ensures var b := WithPolicy(a, AuthorizationFor(guid, o));
            Grown(a, b, o) && Has(b, o, Authorization)
  {
    var p := AuthorizationFor(guid, o);
    var b := WithPolicy(a, p);
    WithPolicyGrows(a, p, o);
    var q := p.(id := MaxId(a.policies) + 1);
    assert q in b.policies;
    assert q.subjects[0] in q.subjects && q.scopes[0] in q.scopes;
    assert IsAuthorization(q, guid, o);
  }

  lemma {:induction false} BucketPolicyAdds(a: Account, o: Options, iam: nat, guid: nat, role: nat)
    requires SidOf(a, o) == Some(iam) && InstanceOf(a, o) == Some(guid) && FindRole(a.roles) == Some(role)
    ensures var b := WithPolicy(a, BucketPolicyFor(iam, guid, role, o));
            Grown(a, b, o) && Has(b, o, BucketPolicy)
  {
    var p := BucketPolicyFor(iam, guid, role, o);
    var b := WithPolicy(a, p);
    WithPolicyGrows(a, p, o);
    var q := p.(id := MaxId(a.policies) + 1);
    assert q in b.policies;
    assert q.subjects[0] in q.subjects && q.scopes[0] in q.scopes;
    assert Grants(q, iam) && IsBucketPolicy(q, guid, role, o);
  }

  lemma {:induction false} RootKeyPolicyAdds(a: Account, o: Options, iam: nat)
    requires SidOf(a, o) == Some(iam)
    ensures var b := WithPolicy(a, RootKeyPolicyFor(iam, o));
            Grown(a, b, o) && Has(b, o, RootKeyPolicy)
  {
    var p := RootKeyPolicyFor(iam, o);
    var b := WithPolicy(a, p);
    WithPolicyGrows(a, p, o);
    var q := p.(id := MaxId(a.policies) + 1);
    assert q in b.policies;
    assert q.subjects[0] in q.subjects && q.scopes[0] in q.scopes;
    assert Grants(q, iam) && IsRootKeyPolicy(q, o);
  }

  lemma {:induction false} RoleAdds(a: Account, o: Options, crn: nat)
    requires FindRole(a.roles).None?
    ensures var b := a.(roles := a.roles + [Role(ROLE_NAME, crn, true)]);
            Grown(a, b, o) && FindRole(b.roles) == Some(crn) && RolesFit(b.roles)
  {
    var r := Role(ROLE_NAME, crn, true);
    FindRoleTells(a.roles);
    assert (a.roles + [r])[..|a.roles|] == a.roles;
  }

  lemma {:induction false} SidAdds(a: Account, o: Options, iam: nat)
    requires SidOf(a, o).None?
    ensures var b := a.(sids := a.sids + [Named(SidName(o), iam)]);
            Grown(a, b, o) && SidOf(b, o) == Some(iam)
  {
    FindAppend(a.sids, Named(SidName(o), iam), SidName(o));
  }

  lemma {:induction false} ZoneAdds(a: Account, o: Options, id: nat)
    ensures var b := a.(zones := a.zones + [Named(ZoneName(o), id)]);
            Grown(a, b, o) && Has(b, o, Zone)
  {
    FindAppend(a.zones, Named(ZoneName(o), id), ZoneName(o));
  }

  lemma {:induction false} RuleAdds(a: Account, o: Options, guid: nat)
    ensures var b := a.(rules := a.rules + [Rule([Scope(COS, guid, BUCKET, o.bucket)])]);
            Grown(a, b, o) && Has(b, o, BucketRule)
  {
    var r := Rule([Scope(COS, guid, BUCKET, o.bucket)]);
    var b := a.(rules := a.rules + [r]);
    assert r.scopes[0] in r.scopes && r in b.rules && IsBucketRule(r, o);
  }

  lemma {:induction false} HmacAdds(a: Account, o: Options, shown: bool)
    ensures var b := a.(hmacs := a.hmacs + [Hmac(HmacName(o), shown)]);
            Grown(a, b, o) && Has(b, o, HmacKey)
  {
    var h := Hmac(HmacName(o), shown);
    var b := a.(hmacs := a.hmacs + [h]);
    assert h in b.hmacs;
  }
}
