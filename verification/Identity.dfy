/**
 The account authority records that recovery voting compares, as `kilogram-identity` defines them.

 A digest stands for the value it digests: two records have the same digest exactly when they are
 the same record. A roster digest covers the whole signed device list, its authority snapshot
 included, so a "roster" here is a `DeviceList`. Root signatures are not modelled: any package that
 passes verification may turn up, so a Root that signs conflicting packages is allowed.
 */
module Identity {
  import opened Basics

  type AccountId = nat
  type DeviceId = nat
  type ConversationId = nat

  const MAX_ACCOUNT_DEVICES: nat := 32
  const MAX_MEMBERSHIPS: nat := 16 * 1024
  const CLOCK_SKEW_SECONDS: nat := 120
  const MAX_VALIDITY_SECONDS: nat := 1800
  const U64_MAX: nat := 0xFFFF_FFFF_FFFF_FFFF

  /** `messaging` says that both messaging capabilities are granted. */
  datatype DeviceCertificate = DeviceCertificate(
    account: AccountId, device: DeviceId, sequence: nat, messaging: bool, encryptionKey: nat)

  datatype Revocation = Revocation(account: AccountId, device: DeviceId, sequence: nat)

  datatype Authority = Authority(account: AccountId, revision: nat, revocations: seq<Revocation>)

  datatype DeviceList = DeviceList(authority: Authority, devices: seq<DeviceCertificate>)

  datatype Membership = Membership(
    conversation: ConversationId, owner: AccountId, revision: nat, members: set<AccountId>)

  datatype Package = Package(
    account: AccountId, authority: Authority, deviceList: DeviceList, memberships: seq<Membership>)

  // ----- validity of the signed records -----

  predicate RevocationsSorted(s: seq<Revocation>) {
    forall i, j :: 0 <= i < j < |s| ==> s[i].device < s[j].device
  }

  predicate CertificatesSorted(s: seq<DeviceCertificate>) {
    forall i, j :: 0 <= i < j < |s| ==> s[i].device < s[j].device
  }

  predicate MembershipsSorted(s: seq<Membership>) {
    forall i, j :: 0 <= i < j < |s| ==> s[i].conversation < s[j].conversation
  }

  predicate ValidAuthority(a: Authority) {
    && (forall r :: r in a.revocations ==> r.account == a.account && r.sequence < a.revision)
    && RevocationsSorted(a.revocations)
  }

  predicate Revoked(a: Authority, d: DeviceId) {
    exists r :: r in a.revocations && r.device == d
  }

  /** `verify_device_authorization_with_snapshot` for the messaging capabilities. */
  predicate Authorized(account: AccountId, c: DeviceCertificate, a: Authority) {
    && a.account == account
    && c.sequence < a.revision
    && c.account == account
    && c.messaging
    && !Revoked(a, c.device)
  }

  predicate ValidDeviceList(l: DeviceList) {
    && ValidAuthority(l.authority)
    && 0 < |l.devices| <= MAX_ACCOUNT_DEVICES
    && (forall c :: c in l.devices ==> Authorized(l.authority.account, c, l.authority))
    && CertificatesSorted(l.devices)
  }

  predicate ValidMembership(m: Membership, owner: AccountId) {
    m.owner == owner && m.revision >= 1 && m.owner in m.members
  }

  predicate ValidPackage(p: Package) {
    && ValidAuthority(p.authority) && p.authority.account == p.account
    && ValidDeviceList(p.deviceList) && p.deviceList.authority.account == p.account
    && p.deviceList.authority.revision == p.authority.revision
    && |p.memberships| <= MAX_MEMBERSHIPS
    && (forall m :: m in p.memberships ==> ValidMembership(m, p.account))
    && MembershipsSorted(p.memberships)
  }

  // ----- lookups -----

  function CertificateFor(devices: seq<DeviceCertificate>, d: DeviceId): (r: Option<DeviceCertificate>)
    ensures r.Some? ==> r.value in devices && r.value.device == d
    ensures r.None? ==> forall c :: c in devices ==> c.device != d
  {
    if devices == [] then None
    else if devices[0].device == d then Some(devices[0])
    else CertificateFor(devices[1..], d)
  }

  function FindMembership(ms: seq<Membership>, c: ConversationId): (r: Option<Membership>)
    ensures r.Some? ==> r.value in ms && r.value.conversation == c
    ensures r.None? ==> forall m :: m in ms ==> m.conversation != c
  {
    if ms == [] then None
    else if ms[0].conversation == c then Some(ms[0])
    else FindMembership(ms[1..], c)
  }

  /** The device identifiers of a roster. */
  function Roster(l: DeviceList): set<DeviceId> {
    set c | c in l.devices :: c.device
  }

  /** A sorted roster has as many voters as certificates. */
  lemma {:induction false} RosterSize(devices: seq<DeviceCertificate>)
    requires CertificatesSorted(devices)
    ensures |set c | c in devices :: c.device| == |devices|
  {
    var ids := seq(|devices|, i requires 0 <= i < |devices| => devices[i].device);
    DistinctByCount(ids);
    forall i | 0 <= i < |ids|
      ensures ids[i] in (set c | c in devices :: c.device)
    {
      assert devices[i] in devices;
    }
    forall i | 0 <= i < |devices|
      ensures devices[i].device in ids
    {
      assert ids[i] == devices[i].device;
    }
    assert (set c | c in devices :: c.device) == Elements(ids);
  }

  /** `is_active_voter`: a certificate for the device, authorised by the package's own snapshot. */
  predicate ActiveVoter(p: Package, d: DeviceId) {
    var c := CertificateFor(p.deviceList.devices, d);
    c.Some? && Authorized(p.account, c.value, p.authority)
  }

  /** `package_authorizes_certificate`: the device's own certificate, exactly, and authorised. */
  predicate Authorizes(p: Package, local: DeviceCertificate) {
    CertificateFor(p.deviceList.devices, local.device) == Some(local) && Authorized(p.account, local, p.authority)
  }

  // ----- one record succeeding another -----

  predicate MembershipExtends(before: Membership, after: Membership) {
    && before.revision <= after.revision
    && (before.revision == after.revision ==> before == after)
    && (before.revision < after.revision ==> before.members <= after.members)
  }

  /** `verify_recovery_package_successor`. */
  predicate Successor(before: Package, after: Package, requireRosterChange: bool) {
    && ValidPackage(before) && ValidPackage(after)
    && before.account == after.account
    && before.authority.revision <= after.authority.revision
    && (before.authority.revision == after.authority.revision ==> before.authority == after.authority)
    && (forall r :: r in before.authority.revocations ==> r in after.authority.revocations)
    && (forall m :: m in before.memberships ==>
          var found := FindMembership(after.memberships, m.conversation);
          found.Some? && MembershipExtends(m, found.value))
    && (forall c :: c in before.deviceList.devices ==>
          match CertificateFor(after.deviceList.devices, c.device)
          case Some(kept) => kept == c
          case None => Revoked(after.authority, c.device))
    && (requireRosterChange ==>
          before.deviceList != after.deviceList && before.authority.revision < after.authority.revision)
  }

  /** `verify_dominates_device_state`: the package is at or beyond what the device already holds. */
  predicate Dominates(p: Package, local: DeviceCertificate, authority: Authority,
                      memberships: map<ConversationId, Membership>) {
    && ValidPackage(p)
    && local.account == p.account
    && authority.account == p.account
    && Authorizes(p, local)
    && authority.revision <= p.authority.revision
    && (authority.revision == p.authority.revision ==> authority == p.authority)
    && (authority.revision < p.authority.revision ==>
          forall r :: r in authority.revocations ==> r in p.authority.revocations)
    && (forall c :: c in memberships && memberships[c].owner == p.account ==>
          var found := FindMembership(p.memberships, memberships[c].conversation);
          found.Some? && MembershipExtends(memberships[c], found.value))
  }

  // ----- the order that majorities are proved to respect -----

  /** `a` is not ahead of `b`, and at the same revision they are the same snapshot. */
  predicate AuthorityLe(a: Authority, b: Authority) {
    a.account == b.account && a.revision <= b.revision && (a.revision == b.revision ==> a == b)
  }

  predicate MembershipLe(a: Membership, b: Membership) {
    a.conversation == b.conversation && a.owner == b.owner && MembershipExtends(a, b)
  }

  /** `q` is at least `p` in authority and in every membership `p` carries, with no fork at equal revisions. */
  predicate PackageLe(p: Package, q: Package) {
    && p.account == q.account
    && AuthorityLe(p.authority, q.authority)
    && forall m :: m in p.memberships ==>
         var found := FindMembership(q.memberships, m.conversation);
         found.Some? && MembershipLe(m, found.value)
  }

  lemma MembershipLeTransitive(a: Membership, b: Membership, c: Membership)
    requires MembershipLe(a, b) && MembershipLe(b, c)
    ensures MembershipLe(a, c)
  {
  }

  /** Packages ordered both ways over one device list are the same package. */
  lemma {:induction false} PackageLeAntisymmetric(p: Package, q: Package)
    requires ValidPackage(p) && ValidPackage(q)
    requires PackageLe(p, q) && PackageLe(q, p)
    requires p.deviceList == q.deviceList
    ensures p == q
  {
    assert forall m :: m in p.memberships ==> m in q.memberships by {
      forall m | m in p.memberships
        ensures m in q.memberships
      {
        SameMembership(p, q, m);
      }
    }
    assert forall m :: m in q.memberships ==> m in p.memberships by {
      forall m | m in q.memberships
        ensures m in p.memberships
      {
        SameMembership(q, p, m);
      }
    }
    SortedSequencesEqual((m: Membership) => m.conversation, p.memberships, q.memberships);
  }

  lemma SameMembership(p: Package, q: Package, m: Membership)
    requires ValidPackage(p) && ValidPackage(q)
    requires PackageLe(p, q) && PackageLe(q, p)
    requires m in p.memberships
    ensures m in q.memberships
  {
    var n := FindMembership(q.memberships, m.conversation).value;
    var o := FindMembership(p.memberships, n.conversation).value;
    assert m == o;
  }
}
