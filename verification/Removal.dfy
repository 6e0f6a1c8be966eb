/**
 Removing one device: the exact-removal verifier, and the Root operation with its seven kinds of
 durable write, each of which may be the last before a crash.

 A witness is issued deterministically from its package, so the package stands for both.
 */
module Removal {
  import opened Basics
  import opened Identity
  import opened DeviceTrust

  // ----- the verifier -----

  /** `verify_exact_removal`. */
  predicate ExactRemoval(before: Package, after: Package, device: DeviceId, revocation: Revocation) {
    && Successor(before, after, true)
    && before.authority.revision < U64_MAX && after.authority.revision == before.authority.revision + 1
    && |after.deviceList.devices| + 1 == |before.deviceList.devices|
    && CertificateFor(after.deviceList.devices, device).None?
    && (forall c :: c in before.deviceList.devices && c.device != device ==>
          CertificateFor(after.deviceList.devices, c.device) == Some(c))
    && before.memberships == after.memberships
    && revocation == Revocation(before.account, device, before.authority.revision)
    && |after.authority.revocations| == |before.authority.revocations| + 1
    && revocation in after.authority.revocations
    && (forall r :: r in before.authority.revocations ==> r in after.authority.revocations)
  }

  /** The certificates of every device but one, in order. */
  function Others(devices: seq<DeviceCertificate>, device: DeviceId): (r: seq<DeviceCertificate>)
    ensures forall c :: c in r <==> c in devices && c.device != device
  {
    if devices == [] then []
    else if devices[0].device == device then Others(devices[1..], device)
    else [devices[0]] + Others(devices[1..], device)
  }

  lemma {:induction false} OthersSorted(devices: seq<DeviceCertificate>, device: DeviceId)
    requires CertificatesSorted(devices)
    ensures CertificatesSorted(Others(devices, device))
  {
    if devices != [] {
      OthersSorted(devices[1..], device);
      var rest := Others(devices[1..], device);
      forall c | c in rest
        ensures devices[0].device < c.device
      {
        assert c in devices[1..];
      }
    }
  }

  lemma {:induction false} OthersCount(devices: seq<DeviceCertificate>, device: DeviceId)
    requires CertificatesSorted(devices)
    ensures |Others(devices, device)| == |devices| - if CertificateFor(devices, device).Some? then 1 else 0
  {
    if devices != [] {
      OthersCount(devices[1..], device);
      if devices[0].device == device {
        assert forall c :: c in devices[1..] ==> c.device != device;
      }
    }
  }

  lemma {:induction false} FoundCertificate(devices: seq<DeviceCertificate>, c: DeviceCertificate)
    requires CertificatesSorted(devices) && c in devices
    ensures CertificateFor(devices, c.device) == Some(c)
  {
    if devices[0] != c {
      assert c in devices[1..];
      FoundCertificate(devices[1..], c);
      var i :| 1 <= i < |devices| && devices[i] == c;
      assert devices[0].device < devices[i].device;
    }
  }

  /** A sorted list has as many elements as places. */
  lemma CertificateCount(s: seq<DeviceCertificate>)
    requires CertificatesSorted(s)
    ensures |Elements(s)| == |s|
  {
    DistinctByCount(s);
  }

  lemma RevocationCount(s: seq<Revocation>)
    requires RevocationsSorted(s)
    ensures |Elements(s)| == |s|
  {
    DistinctByCount(s);
  }

  /** Counting: nothing but the removed device is missing, and nothing is added. */
  lemma DevicesExact(before: Package, after: Package, device: DeviceId, revocation: Revocation)
    requires ExactRemoval(before, after, device, revocation)
    ensures after.deviceList.devices == Others(before.deviceList.devices, device)
    ensures CertificateFor(before.deviceList.devices, device).Some?
  {
    var (earlier, later) := (before.deviceList.devices, after.deviceList.devices);
    var kept := Others(earlier, device);
    assert CertificatesSorted(earlier) && CertificatesSorted(later);
    OthersSorted(earlier, device);
    OthersCount(earlier, device);
    CertificateCount(kept);
    CertificateCount(later);
    assert Elements(kept) <= Elements(later);
    SubsetCardinality(Elements(kept), Elements(later));
    SameSizeSubset(Elements(kept), Elements(later));
    assert forall c :: c in kept <==> c in Elements(kept);
    assert forall c :: c in later <==> c in Elements(later);
    SortedSequencesEqual((c: DeviceCertificate) => c.device, kept, later);
  }

  /** Counting again: the revocations are the earlier ones plus exactly this one, which was not there. */
  lemma RevocationsExact(before: Package, after: Package, device: DeviceId, revocation: Revocation)
    requires ExactRemoval(before, after, device, revocation)
    ensures revocation !in before.authority.revocations
    ensures Elements(after.authority.revocations) == Elements(before.authority.revocations) + {revocation}
  {
    var (earlier, later) := (before.authority.revocations, after.authority.revocations);
    assert RevocationsSorted(earlier) && RevocationsSorted(later);
    assert forall r :: r in earlier ==> r.sequence < before.authority.revision;
    RevocationCount(earlier);
    RevocationCount(later);
    hide ExactRemoval, RevocationsSorted;
    assert Elements(earlier) + {revocation} <= Elements(later);
    SameSizeSubset(Elements(earlier) + {revocation}, Elements(later));
  }

  /** The later package is the earlier one without that device, and with exactly one more revocation. */
  predicate Removes(before: Package, after: Package, device: DeviceId, revocation: Revocation) {
    && before.authority.revision < U64_MAX && after.authority.revision == before.authority.revision + 1
    && CertificateFor(before.deviceList.devices, device).Some?
    && after.deviceList.devices == Others(before.deviceList.devices, device)
    && revocation == Revocation(before.account, device, before.authority.revision)
    && Elements(after.authority.revocations) == Elements(before.authority.revocations) + {revocation}
    && after.memberships == before.memberships
  }

  /**
   The verifier accepts exactly when the active list afterwards is the earlier list without that
   device, certificate for certificate, and the revocations are the earlier ones plus that one.
   */
  lemma ExactRemovalMeaning(before: Package, after: Package, device: DeviceId, revocation: Revocation)
    requires ValidPackage(before) && ValidPackage(after) && before.account == after.account
    ensures ExactRemoval(before, after, device, revocation) <==> Removes(before, after, device, revocation)
  {
    if ExactRemoval(before, after, device, revocation) {
      DevicesExact(before, after, device, revocation);
      RevocationsExact(before, after, device, revocation);
    } else if Removes(before, after, device, revocation) {
      RemovalAccepted(before, after, device, revocation);
    }
  }

  lemma RemovalAccepted(before: Package, after: Package, device: DeviceId, revocation: Revocation)
    requires ValidPackage(before) && ValidPackage(after) && before.account == after.account
    requires Removes(before, after, device, revocation)
    ensures ExactRemoval(before, after, device, revocation)
  {
    OthersCount(before.deviceList.devices, device);
    KeptCertificates(before, after, device);
    KeptMemberships(before, after);
    KeptRevocations(before, after, revocation);
    hide ValidAuthority, ValidDeviceList, MembershipsSorted, Others;
  }

  lemma KeptCertificates(before: Package, after: Package, device: DeviceId)
    requires ValidPackage(before) && after.deviceList.devices == Others(before.deviceList.devices, device)
    ensures CertificateFor(after.deviceList.devices, device).None?
    ensures forall c :: c in before.deviceList.devices && c.device != device ==>
              CertificateFor(after.deviceList.devices, c.device) == Some(c)
  {
    OthersSorted(before.deviceList.devices, device);
    forall c | c in before.deviceList.devices && c.device != device
      ensures CertificateFor(after.deviceList.devices, c.device) == Some(c)
    {
      FoundCertificate(after.deviceList.devices, c);
    }
  }

  lemma KeptMemberships(before: Package, after: Package)
    requires ValidPackage(before) && after.memberships == before.memberships
    ensures forall m :: m in before.memberships ==>
              FindMembership(after.memberships, m.conversation) == Some(m)
  {
    forall m | m in before.memberships
      ensures FindMembership(after.memberships, m.conversation) == Some(m)
    {
      FoundIsUnique(after.memberships, m);
    }
  }

  lemma KeptRevocations(before: Package, after: Package, revocation: Revocation)
    requires ValidPackage(before) && ValidPackage(after) && revocation.sequence == before.authority.revision
    requires Elements(after.authority.revocations) == Elements(before.authority.revocations) + {revocation}
    ensures |after.authority.revocations| == |before.authority.revocations| + 1
    ensures forall r :: r in before.authority.revocations ==> r in after.authority.revocations
    ensures revocation in after.authority.revocations
  {
    var (earlier, later) := (before.authority.revocations, after.authority.revocations);
    RevocationCount(earlier);
    RevocationCount(later);
    assert revocation !in Elements(earlier);
    assert forall r :: r in earlier ==> r in Elements(earlier);
    assert forall r :: r in Elements(later) ==> r in later;
  }

  /** The verifier's read-only loop over the earlier certificates. */
  method VerifyExactRemoval(before: Package, after: Package, device: DeviceId, revocation: Revocation)
    returns (ok: bool)
    ensures ok <==> ExactRemoval(before, after, device, revocation)
  {
    hide Successor;
    if !Successor(before, after, true)
       || before.authority.revision >= U64_MAX || after.authority.revision != before.authority.revision + 1
       || |after.deviceList.devices| + 1 != |before.deviceList.devices|
       || CertificateFor(after.deviceList.devices, device).Some? {
      return false;
    }
    for i := 0 to |before.deviceList.devices|
      invariant forall k :: 0 <= k < i && before.deviceList.devices[k].device != device ==>
                  CertificateFor(after.deviceList.devices, before.deviceList.devices[k].device) ==
                      Some(before.deviceList.devices[k])
    {
      var c := before.deviceList.devices[i];
      if c.device != device && CertificateFor(after.deviceList.devices, c.device) != Some(c) {
        return false;
      }
    }
    ok := && before.memberships == after.memberships
          && revocation == Revocation(before.account, device, before.authority.revision)
          && |after.authority.revocations| == |before.authority.revocations| + 1
          && revocation in after.authority.revocations
          && forall r :: r in before.authority.revocations ==> r in after.authority.revocations;
  }

  // ----- the Root -----

  /** The Root directory. `next` is `None` while the sequence file is truncated and unreadable. */
  datatype Root = Root(
    account: AccountId, next: Option<nat>, revocations: seq<Revocation>, list: Option<DeviceList>,
    memberships: seq<Membership>, checkpoint: Option<Package>)

  datatype Artifact = RevocationFile | DeviceListFile | AfterPackageFile | AfterWitnessFile

  datatype Content =
    | RevocationBytes(revocation: Revocation)
    | DeviceListBytes(list: DeviceList)
    | PackageBytes(package: Package)
    | WitnessBytes(package: Package)

  /** `authority_snapshot`. */
  function AuthorityOf(root: Root): Option<Authority> {
    if root.next.Some? && ValidAuthority(Authority(root.account, root.next.value, root.revocations))
    then Some(Authority(root.account, root.next.value, root.revocations)) else None
  }

  /** `export_recovery`: fails closed while the published list and the authority are at different revisions. */
  function Export(root: Root): Option<Package> {
    if AuthorityOf(root).None? || root.list.None? then None
    else
      var package := Package(root.account, AuthorityOf(root).value, root.list.value, root.memberships);
      if ValidPackage(package) then Some(package) else None
  }

  function FindRevocation(revocations: seq<Revocation>, device: DeviceId): (r: Option<Revocation>)
    ensures r.Some? ==> r.value in revocations && r.value.device == device
    ensures r.None? <==> forall x :: x in revocations ==> x.device != device
  {
    if revocations == [] then None
    else if revocations[0].device == device then Some(revocations[0])
    else FindRevocation(revocations[1..], device)
  }

  /** Revocation files are read back in device order. */
  function InsertRevocation(revocations: seq<Revocation>, r: Revocation): (s: seq<Revocation>)
    ensures forall x :: x in s <==> x in revocations || x == r
  {
    if revocations == [] then [r]
    else if r.device < revocations[0].device then [r] + revocations
    else [revocations[0]] + InsertRevocation(revocations[1..], r)
  }

  /** The listed certificates that no revocation names. */
  function ActiveDevices(devices: seq<DeviceCertificate>, revocations: seq<Revocation>): seq<DeviceCertificate> {
    if devices == [] then []
    else if FindRevocation(revocations, devices[0].device).Some? then ActiveDevices(devices[1..], revocations)
    else [devices[0]] + ActiveDevices(devices[1..], revocations)
  }

  // ----- how far an interrupted removal got -----

  datatype Phase = Untouched | Truncated | Allocated | RevocationWritten | Published(artifacts: nat) | Recorded

  function Progress(phase: Phase): nat {
    match phase
    case Untouched => 0
    case Truncated => 1
    case Allocated => 2
    case RevocationWritten => 3
    case Published(n) => 4 + (if n < 4 then n else 4)
    case Recorded => 9
  }

  /** The sequence number is spent but the revocation that spent it is not there. */
  predicate Gap(phase: Phase) {
    phase.Truncated? || phase.Allocated?
  }

  /** The write reached the disk, reported or not. */
  predicate Took(f: Fate) {
    f.Done? || f.Unreported?
  }

  /** How far truncating, numbering and revoking get, given the fates of those three writes. */
  function PhaseAfter(fates: seq<Fate>): Phase {
    var (first, second, third) := (FateAt(fates, 0), FateAt(fates, 1), FateAt(fates, 2));
    if !Took(first) then Untouched
    else if first != Done || !Took(second) then Truncated
    else if second != Done || !Took(third) then Allocated
    else RevocationWritten
  }

  /** How many of them are attempted. */
  function Spent(fates: seq<Fate>): nat {
    if FateAt(fates, 0) != Done then 1 else if FateAt(fates, 1) != Done then 2 else 3
  }

  function NewRevocation(start: Root, device: DeviceId): Revocation
    requires start.next.Some?
  {
    Revocation(start.account, device, start.next.value)
  }

  function NewAuthority(start: Root, device: DeviceId): Authority
    requires start.next.Some?
  {
    Authority(start.account, start.next.value + 1, InsertRevocation(start.revocations, NewRevocation(start, device)))
  }

  function NewList(start: Root, device: DeviceId): DeviceList
    requires start.next.Some? && start.list.Some?
  {
    DeviceList(NewAuthority(start, device), Others(start.list.value.devices, device))
  }

  function NewPackage(start: Root, device: DeviceId): Package
    requires start.next.Some? && start.list.Some?
  {
    Package(start.account, NewAuthority(start, device), NewList(start, device), start.memberships)
  }

  /** The Root after a removal that got this far, and no further. */
  function RootAt(start: Root, device: DeviceId, phase: Phase): Root
    requires start.next.Some? && start.list.Some?
  {
    var revoked := start.(next := Some(start.next.value + 1), revocations := NewAuthority(start, device).revocations);
    match phase
    case Untouched => start
    case Truncated => start.(next := None)
    case Allocated => start.(next := Some(start.next.value + 1))
    case RevocationWritten => revoked
    case Published(_) => revoked.(list := Some(NewList(start, device)))
    case Recorded => revoked.(list := Some(NewList(start, device)), checkpoint := Some(NewPackage(start, device)))
  }

  /** The four artifacts in the order they are published. */
  function ArtifactFiles(revocation: Revocation, after: Package): (r: seq<(Artifact, Content)>)
    ensures |r| == 4
  {
    [(RevocationFile, RevocationBytes(revocation)), (DeviceListFile, DeviceListBytes(after.deviceList)),
     (AfterPackageFile, PackageBytes(after)), (AfterWitnessFile, WitnessBytes(after))]
  }

  function Written(contents: seq<(Artifact, Content)>, n: nat): map<Artifact, Content>
    requires n <= |contents|
  {
    if n == 0 then map[] else Written(contents, n - 1)[contents[n - 1].0 := contents[n - 1].1]
  }

  function OutputsAt(start: Root, device: DeviceId, phase: Phase): map<Artifact, Content>
    requires start.next.Some? && start.list.Some?
  {
    var contents := ArtifactFiles(NewRevocation(start, device), NewPackage(start, device));
    match phase
    case Published(n) => Written(contents, if n < 4 then n else 4)
    case Recorded => Written(contents, 4)
    case _ => map[]
  }

  lemma WrittenHolds(revocation: Revocation, after: Package, n: nat, i: nat)
    requires n <= 4 && i < 4
    ensures var contents := ArtifactFiles(revocation, after);
            if i < n then contents[i].0 in Written(contents, n) && Written(contents, n)[contents[i].0] == contents[i].1
            else contents[i].0 !in Written(contents, n)
  {
    var contents := ArtifactFiles(revocation, after);
    if n > 0 {
      WrittenHolds(revocation, after, n - 1, i);
    }
  }

  /** The checkpoint matches the Root, the device is one of several active ones, and the list is current. */
  predicate Ready(start: Root, device: DeviceId, before: Package) {
    && Export(start) == Some(before)
    && start.list.value.authority == before.authority
    && before.authority.revision < U64_MAX
    && CertificateFor(before.deviceList.devices, device).Some? && |before.deviceList.devices| > 1
  }

  lemma {:induction false} InsertSorted(revocations: seq<Revocation>, r: Revocation)
    requires RevocationsSorted(revocations) && FindRevocation(revocations, r.device).None?
    ensures RevocationsSorted(InsertRevocation(revocations, r))
  {
    if revocations != [] && r.device >= revocations[0].device {
      InsertSorted(revocations[1..], r);
      var rest := InsertRevocation(revocations[1..], r);
      forall x | x in rest
        ensures revocations[0].device < x.device
      {
        assert x in revocations[1..] || x == r;
      }
    }
  }

  /** With nothing else revoked, the active devices are all the others. */
  lemma {:induction false} ActiveAreOthers(devices: seq<DeviceCertificate>, revocations: seq<Revocation>,
                                           device: DeviceId)
    requires forall c :: c in devices ==> (FindRevocation(revocations, c.device).Some? <==> c.device == device)
    ensures ActiveDevices(devices, revocations) == Others(devices, device)
  {
    if devices != [] {
      ActiveAreOthers(devices[1..], revocations, device);
    }
  }

  lemma ActiveAreAll(devices: seq<DeviceCertificate>, revocations: seq<Revocation>)
    requires forall c :: c in devices ==> FindRevocation(revocations, c.device).None?
    ensures ActiveDevices(devices, revocations) == devices
  {
  }

  lemma NotRevoked(start: Root, device: DeviceId, before: Package)
    requires Ready(start, device, before)
    ensures forall c :: c in before.deviceList.devices ==> FindRevocation(start.revocations, c.device).None?
    ensures FindRevocation(start.revocations, device).None?
  {
    hide ValidMembership, MembershipsSorted, Authorizes;
    forall c | c in before.deviceList.devices
      ensures FindRevocation(start.revocations, c.device).None?
    {
      assert Authorized(before.account, c, before.deviceList.authority);
    }
  }

  /** The refreshed list and the new authority export as the exact removal. */
  lemma NewPackageExact(start: Root, device: DeviceId, before: Package)
    requires Ready(start, device, before)
    ensures ValidAuthority(NewAuthority(start, device))
    ensures ValidPackage(NewPackage(start, device))
    ensures ExactRemoval(before, NewPackage(start, device), device, NewRevocation(start, device))
    ensures ActiveDevices(before.deviceList.devices, NewAuthority(start, device).revocations) ==
            NewList(start, device).devices
  {
    NewAuthorityValid(start, device, before);
    NewListValid(start, device, before);
    OthersRemain(start, device, before);
    ReadyMeans(start, device, before);
    assert ValidPackage(NewPackage(start, device)) by {
      hide Ready, ValidAuthority, ValidDeviceList, MembershipsSorted, Others, InsertRevocation;
    }
    NewRevocations(start, device);
    hide Ready, ValidPackage, ExactRemoval, Others, CertificateFor, ActiveDevices, InsertRevocation;
    RemovalAccepted(before, NewPackage(start, device), device, NewRevocation(start, device));
  }

  /** What the checkpoint says about the Root it was exported from. */
  lemma ReadyMeans(start: Root, device: DeviceId, before: Package)
    requires Ready(start, device, before)
    ensures start.next == Some(before.authority.revision) && start.list == Some(before.deviceList)
    ensures start.account == before.account && start.memberships == before.memberships
    ensures start.revocations == before.authority.revocations
    ensures ValidPackage(before) && before.authority.revision == before.deviceList.authority.revision
  {
    hide ValidAuthority, ValidDeviceList, MembershipsSorted, CertificateFor;
  }

  lemma NewRevocations(start: Root, device: DeviceId)
    requires start.next.Some?
    ensures Elements(NewAuthority(start, device).revocations) ==
            Elements(start.revocations) + {NewRevocation(start, device)}
  {
  }

  lemma OthersRemain(start: Root, device: DeviceId, before: Package)
    requires Ready(start, device, before)
    ensures ActiveDevices(before.deviceList.devices, NewAuthority(start, device).revocations) ==
            NewList(start, device).devices
  {
    NotRevoked(start, device, before);
    ReadyMeans(start, device, before);
    hide Ready, ValidPackage;
    var revocations := NewAuthority(start, device).revocations;
    assert NewRevocation(start, device) in revocations;
    forall c | c in before.deviceList.devices
      ensures FindRevocation(revocations, c.device).Some? <==> c.device == device
    {
    }
    ActiveAreOthers(before.deviceList.devices, revocations, device);
  }

  lemma NewAuthorityValid(start: Root, device: DeviceId, before: Package)
    requires Ready(start, device, before)
    ensures ValidAuthority(NewAuthority(start, device))
  {
    NotRevoked(start, device, before);
    hide ValidDeviceList, MembershipsSorted;
    InsertSorted(start.revocations, NewRevocation(start, device));
  }

  lemma NewListValid(start: Root, device: DeviceId, before: Package)
    requires Ready(start, device, before)
    ensures ValidDeviceList(NewList(start, device))
  {
    NotRevoked(start, device, before);
    NewAuthorityValid(start, device, before);
    OthersSorted(before.deviceList.devices, device);
    OthersCount(before.deviceList.devices, device);
    hide MembershipsSorted, CertificatesSorted, RevocationsSorted;
    forall c | c in NewList(start, device).devices
      ensures Authorized(start.account, c, NewAuthority(start, device))
    {
      assert c in before.deviceList.devices && c.device != device;
      assert Authorized(before.account, c, before.deviceList.authority);
      assert FindRevocation(start.revocations, c.device).None?;
    }
  }

  // ----- the operation -----

  class AccountRoot {
    var root: Root
    var outputs: map<Artifact, Content>
    var fates: seq<Fate>

    constructor (r: Root, fs: seq<Fate>)
      ensures root == r && outputs == map[] && fates == fs
    {
      root, outputs, fates := r, map[], fs;
    }

    method Attempt() returns (f: Fate)
      modifies this`fates
      ensures f == FateAt(old(fates), 0) && fates == Drop(old(fates), 1)
    {
      if fates == [] {
        return Done;
      }
      f, fates := fates[0], fates[1..];
    }

    method Put(next: Root) returns (ok: bool)
      modifies this`root, this`fates
      ensures root == if Took(FateAt(old(fates), 0)) then next else old(root)
      ensures (ok <==> FateAt(old(fates), 0) == Done) && fates == Drop(old(fates), 1)
    {
      var f := Attempt();
      if f.Done? || f.Unreported? {
        root := next;
      }
      ok := f.Done?;
    }

    /** `write_idempotent`: an existing file must hold exactly these bytes. */
    method WriteIdempotent(a: Artifact, c: Content) returns (ok: bool)
      modifies this`outputs, this`fates
      ensures outputs == old(outputs) || (a !in old(outputs) && outputs == old(outputs)[a := c])
      ensures ok ==> a in outputs && outputs[a] == c
      ensures old(fates) == [] ==> fates == [] && (ok <==> (a in old(outputs) ==> old(outputs)[a] == c))
    {
      if a in outputs {
        return outputs[a] == c;
      }
      var f := Attempt();
      if f.Done? || f.Unreported? {
        outputs := outputs[a := c];
      }
      ok := f.Done?;
    }

    /** The disk is where an interrupted removal at this phase leaves it. */
    ghost predicate At(start: Root, device: DeviceId, phase: Phase)
      reads this
    {
      && start.next.Some? && start.list.Some?
      && root == RootAt(start, device, phase) && outputs == OutputsAt(start, device, phase)
    }

    /** `allocate_authority_sequence` and the revocation file. */
    method Revoke(device: DeviceId, ghost start: Root, ghost before: Package) returns (ok: bool, ghost phase: Phase)
      requires root.next.Some?
      modifies this`root, this`fates
      ensures old(root) == start && Ready(start, device, before) ==>
                && root == RootAt(start, device, phase) && phase == PhaseAfter(old(fates))
                && (ok <==> Clean(old(fates), 3)) && fates == Drop(old(fates), Spent(old(fates)))
      ensures root == old(root).(next := root.next, revocations := root.revocations)
      ensures ok ==> root.next == Some(old(root.next).value + 1)
    {
      DropSome(fates, 1, 0);
      DropSome(fates, 1, 1);
      DropSome(fates, 2, 0);
      DropSome(fates, 2, 1);
      phase := Untouched;
      if root.next.value >= U64_MAX {
        return false, phase;
      }
      var sequence := root.next.value;
      ok := Put(root.(next := None));
      phase := if root.next.None? then Truncated else Untouched;
      if !ok {
        return;
      }
      ok := Put(root.(next := Some(sequence + 1)));
      phase := if root.next.None? then Truncated else Allocated;
      if !ok {
        return;
      }
      var revoked := root.(revocations := InsertRevocation(root.revocations,
                                                           Revocation(root.account, device, sequence)));
      ok := Put(revoked);
      phase := if root == revoked then RevocationWritten else Allocated;
    }

    /** `revoke_and_publish_device_list`. */
    method RevokeAndPublish(device: DeviceId, ghost start: Root, ghost before: Package, ghost phase: Phase)
      returns (r: Option<(Revocation, DeviceList)>, ghost reached: Phase)
      modifies this`root, this`fates
      ensures Ready(start, device, before) && old(At(start, device, phase)) && !Gap(phase) ==>
                && At(start, device, reached) && Progress(phase) <= Progress(reached)
                && (Progress(phase) >= 4 ==> reached == phase)
                && (r.Some? ==> Progress(reached) >= 4
                                && r.value == (NewRevocation(start, device), NewList(start, device)))
                && (old(fates) == [] ==> r.Some? && fates == [])
                && (phase == Untouched && Gap(PhaseAfter(old(fates))) ==>
                      r.None? && reached == PhaseAfter(old(fates)) && fates == Drop(old(fates), Spent(old(fates))))
                && (Gap(reached) ==> phase == Untouched && Gap(PhaseAfter(old(fates))))
      ensures root.account == old(root.account) && root.memberships == old(root.memberships)
      ensures FindRevocation(old(root.revocations), device).Some? ==> root.next == old(root.next)
    {
      reached := phase;
      ghost var onPath := Ready(start, device, before) && At(start, device, phase) && !Gap(phase);
      if onPath {
        PathFacts(start, device, before, phase);
      }
      NoFaults(fates);
      if start.next.Some? && start.list.Some? {
        UnmarkedOutputs(start, device, phase);
      }
      hide Ready, RootAt, OutputsAt, FindRevocation, MayRevoke, NewRevocation, NewList, FateAt, Clean, Drop, Spent,
           PhaseAfter;
      if MayRevoke(root, device) {
        MayRevokeMeans(root, device);
        var ok;
        ok, reached := Revoke(device, start, before);
        if !ok {
          return None, reached;
        }
      }
      r, reached := PublishRefreshed(device, start, before, reached);
    }

    /** The second half: the list that the revocations on disk call for. */
    method PublishRefreshed(device: DeviceId, ghost start: Root, ghost before: Package, ghost phase: Phase)
      returns (r: Option<(Revocation, DeviceList)>, ghost reached: Phase)
      modifies this`root, this`fates
      ensures Ready(start, device, before) && old(At(start, device, phase)) && Progress(phase) >= 3 ==>
                && At(start, device, reached) && Progress(phase) <= Progress(reached)
                && (Progress(phase) >= 4 ==> reached == phase)
                && (r.Some? ==> Progress(reached) >= 4
                                && r.value == (NewRevocation(start, device), NewList(start, device)))
                && (old(fates) == [] ==> r.Some? && fates == [])
      ensures root == old(root).(list := root.list)
    {
      reached := phase;
      ghost var onPath := Ready(start, device, before) && At(start, device, phase) && Progress(phase) >= 3;
      if onPath {
        PathFacts(start, device, before, phase);
      }
      hide Ready, RootAt, Refreshed, OutputsAt, FindRevocation, NewRevocation, NewList, MayRevoke;
      var refreshed := Refreshed(root, device);
      var revocation := FindRevocation(root.revocations, device);
      if refreshed.None? || revocation.None? {
        return None, reached;
      }
      if root.list != refreshed {
        var ok := Put(root.(list := refreshed));
        if root.list == refreshed && onPath {
          PublishedFromRevoked(start, device);
          reached := Published(0);
        }
        if !ok {
          return None, reached;
        }
      }
      r := Some((revocation.value, refreshed.value));
    }

    /** The four artifacts in order, and then the local checkpoint record. */
    method PublishArtifacts(revocation: Revocation, after: Package, ghost start: Root, ghost device: DeviceId,
                            ghost phase: Phase)
      returns (ok: bool, ghost reached: Phase)
      modifies this
      ensures old(Publishing(start, device, phase, revocation, after)) ==>
                && At(start, device, reached) && Progress(phase) <= Progress(reached)
                && (ok ==> reached == Recorded)
                && (old(fates) == [] ==> ok && fates == [])
    {
      reached := phase;
      ghost var onPath := Publishing(start, device, phase, revocation, after);
      hide Export, NewRevocation, NewPackage, ArtifactFiles;
      var contents := ArtifactFiles(revocation, after);
      for i := 0 to 4
        invariant onPath ==> Publishing(start, device, reached, revocation, after)
                             && Progress(phase) <= Progress(reached)
        invariant onPath ==> Progress(reached) >= 4 + i
        invariant onPath && old(fates) == [] ==> fates == []
        invariant root == old(root)
      {
        WrittenHolds(revocation, after, if Progress(reached) < 8 && reached.Published? then reached.artifacts
                     else 4, i);
        ok := WriteIdempotent(contents[i].0, contents[i].1);
        if reached == Published(i) && contents[i].0 in outputs {
          reached := Published(i + 1);
        }
        if !ok {
          return;
        }
      }
      if Export(root) != Some(after) {
        return false, reached;
      }
      ok := Put(root.(checkpoint := Some(after)));
      if root.checkpoint == Some(after) {
        reached := Recorded;
      }
    }

    ghost predicate Publishing(start: Root, device: DeviceId, phase: Phase, revocation: Revocation, after: Package)
      reads this
    {
      && At(start, device, phase) && Progress(phase) >= 4
      && revocation == NewRevocation(start, device) && after == NewPackage(start, device) && Export(root) == Some(after)
    }

    /**
     `remove_device`. `start` and `phase` say which interrupted removal, if any, this call resumes.
     On that path every call moves forward or stays, never leaves the path, and succeeds only at its end.
     */
    method RemoveDevice(device: DeviceId, before: Package, ghost start: Root, ghost phase: Phase)
      returns (ok: bool, ghost reached: Phase)
      modifies this
      ensures Ready(start, device, before) && old(At(start, device, phase)) ==>
                && At(start, device, reached) && Progress(phase) <= Progress(reached)
                && (ok ==> reached == Recorded)
                && (Gap(phase) ==> !ok && reached == phase)
                && (phase == Untouched && Gap(PhaseAfter(old(fates))) ==>
                      !ok && reached == PhaseAfter(old(fates)) && fates == Drop(old(fates), Spent(old(fates))))
                && (Gap(reached) <==> Gap(phase) || (phase == Untouched && Gap(PhaseAfter(old(fates)))))
                && (old(fates) == [] ==> fates == [] && (ok <==> !Gap(phase)))
      ensures FindRevocation(old(root.revocations), device).None? && Export(old(root)) != Some(before) ==>
                !ok && root == old(root) && outputs == old(outputs)
      ensures FindRevocation(old(root.revocations), device).Some?
              && old(root.next) != Some(before.authority.revision + 1) ==>
                !ok && outputs == old(outputs)
    {
      reached := phase;
      ok := false;
      ghost var onPath := Ready(start, device, before) && At(start, device, phase);
      if onPath {
        EntryFacts(start, device, before, phase);
      }
      hide Ready, Export, RootAt, OutputsAt, AuthorityOf, FindRevocation, CertificateFor, ExactRemoval, ValidPackage,
           NewPackage,
           NewRevocation, NewList;
      if !ValidPackage(before) || CertificateFor(before.deviceList.devices, device).None?
          || |before.deviceList.devices| <= 1
         || root.account != before.account || AuthorityOf(root).None? {
        return;
      }
      if FindRevocation(root.revocations, device).None? && (outputs != map[] || Export(root) != Some(before)) {
        return;
      }
      var result;
      result, reached := RevokeAndPublish(device, start, before, phase);
      if onPath {
        ExitFacts(start, device, before, reached);
      }
      var after := Export(root);
      if result.None? || after.None? {
        return;
      }
      ExportRevision(root, before, device, result.value.0);
      if !ExactRemoval(before, after.value, device, result.value.0) || after.value.deviceList != result.value.1 {
        return;
      }
      ok, reached := PublishArtifacts(result.value.0, after.value, start, device, reached);
    }

    /**
     Any number of calls, each cut short anywhere: the disk only ever moves along the one path, and a
     call that is not cut short finishes it, unless an earlier one was cut short in the gap.
     */
    method Retry(device: DeviceId, before: Package, attempts: nat, ghost start: Root, ghost phase: Phase)
      returns (ok: bool, ghost reached: Phase)
      requires Ready(start, device, before) && At(start, device, phase)
      modifies this
      ensures At(start, device, reached) && Progress(phase) <= Progress(reached)
      ensures ok ==> reached == Recorded
      ensures Gap(phase) ==> !ok && reached == phase
      ensures old(fates) == [] && attempts > 0 ==> (ok <==> !Gap(phase))
    {
      reached, ok := phase, false;
      for i := 0 to attempts
        invariant At(start, device, reached) && Progress(phase) <= Progress(reached)
        invariant ok ==> reached == Recorded
        invariant Gap(phase) ==> !ok && reached == phase
        invariant old(fates) == [] ==> fates == [] && (i > 0 ==> (ok <==> !Gap(phase))) && (i == 0 ==> reached == phase)
      {
        ok, reached := RemoveDevice(device, before, start, reached);
      }
    }
  }

  // ----- a stop in the gap -----

  const SMALL: Authority := Authority(0, 1, [])
  const PAIR: DeviceList := DeviceList(SMALL,
                                       [DeviceCertificate(0, 1, 0, true, 0), DeviceCertificate(0, 2, 0, true, 0)])
  const SMALL_ROOT: Root := Root(0, Some(1), [], Some(PAIR), [], None)
  const SMALL_PACKAGE: Package := Package(0, SMALL, PAIR, [])

  lemma SmallRootReady()
    ensures Ready(SMALL_ROOT, 1, SMALL_PACKAGE)
  {
    assert CertificateFor(PAIR.devices, 1) == Some(PAIR.devices[0]);
    assert ValidPackage(SMALL_PACKAGE);
  }

  /**
   A removal from a two-device account whose third write, the revocation, is lost. Nothing fails
   afterwards, and still no number of exact retries succeeds or moves the Root.
   */
  method StoppedInGap(attempts: nat) returns (first: bool, retried: bool, root: Root)
    ensures !first && !retried
    ensures root == SMALL_ROOT.(next := Some(2)) && Export(root) == None
  {
    SmallRootReady();
    var account := new AccountRoot(SMALL_ROOT, [Done, Done, Lost]);
    ghost var reached;
    hide Ready, ValidPackage;
    first, reached := account.RemoveDevice(1, SMALL_PACKAGE, SMALL_ROOT, Untouched);
    assert reached == Allocated && account.fates == [];
    retried, reached := account.Retry(1, SMALL_PACKAGE, attempts, SMALL_ROOT, Allocated);
    root := account.root;
    GapNotExported();
  }

  lemma GapNotExported()
    ensures RootAt(SMALL_ROOT, 1, Allocated) == SMALL_ROOT.(next := Some(2))
    ensures Export(SMALL_ROOT.(next := Some(2))) == None
  {
  }

  /** At every phase at most one sequence number is spent and at most one revocation, this one, is added. */
  lemma OneRevocation(start: Root, device: DeviceId, before: Package, phase: Phase)
    requires Ready(start, device, before)
    ensures var root := RootAt(start, device, phase);
            && Elements(root.revocations)
               == Elements(start.revocations) + (if Progress(phase) >= 3 then {NewRevocation(start, device)} else {})
            && (root.next.Some? ==> start.next.value <= root.next.value <= start.next.value + 1)
            && (root.next == Some(start.next.value) <==> phase == Untouched)
  {
  }

  /** What `remove_device` reads before it writes anything. */
  lemma EntryFacts(start: Root, device: DeviceId, before: Package, phase: Phase)
    requires Ready(start, device, before)
    ensures var root := RootAt(start, device, phase);
            && start.next.Some? && start.list.Some?
            && ValidPackage(before) && CertificateFor(before.deviceList.devices, device).Some?
               && |before.deviceList.devices| > 1
            && root.account == before.account
            && (phase == Truncated <==> AuthorityOf(root).None?)
            && (phase == Untouched ==> Export(root) == Some(before) && OutputsAt(start, device, phase) == map[])
            && (phase == Allocated ==> Export(root) != Some(before))
            && (FindRevocation(root.revocations, device).None? <==> Progress(phase) <= 2)
  {
    NotRevoked(start, device, before);
    NewAuthorityValid(start, device, before);
    FoundNew(start, device);
    hide ValidDeviceList, MembershipsSorted, NewList, FindRevocation, InsertRevocation;
  }

  /** What it reads once the refreshed list is published. */
  lemma ExitFacts(start: Root, device: DeviceId, before: Package, phase: Phase)
    requires Ready(start, device, before)
    ensures Progress(phase) >= 4 ==>
              && Export(RootAt(start, device, phase)) == Some(NewPackage(start, device))
              && ExactRemoval(before, NewPackage(start, device), device, NewRevocation(start, device))
              && NewPackage(start, device).deviceList == NewList(start, device)
  {
    NewPackageExact(start, device, before);
    ReadyMeans(start, device, before);
    hide Ready, ValidPackage, ValidAuthority, ExactRemoval, Others, InsertRevocation;
  }

  lemma ExportRevision(root: Root, before: Package, device: DeviceId, revocation: Revocation)
    requires Export(root).Some?
    ensures ExactRemoval(before, Export(root).value, device, revocation) ==>
            root.next == Some(before.authority.revision + 1)
  {
  }

  /** Not revoked yet, listed, and not the last active device. */
  predicate MayRevoke(root: Root, device: DeviceId) {
    && root.list.Some? && AuthorityOf(root).Some? && root.next.Some?
    && FindRevocation(root.revocations, device).None?
    && CertificateFor(root.list.value.devices, device).Some?
    && |ActiveDevices(root.list.value.devices, root.revocations)| > 1
  }

  /** The list a Root with this revocation on disk publishes: the current one, or a refreshed one. */
  function Refreshed(root: Root, device: DeviceId): Option<DeviceList> {
    if root.list.None? || AuthorityOf(root).None? then None
    else
      var (current, authority) := (root.list.value, AuthorityOf(root).value);
      var candidate := DeviceList(authority, ActiveDevices(current.devices, authority.revocations));
      if candidate.devices == [] then None
      else if current.authority.revision == authority.revision && CertificateFor(current.devices, device).None?
          then Some(current)
      else if !ValidDeviceList(candidate) || current.authority.revision > authority.revision then None
      else if current.authority.revision == authority.revision && current != candidate then None
      else Some(candidate)
  }

  lemma MayRevokeMeans(root: Root, device: DeviceId)
    requires MayRevoke(root, device)
    ensures root.next.Some? && FindRevocation(root.revocations, device).None?
  {
  }

  lemma NoFaults(fates: seq<Fate>)
    ensures fates == [] ==> PhaseAfter(fates) == RevocationWritten && Clean(fates, 3) && Drop(fates, Spent(fates)) == []
    ensures Clean(fates, 3) ==> PhaseAfter(fates) == RevocationWritten
  {
  }

  /** Nothing is published before the list is. */
  lemma UnmarkedOutputs(start: Root, device: DeviceId, phase: Phase)
    requires start.next.Some? && start.list.Some?
    ensures Progress(phase) <= 3 ==> OutputsAt(start, device, phase) == map[]
    ensures OutputsAt(start, device, Truncated) == OutputsAt(start, device, Allocated) == map[]
    ensures OutputsAt(start, device, RevocationWritten) == OutputsAt(start, device, Untouched) == map[]
  {
  }

  lemma PublishedFromRevoked(start: Root, device: DeviceId)
    requires start.next.Some? && start.list.Some?
    ensures RootAt(start, device, Published(0)) ==
            RootAt(start, device, RevocationWritten).(list := Some(NewList(start, device)))
    ensures OutputsAt(start, device, Published(0)) == OutputsAt(start, device, RevocationWritten)
  {
  }

  /** What the operation finds on the path. */
  lemma PathFacts(start: Root, device: DeviceId, before: Package, phase: Phase)
    requires Ready(start, device, before) && !Gap(phase)
    ensures var root := RootAt(start, device, phase);
            && root.next.Some?
            && (MayRevoke(root, device) <==> phase == Untouched)
            && (phase == Untouched ==> root == start)
            && (phase != Untouched ==>
                  && FindRevocation(root.revocations, device) == Some(NewRevocation(start, device))
                  && Refreshed(root, device) == Some(NewList(start, device)))
            && (Progress(phase) >= 4 ==> root.list == Some(NewList(start, device)))
  {
    NewPackageExact(start, device, before);
    NotRevoked(start, device, before);
    if phase == Untouched {
      ActiveAreAll(before.deviceList.devices, start.revocations);
    } else {
      FoundNew(start, device);
      NewListValid(start, device, before);
      assert CertificateFor(NewList(start, device).devices, device).None?;
      hide ValidPackage, ExactRemoval, Others, ValidAuthority, CertificatesSorted;
      if phase == RevocationWritten {
        RefreshedAfterRevoking(start, device, before);
      } else {
        RefreshedAfterPublishing(start, device, phase);
      }
    }
  }

  lemma RefreshedAfterRevoking(start: Root, device: DeviceId, before: Package)
    requires Ready(start, device, before)
    ensures Refreshed(RootAt(start, device, RevocationWritten), device) == Some(NewList(start, device))
  {
    NewAuthorityValid(start, device, before);
    NewListValid(start, device, before);
    OthersRemain(start, device, before);
    ReadyMeans(start, device, before);
    assert |NewList(start, device).devices| > 0;
    hide Ready, ValidPackage, Others, ValidAuthority, ValidDeviceList, CertificateFor, ActiveDevices, InsertRevocation;
  }

  lemma RefreshedAfterPublishing(start: Root, device: DeviceId, phase: Phase)
    requires start.next.Some? && start.list.Some? && Progress(phase) >= 4
    requires ValidAuthority(NewAuthority(start, device)) && ValidDeviceList(NewList(start, device))
    ensures Refreshed(RootAt(start, device, phase), device) == Some(NewList(start, device))
  {
    var list := NewList(start, device);
    forall c | c in list.devices
      ensures FindRevocation(list.authority.revocations, c.device).None?
    {
      assert Authorized(list.authority.account, c, list.authority);
    }
    ActiveAreAll(list.devices, list.authority.revocations);
    hide ValidAuthority, Others, InsertRevocation, ActiveDevices, FindRevocation;
  }

  lemma FoundNew(start: Root, device: DeviceId)
    requires start.next.Some? && FindRevocation(start.revocations, device).None?
    ensures FindRevocation(NewAuthority(start, device).revocations, device) == Some(NewRevocation(start, device))
  {
    assert NewRevocation(start, device) in NewAuthority(start, device).revocations;
  }
}
