/**
 The votes: transition requests, approvals and certificates, recovery approvals, and the two
 counting verifiers.

 An approval or certificate ID is the digest of the record, so the record itself stands for it.
 `UnknownId` covers every 32-byte value that is the digest of no certificate. A device approval
 carries the digest of its request, so it carries the request.
 */
module Voting {
  import opened Basics
  import opened Identity

  const MAX_TRANSITION_APPROVALS: nat := 2 * MAX_ACCOUNT_DEVICES

  datatype TransitionId = ZeroId | UnknownId(value: nat) | CertificateId(certificate: TransitionCertificate)

  datatype TransitionRequest = TransitionRequest(
    oldEpoch: nat, previous: TransitionId, oldPackage: Package, newPackage: Package,
    challenge: nat, issuedAt: nat, expiresAt: nat)

  datatype ApprovalId = NoApproval | ApprovalIdOf(approval: TransitionApproval)

  datatype TransitionApproval = TransitionApproval(
    request: TransitionRequest, approver: DeviceId, previous: ApprovalId, approvedAt: nat)

  datatype TransitionCertificate = TransitionCertificate(
    request: TransitionRequest, approvals: seq<TransitionApproval>)

  datatype RecoveryRequest = RecoveryRequest(package: Package, challenge: nat, issuedAt: nat, expiresAt: nat)

  datatype RecoveryApprovalId = NoRecoveryApproval | RecoveryApprovalIdOf(approval: RecoveryApproval)

  datatype RecoveryApproval = RecoveryApproval(
    request: RecoveryRequest, approver: DeviceId, previous: RecoveryApprovalId, approvedAt: nat)

  // ----- transition requests, approvals and certificates -----

  predicate ValidityBounded(issuedAt: nat, expiresAt: nat) {
    issuedAt + 1 <= expiresAt <= issuedAt + MAX_VALIDITY_SECONDS
  }

  predicate VerifyStatic(q: TransitionRequest) {
    && q.oldEpoch < U64_MAX
    && (q.oldEpoch == 0 <==> q.previous == ZeroId)
    && Successor(q.oldPackage, q.newPackage, true)
    && ValidityBounded(q.issuedAt, q.expiresAt)
  }

  predicate Current(q: TransitionRequest, now: nat) {
    VerifyStatic(q) && q.issuedAt <= now + CLOCK_SKEW_SECONDS && now <= q.expiresAt
  }

  /** `verify_for_request` on a transition approval. */
  predicate ApprovalFor(a: TransitionApproval, q: TransitionRequest) {
    && VerifyStatic(q)
    && a.request == q
    && q.issuedAt <= a.approvedAt + CLOCK_SKEW_SECONDS
    && a.approvedAt <= q.expiresAt
    && (ActiveVoter(q.oldPackage, a.approver) || ActiveVoter(q.newPackage, a.approver))
  }

  function ApproverIds(approvals: seq<TransitionApproval>): seq<DeviceId> {
    seq(|approvals|, i requires 0 <= i < |approvals| => approvals[i].approver)
  }

  predicate ApproversSorted(approvals: seq<TransitionApproval>) {
    forall i, j :: 0 <= i < j < |approvals| ==> approvals[i].approver < approvals[j].approver
  }

  /** The listed devices that are active voters of a package. */
  function Voters(p: Package, ids: seq<DeviceId>): set<DeviceId> {
    set d | d in ids && ActiveVoter(p, d)
  }

  /** Strict majorities of both rosters among distinct, matching approvals. */
  predicate JointMajority(q: TransitionRequest, approvals: seq<TransitionApproval>) {
    && |Voters(q.oldPackage, ApproverIds(approvals))| >= Required(|q.oldPackage.deviceList.devices|)
    && |Voters(q.newPackage, ApproverIds(approvals))| >= Required(|q.newPackage.deviceList.devices|)
  }

  /** `AccountRecoveryPolicyTransitionCertificate::verify`. */
  predicate CertificateValid(c: TransitionCertificate) {
    && VerifyStatic(c.request)
    && |c.approvals| <= MAX_TRANSITION_APPROVALS
    && ApproversSorted(c.approvals)
    && (forall a :: a in c.approvals ==> ApprovalFor(a, c.request))
    && JointMajority(c.request, c.approvals)
  }

  lemma VotersAreRosterDevices(p: Package, ids: seq<DeviceId>)
    ensures Voters(p, ids) <= Roster(p.deviceList)
  {
  }

  /** The approval behind a counted voter. */
  lemma VoterApproval(p: Package, approvals: seq<TransitionApproval>, d: DeviceId) returns (a: TransitionApproval)
    requires d in Voters(p, ApproverIds(approvals))
    ensures a in approvals && a.approver == d && ActiveVoter(p, d)
  {
    var i :| 0 <= i < |approvals| && ApproverIds(approvals)[i] == d;
    a := approvals[i];
  }

  /** Every valid certificate carries the approval of at least one old-roster voter. */
  lemma SomeOldVoter(c: TransitionCertificate) returns (a: TransitionApproval)
    requires CertificateValid(c)
    ensures a in c.approvals && a.request == c.request && ActiveVoter(c.request.oldPackage, a.approver)
  {
    hide VerifyStatic, ActiveVoter;
    var voters := Voters(c.request.oldPackage, ApproverIds(c.approvals));
    assert voters != {};
    var d :| d in voters;
    a := VoterApproval(c.request.oldPackage, c.approvals, d);
  }

  datatype Report = Report(oldObserved: nat, oldRequired: nat, newObserved: nat, newRequired: nat) {
    predicate JointMajoritySatisfied() {
      oldObserved >= oldRequired && newObserved >= newRequired
    }
  }

  lemma NoneYet(p: Package)
    ensures Voters(p, []) == {} && Elements<DeviceId>([]) == {}
  {
  }

  lemma OneMoreVoter(p: Package, ids: seq<DeviceId>, i: nat)
    requires i < |ids| && ids[i] !in Elements(ids[..i])
    ensures |Voters(p, ids[..i + 1])| == |Voters(p, ids[..i])| + if ActiveVoter(p, ids[i]) then 1 else 0
  {
    hide ActiveVoter;
    assert ids[..i + 1] == ids[..i] + [ids[i]];
    assert Voters(p, ids[..i + 1]) == Voters(p, ids[..i]) + if ActiveVoter(p, ids[i]) then {ids[i]} else {};
  }

  /** The counting loop: an overlap device counts in both rosters, a repeated approver is refused. */
  method VerifyTransition(q: TransitionRequest, approvals: seq<TransitionApproval>) returns (r: Option<Report>)
    ensures r.Some? <==>
            && VerifyStatic(q) && |approvals| <= MAX_TRANSITION_APPROVALS
            && (forall a :: a in approvals ==> ApprovalFor(a, q)) && Distinct(ApproverIds(approvals))
    ensures r.Some? ==> (r.value.JointMajoritySatisfied() <==> JointMajority(q, approvals))
    ensures r.Some? ==>
              && r.value.oldObserved == |Voters(q.oldPackage, ApproverIds(approvals))|
              && r.value.newObserved == |Voters(q.newPackage, ApproverIds(approvals))|
  {
    NoneYet(q.oldPackage);
    NoneYet(q.newPackage);
    hide VerifyStatic, ApprovalFor, ActiveVoter, Voters, Elements, Distinct;
    if !VerifyStatic(q) || |approvals| > MAX_TRANSITION_APPROVALS {
      return None;
    }
    ghost var ids := ApproverIds(approvals);
    var distinct: set<DeviceId> := {};
    var oldObserved, newObserved := 0, 0;
    for i := 0 to |approvals|
      invariant distinct == Elements(ids[..i]) && |distinct| == i
      invariant forall k :: 0 <= k < i ==> ApprovalFor(approvals[k], q)
      invariant oldObserved == |Voters(q.oldPackage, ids[..i])|
      invariant newObserved == |Voters(q.newPackage, ids[..i])|
    {
      var approval := approvals[i];
      if !ApprovalFor(approval, q) {
        return None;
      }
      NextElement(ids, i);
      if approval.approver in distinct {
        return None;
      }
      OneMoreVoter(q.oldPackage, ids, i);
      OneMoreVoter(q.newPackage, ids, i);
      distinct := distinct + {approval.approver};
      if ActiveVoter(q.oldPackage, approval.approver) {
        oldObserved := oldObserved + 1;
      }
      if ActiveVoter(q.newPackage, approval.approver) {
        newObserved := newObserved + 1;
      }
    }
    assert ids[..|approvals|] == ids;
    DistinctByCount(ids);
    r := Some(Report(oldObserved, Required(|q.oldPackage.deviceList.devices|),
                     newObserved, Required(|q.newPackage.deviceList.devices|)));
  }

  function InsertByApprover(a: TransitionApproval, s: seq<TransitionApproval>): (r: seq<TransitionApproval>)
    ensures multiset(r) == multiset(s) + multiset{a}
  {
    if s == [] then [a]
    else if a.approver <= s[0].approver then [a] + s
    else
      assert s == [s[0]] + s[1..];
      [s[0]] + InsertByApprover(a, s[1..])
  }

  /** `sort_by_key(approver_device_id)`. */
  function SortByApprover(s: seq<TransitionApproval>): (r: seq<TransitionApproval>)
    ensures multiset(r) == multiset(s)
  {
    if s == [] then []
    else
      assert s == [s[0]] + s[1..];
      InsertByApprover(s[0], SortByApprover(s[1..]))
  }

  lemma {:induction false} InsertKeepsOrder(a: TransitionApproval, s: seq<TransitionApproval>)
    requires ApproversSorted(s)
    requires forall x :: x in s ==> x.approver != a.approver
    ensures ApproversSorted(InsertByApprover(a, s))
  {
    if s != [] && a.approver > s[0].approver {
      InsertKeepsOrder(a, s[1..]);
      var rest := InsertByApprover(a, s[1..]);
      forall i | 0 <= i < |rest|
        ensures s[0].approver < rest[i].approver
      {
        assert rest[i] in multiset(rest);
        assert rest[i] == a || rest[i] in s[1..];
      }
      assert InsertByApprover(a, s) == [s[0]] + rest;
      hide InsertByApprover;
    }
  }

  lemma SortKeepsElements(s: seq<TransitionApproval>)
    ensures forall x :: x in SortByApprover(s) <==> x in s
  {
    forall x
      ensures x in SortByApprover(s) <==> x in s
    {
      assert x in SortByApprover(s) <==> x in multiset(SortByApprover(s));
    }
  }

  lemma FirstApproverDiffers(s: seq<TransitionApproval>)
    requires s != [] && Distinct(ApproverIds(s))
    ensures Distinct(ApproverIds(s[1..]))
    ensures forall x :: x in s[1..] ==> x.approver != s[0].approver
  {
    assert ApproverIds(s[1..]) == ApproverIds(s)[1..];
    forall x | x in s[1..]
      ensures x.approver != s[0].approver
    {
      var i :| 1 <= i < |s| && s[i] == x;
      assert ApproverIds(s)[0] != ApproverIds(s)[i];
    }
  }

  lemma {:induction false} SortedApprovals(s: seq<TransitionApproval>)
    requires Distinct(ApproverIds(s))
    ensures ApproversSorted(SortByApprover(s))
  {
    hide Distinct, ApproverIds;
    if s != [] {
      FirstApproverDiffers(s);
      SortedApprovals(s[1..]);
      SortKeepsElements(s[1..]);
      InsertKeepsOrder(s[0], SortByApprover(s[1..]));
    }
  }

  lemma SameVoters(p: Package, a: seq<TransitionApproval>, b: seq<TransitionApproval>)
    requires forall x :: x in a <==> x in b
    ensures Voters(p, ApproverIds(a)) == Voters(p, ApproverIds(b))
  {
    hide ActiveVoter;
    IdsWithin(a, b);
    IdsWithin(b, a);
    assert forall d :: d in ApproverIds(a) <==> d in Elements(ApproverIds(a));
    assert forall d :: d in ApproverIds(b) <==> d in Elements(ApproverIds(b));
  }

  lemma IdsWithin(a: seq<TransitionApproval>, b: seq<TransitionApproval>)
    requires forall x :: x in a ==> x in b
    ensures Elements(ApproverIds(a)) <= Elements(ApproverIds(b))
  {
    forall d | d in Elements(ApproverIds(a))
      ensures d in Elements(ApproverIds(b))
    {
      var i :| 0 <= i < |a| && ApproverIds(a)[i] == d;
      assert a[i] in b;
      var j :| 0 <= j < |b| && b[j] == a[i];
      assert ApproverIds(b)[j] == d;
    }
  }

  /** `certify_transition`: a certificate exists exactly for a current request with both strict majorities. */
  method Certify(q: TransitionRequest, approvals: seq<TransitionApproval>, now: nat)
    returns (c: Option<TransitionCertificate>)
    ensures c.Some? <==>
            && Current(q, now) && |approvals| <= MAX_TRANSITION_APPROVALS
            && (forall a :: a in approvals ==> ApprovalFor(a, q)) && Distinct(ApproverIds(approvals))
            && JointMajority(q, approvals)
    ensures c.Some? ==> c.value.request == q && CertificateValid(c.value)
    ensures c.Some? ==> multiset(c.value.approvals) == multiset(approvals)
  {
    hide ApprovalFor, Voters, ActiveVoter, Distinct, Successor;
    if !Current(q, now) {
      return None;
    }
    var report := VerifyTransition(q, approvals);
    if report.None? || !report.value.JointMajoritySatisfied() {
      return None;
    }
    var sorted := SortByApprover(approvals);
    SortedApprovals(approvals);
    SortKeepsElements(approvals);
    SameVoters(q.oldPackage, sorted, approvals);
    SameVoters(q.newPackage, sorted, approvals);
    assert |sorted| == |multiset(sorted)| == |approvals|;
    c := Some(TransitionCertificate(q, sorted));
  }

  /** A certificate is fixed by its request and the set of approvals: collection order leaves no trace. */
  lemma CertificateCanonical(c: TransitionCertificate, d: TransitionCertificate)
    requires CertificateValid(c) && CertificateValid(d)
    requires c.request == d.request
    requires forall a :: a in c.approvals <==> a in d.approvals
    ensures c == d
  {
    SortedSequencesEqual((a: TransitionApproval) => a.approver, c.approvals, d.approvals);
  }

  // ----- recovery requests, approvals and the freshness quorum -----

  predicate RecoveryCurrent(q: RecoveryRequest, now: nat) {
    && ValidPackage(q.package)
    && ValidityBounded(q.issuedAt, q.expiresAt)
    && q.issuedAt <= now + CLOCK_SKEW_SECONDS && now <= q.expiresAt
  }

  /** `verify_for_request` on a recovery approval. */
  predicate RecoveryApprovalFor(a: RecoveryApproval, q: RecoveryRequest, now: nat) {
    && RecoveryCurrent(q, now)
    && a.request == q
    && q.issuedAt <= a.approvedAt + CLOCK_SKEW_SECONDS
    && a.approvedAt <= q.expiresAt
    && a.approvedAt <= now + CLOCK_SKEW_SECONDS
    && ActiveVoter(q.package, a.approver)
  }

  function RecoveryIds(approvals: seq<RecoveryApproval>): seq<DeviceId> {
    seq(|approvals|, i requires 0 <= i < |approvals| => approvals[i].approver)
  }

  predicate AllFor(approvals: seq<RecoveryApproval>, q: RecoveryRequest, now: nat) {
    forall a :: a in approvals ==> RecoveryApprovalFor(a, q, now)
  }

  /** Distinct matching approvals from a strict majority of the candidate's own roster. */
  predicate RecoveryMajority(q: RecoveryRequest, approvals: seq<RecoveryApproval>, now: nat) {
    && RecoveryCurrent(q, now)
    && AllFor(approvals, q, now)
    && |Elements(RecoveryIds(approvals))| >= Required(|q.package.deviceList.devices|)
  }

  datatype Freshness = ArtifactIntegrityOnly | SingleCurrentDeviceObserved | CurrentDeviceMajorityObserved

  datatype QuorumReport = QuorumReport(claim: Freshness, observed: nat, required: nat)

  lemma NextApproval(approvals: seq<RecoveryApproval>, i: nat, q: RecoveryRequest, now: nat)
    requires i < |approvals|
    ensures AllFor(approvals[..i + 1], q, now) <==>
            AllFor(approvals[..i], q, now) && RecoveryApprovalFor(approvals[i], q, now)
    ensures AllFor(approvals, q, now) ==> AllFor(approvals[..i + 1], q, now)
    ensures i < |RecoveryIds(approvals)| && RecoveryIds(approvals)[i] == approvals[i].approver
  {
    hide RecoveryApprovalFor;
    assert approvals[..i + 1] == approvals[..i] + [approvals[i]];
  }

  lemma NoApprovals(approvals: seq<RecoveryApproval>, q: RecoveryRequest, now: nat)
    ensures AllFor(approvals[..0], q, now) && Elements(RecoveryIds(approvals)[..0]) == {}
    ensures |RecoveryIds(approvals)| == |approvals|
    ensures approvals[..|approvals|] == approvals && RecoveryIds(approvals)[..|approvals|] == RecoveryIds(approvals)
  {
  }

  /** The approvers, if every approval is for the request and none repeats. */
  method CollectApprovers(q: RecoveryRequest, approvals: seq<RecoveryApproval>, now: nat)
    returns (r: Option<set<DeviceId>>)
    ensures r.Some? <==> AllFor(approvals, q, now) && Distinct(RecoveryIds(approvals))
    ensures r.Some? ==> r.value == Elements(RecoveryIds(approvals)) && |r.value| == |approvals|
  {
    hide *;
    ghost var ids := RecoveryIds(approvals);
    NoApprovals(approvals, q, now);
    var approvers: set<DeviceId> := {};
    for i := 0 to |approvals|
      invariant approvers == Elements(ids[..i]) && |approvers| == i && AllFor(approvals[..i], q, now)
    {
      NextApproval(approvals, i, q, now);
      if !RecoveryApprovalFor(approvals[i], q, now) {
        return None;
      }
      NextElement(ids, i);
      if approvals[i].approver in approvers {
        return None;
      }
      approvers := approvers + {approvals[i].approver};
    }
    DistinctByCount(ids);
    r := Some(approvers);
  }

  /** `verify_account_root_recovery_quorum`. */
  method VerifyQuorum(q: RecoveryRequest, approvals: seq<RecoveryApproval>, now: nat) returns (r: Option<QuorumReport>)
    ensures r.Some? <==>
            && RecoveryCurrent(q, now) && |approvals| <= MAX_ACCOUNT_DEVICES
            && AllFor(approvals, q, now) && Distinct(RecoveryIds(approvals))
    ensures r.Some? ==>
              && (r.value.claim == CurrentDeviceMajorityObserved <==> RecoveryMajority(q, approvals, now))
              && (r.value.claim == SingleCurrentDeviceObserved <==>
                  |approvals| == 1 && !RecoveryMajority(q, approvals, now))
              && r.value.observed == |approvals|
  {
    hide RecoveryCurrent, RecoveryApprovalFor, Distinct, RecoveryIds;
    if !RecoveryCurrent(q, now) || |approvals| > MAX_ACCOUNT_DEVICES {
      return None;
    }
    var approvers := CollectApprovers(q, approvals, now);
    if approvers.None? {
      return None;
    }
    var observed := |approvers.value|;
    var required := Required(|q.package.deviceList.devices|);
    var claim :=
      if observed >= required then CurrentDeviceMajorityObserved
      else if observed == 1 then SingleCurrentDeviceObserved
      else ArtifactIntegrityOnly;
    r := Some(QuorumReport(claim, observed, required));
  }

  /** `verify_candidate_against_certificate`: the candidate keeps the certified roster and extends its package. */
  predicate ExtendsCertificate(candidate: Package, c: TransitionCertificate) {
    && CertificateValid(c)
    && candidate.deviceList == c.request.newPackage.deviceList
    && Successor(c.request.newPackage, candidate, false)
  }

  datatype VerifyOutput = VerifyOutput(majoritySatisfied: bool, crossRosterForkSafety: bool)

  /** `verify_request_with_policy_certificate`: the only place that reports cross-roster fork safety. */
  method VerifyWithPolicyCertificate(q: RecoveryRequest, approvals: seq<RecoveryApproval>, c: TransitionCertificate,
                                     requireMajority: bool, now: nat) returns (r: Option<VerifyOutput>)
    ensures r.Some? && r.value.crossRosterForkSafety ==>
              RecoveryMajority(q, approvals, now) && ExtendsCertificate(q.package, c)
    ensures r.Some? ==> (r.value.crossRosterForkSafety <==> r.value.majoritySatisfied)
    ensures r.Some? ==> (r.value.majoritySatisfied <==> RecoveryMajority(q, approvals, now))
    ensures r.Some? && requireMajority ==> r.value.majoritySatisfied
    ensures (&& ExtendsCertificate(q.package, c) && RecoveryMajority(q, approvals, now)
             && Distinct(RecoveryIds(approvals)) && |approvals| <= MAX_ACCOUNT_DEVICES) ==> r.Some?
  {
    var report := VerifyQuorum(q, approvals, now);
    if report.None? {
      return None;
    }
    var output := VerifyOutput(report.value.claim == CurrentDeviceMajorityObserved, false);
    if requireMajority && !output.majoritySatisfied {
      return None;
    }
    if !ExtendsCertificate(q.package, c) {
      return None;
    }
    r := Some(output.(crossRosterForkSafety := output.majoritySatisfied));
  }
}
