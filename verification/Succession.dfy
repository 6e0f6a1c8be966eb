/**
 How a certified roster change relates to checkpoints approved over the roster it replaces: a checkpoint
 that reached an old-roster majority is never ahead of the certified new package, as long as one device
 of both majorities stays in the roster.
 */
module Succession {
  import opened Basics
  import opened Identity
  import opened Voting
  import opened DeviceTrust
  import opened Chain
  import opened Network
  import opened Agreement
  import opened Freshness

  /** The voter remains an active voter of the roster it voted for. */
  predicate Stays(v: TransitionApproval) {
    ActiveVoter(v.request.newPackage, v.approver)
  }

  /** The voter's device holds everything the new package carries. */
  predicate VoteCovered(v: TransitionApproval, devices: map<DeviceId, Trust>) {
    Stays(v) ==> v.approver in devices && Covers(devices[v.approver], v.request.newPackage)
  }

  ghost predicate VotesCovered(s: Network) {
    forall v :: v in s.heads ==> VoteCovered(v, s.devices)
  }

  /** A device's checkpoint approval is below the package it voted for, or is at that package's revision or later. */
  predicate Ranked(v: TransitionApproval, a: RecoveryApproval) {
    v.approver == a.approver && Stays(v) ==>
      || PackageLe(a.request.package, v.request.newPackage)
      || v.request.newPackage.authority.revision <= a.request.package.authority.revision
  }

  ghost predicate AllRanked(heads: set<TransitionApproval>, recoveryHeads: set<RecoveryApproval>) {
    forall v, a :: v in heads && a in recoveryHeads ==> Ranked(v, a)
  }

  ghost predicate SuccessionInvariant(s: Network) {
    VotesCovered(s) && AllRanked(s.heads, s.recoveryHeads)
  }

  // ----- one operation -----

  /** A voter the new package counts voted with, and adopted, the new package. */
  lemma NewVoterIsExact(t: Trust, q: TransitionRequest)
    requires VerifyStatic(q) && ActiveVoter(q.newPackage, t.certificate.device)
    requires Authorizes(q.oldPackage, t.certificate) || Authorizes(q.newPackage, t.certificate)
    ensures VotingPackage(t, q) == q.newPackage
  {
    hide ValidPackage, Revoked, MembershipExtends;
    if Authorizes(q.oldPackage, t.certificate) {
      assert t.certificate in q.oldPackage.deviceList.devices;
    }
  }

  lemma VoteCovers(t: Trust, q: TransitionRequest, now: nat)
    requires ApproveTransition(t, q, now).Approved? && ActiveVoter(q.newPackage, t.certificate.device)
    ensures !ApproveTransition(t, q, now).reused ==> Covers(ApproveTransition(t, q, now).trust, q.newPackage)
    ensures Dominates(q.newPackage, t.certificate, t.authority, t.memberships)
  {
    NewVoterIsExact(t, q);
    hide AnchorAccepted, ApprovalFor, AuthorityInstalls, Overlay, Covers, Authorizes, ActiveVoter, VerifyStatic;
    if !ApproveTransition(t, q, now).reused {
      StageCovers(t, q.newPackage);
      CoverageOfMarks(Stage(t, q.newPackage).value, ApproveTransition(t, q, now).trust, q.newPackage);
    }
  }

  // ----- every step keeps the invariant -----

  /** One device changes, losing no coverage, and no approval is added. */
  lemma CoverageStep(s: Network, s': Network, d: DeviceId, u: Trust)
    requires VotesCovered(s) && d in s.devices && forall x :: Covers(s.devices[d], x) ==> Covers(u, x)
    requires s'.devices == s.devices[d := u] && s'.heads == s.heads
    ensures VotesCovered(s')
  {
    hide Covers, ActiveVoter;
    forall v | v in s'.heads
      ensures VoteCovered(v, s'.devices)
    {
      assert VoteCovered(v, s.devices);
    }
  }

  lemma EnrollSuccession(s: Network, s': Network, d: DeviceId, t: Trust)
    requires TransitionInvariant(s) && SuccessionInvariant(s) && Next(s, Enroll(d, t), s')
    ensures SuccessionInvariant(s')
  {
    assert forall v :: v in s.heads ==> Highest(v, s.devices);
    hide TransitionInvariant, Covers, ActiveVoter, PackageLe, FreshTrust;
    forall v | v in s'.heads
      ensures VoteCovered(v, s'.devices)
    {
      assert VoteCovered(v, s.devices);
    }
    forall v, a | v in s'.heads && a in s'.recoveryHeads
      ensures Ranked(v, a)
    {
      NewcomerRanked(s, d, t, v, a);
    }
  }

  lemma NewcomerRanked(s: Network, d: DeviceId, t: Trust, v: TransitionApproval, a: RecoveryApproval)
    requires AllRanked(s.heads, s.recoveryHeads) && v in s.heads && a in s.recoveryHeads + HeadOf(t)
    requires d !in s.devices && FreshTrust(t, d) && Highest(v, s.devices)
    ensures Ranked(v, a)
  {
    hide ActiveVoter, PackageLe, Covers, ValidPackage;
  }

  lemma AdvanceSuccession(s: Network, s': Network, d: DeviceId, authority: Authority,
                          memberships: map<ConversationId, Membership>)
    requires SuccessionInvariant(s) && Next(s, Advance(d, authority, memberships), s')
    ensures SuccessionInvariant(s')
  {
    var t := s.devices[d];
    hide Covers, Advances, AllRanked;
    forall x | Covers(t, x)
      ensures Covers(t.(authority := authority, memberships := memberships), x)
    {
      AdvanceKeepsCoverage(t, authority, memberships, x);
    }
    CoverageStep(s, s', d, t.(authority := authority, memberships := memberships));
  }

  lemma AdoptSuccession(s: Network, s': Network, d: DeviceId, c: TransitionCertificate)
    requires SuccessionInvariant(s) && Next(s, Adopt(d, c), s')
    ensures SuccessionInvariant(s')
  {
    var t := s.devices[d];
    hide Covers, Install, AllRanked, CertificateValid;
    forall x | Covers(t, x)
      ensures Covers(Install(t, c).value, x)
    {
      InstallKeepsCoverage(t, c, x);
    }
    CoverageStep(s, s', d, Install(t, c).value);
  }

  lemma VoteRanked(s: Network, d: DeviceId, q: TransitionRequest, now: nat, a: RecoveryApproval)
    requires Placed(s) && AllStanding(s) && d in s.devices && ApproveTransition(s.devices[d], q, now).Approved?
    requires a in s.recoveryHeads
    ensures Ranked(ApproveTransition(s.devices[d], q, now).approval, a)
  {
    var t := s.devices[d];
    assert t.certificate.device == d && Filed(t.memberships);
    assert Standing(a, s.devices);
    hide ApproveTransition, ActiveVoter, Dominates, Covers, PackageLe, ValidPackage, Filed;
    VoteEffect(t, q, now);
    if a.approver == d && ActiveVoter(q.newPackage, d) {
      VoteCovers(t, q, now);
      DominatesAccount(q.newPackage, t);
      CoveredBelow(t, a.request.package, q.newPackage);
    }
  }

  lemma DominatesAccount(p: Package, t: Trust)
    requires Dominates(p, t.certificate, t.authority, t.memberships)
    ensures p.account == t.certificate.account && t.authority.revision <= p.authority.revision
  {
  }

  lemma VoteStaysCovered(s: Network, s': Network, d: DeviceId, q: TransitionRequest, now: nat, v: TransitionApproval)
    requires VotesCovered(s) && d in s.devices && ApproveTransition(s.devices[d], q, now).Approved?
    requires s.devices[d].certificate.device == d
    requires ApproveTransition(s.devices[d], q, now).reused ==>
             ApproveTransition(s.devices[d], q, now).approval in s.heads
    requires s'.devices == s.devices[d := ApproveTransition(s.devices[d], q, now).trust]
    requires v in s.heads || v == ApproveTransition(s.devices[d], q, now).approval
    ensures VoteCovered(v, s'.devices)
  {
    var t := s.devices[d];
    hide ApproveTransition, Covers, ActiveVoter;
    VoteEffect(t, q, now);
    if v in s.heads {
      assert VoteCovered(v, s.devices);
      if v.approver == d && Stays(v) {
        VoteKeepsCoverage(t, q, now, v.request.newPackage);
      }
    } else if Stays(v) {
      VoteCovers(t, q, now);
    }
  }

  lemma VoteRanksAll(s: Network, d: DeviceId, q: TransitionRequest, now: nat)
    requires Placed(s) && AllStanding(s) && d in s.devices && ApproveTransition(s.devices[d], q, now).Approved?
    requires AllRanked(s.heads, s.recoveryHeads)
    ensures AllRanked(s.heads + {ApproveTransition(s.devices[d], q, now).approval}, s.recoveryHeads)
  {
    hide Placed, AllStanding, ApproveTransition, Ranked;
    forall a | a in s.recoveryHeads
      ensures Ranked(ApproveTransition(s.devices[d], q, now).approval, a)
    {
      VoteRanked(s, d, q, now, a);
    }
  }

  lemma VoteSuccession(s: Network, s': Network, d: DeviceId, q: TransitionRequest, now: nat, publish: bool)
    requires Placed(s) && HeadsRecorded(s) && AllStanding(s) && SuccessionInvariant(s)
             && Next(s, Vote(d, q, now, publish), s')
    ensures SuccessionInvariant(s')
  {
    var t := s.devices[d];
    assert t.certificate.device == d && (t.transitionHead.Some? ==> t.transitionHead.value in s.heads);
    hide AllStanding, Placed, HeadsRecorded, ApproveTransition, VoteCovered, AllRanked, Filed;
    VoteEffect(t, q, now);
    VoteRanksAll(s, d, q, now);
    forall v | v in s'.heads
      ensures VoteCovered(v, s'.devices)
    {
      VoteStaysCovered(s, s', d, q, now, v);
    }
  }

  lemma ConfirmSuccession(s: Network, s': Network, d: DeviceId, q: RecoveryRequest, now: nat, publish: bool)
    requires Placed(s) && RecoveryInvariant(s) && SuccessionInvariant(s) && Next(s, Confirm(d, q, now, publish), s')
    ensures SuccessionInvariant(s')
  {
    var t := s.devices[d];
    var r := ApproveRecovery(t, q, now);
    assert t.certificate.device == d && (t.recoveryHead.Some? ==> t.recoveryHead.value in s.recoveryHeads);
    hide RecoveryInvariant, Placed, ApproveRecovery, Covers, ActiveVoter, PackageLe, Dominates, HeadAdmits,
         PolicyAdmits, ValidPackage;
    ConfirmEffect(t, q, now);
    forall x | Covers(t, x)
      ensures Covers(r.trust, x)
    {
      ConfirmKeepsCoverage(t, q, now, x);
    }
    CoverageStep(s, s', d, r.trust);
    forall v, a | v in s'.heads && a in s'.recoveryHeads
      ensures Ranked(v, a)
    {
      if a !in s.recoveryHeads && v.approver == d && Stays(v) {
        assert VoteCovered(v, s.devices);
        DominatesAccount(q.package, t);
        CoveredRevision(t, v.request.newPackage);
      }
    }
  }

  lemma CoveredRevision(t: Trust, p: Package)
    requires Covers(t, p)
    ensures p.authority.revision <= t.authority.revision
  {
  }

  lemma StepKeepsSuccession(s: Network, step: Step, s': Network)
    requires TransitionInvariant(s) && RecoveryInvariant(s) && SuccessionInvariant(s) && Next(s, step, s')
    ensures SuccessionInvariant(s')
  {
    assert Placed(s) && AllStanding(s) && HeadsRecorded(s);
    hide TransitionInvariant, RecoveryInvariant, SuccessionInvariant, Next, Placed, AllStanding, HeadsRecorded;
    match step
    case Enroll(d, t) => EnrollSuccession(s, s', d, t);
    case Advance(d, authority, memberships) => AdvanceSuccession(s, s', d, authority, memberships);
    case Vote(d, q, now, publish) => VoteSuccession(s, s', d, q, now, publish);
    case Adopt(d, c) => AdoptSuccession(s, s', d, c);
    case Confirm(d, q, now, publish) => ConfirmSuccession(s, s', d, q, now, publish);
  }

  lemma EmptySuccession()
    ensures SuccessionInvariant(EMPTY)
  {
  }

  lemma {:induction false} RunKeepsSuccession(trace: seq<Network>, k: nat)
    requires Run(trace) && k < |trace|
    ensures SuccessionInvariant(trace[k])
    decreases k
  {
    EmptySuccession();
    hide TransitionInvariant, RecoveryInvariant, SuccessionInvariant, Next;
    if k > 0 {
      RunKeepsSuccession(trace, k - 1);
      RunKeepsInvariant(trace, k - 1);
      RunKeepsRecovery(trace, k - 1);
      assert Steps(trace[k - 1], trace[k - 1 + 1]);
      var step :| Next(trace[k - 1], step, trace[k]);
      StepKeepsSuccession(trace[k - 1], step, trace[k]);
    }
  }

  // ----- results -----

  /**
   A checkpoint with a majority of the old roster is at most the certified new package, whenever a
   device that approved both stays an active voter: the transition cannot roll that checkpoint back.
   */
  lemma OldMajoritySuperseded(trace: seq<Network>, k: nat, c: TransitionCertificate,
                              q: RecoveryRequest, qs: seq<RecoveryApproval>, now: nat, d: DeviceId)
    requires Run(trace) && k < |trace|
    requires Certified(c, trace[k].published) && MajorityPublished(q, qs, now, trace[k].recoveryPublished)
    requires q.package.deviceList == c.request.oldPackage.deviceList
    requires d in Voters(c.request.oldPackage, ApproverIds(c.approvals)) && d in Elements(RecoveryIds(qs))
    requires ActiveVoter(c.request.newPackage, d)
    ensures PackageLe(q.package, c.request.newPackage)
  {
    RunKeepsSuccession(trace, k);
    RunKeepsInvariant(trace, k);
    RunKeepsRecovery(trace, k);
    assert trace[k].published <= trace[k].heads && trace[k].recoveryPublished <= trace[k].recoveryHeads;
    assert AllRanked(trace[k].heads, trace[k].recoveryHeads);
    RevisionsApart(c, q, now);
    hide TransitionInvariant, RecoveryInvariant, SuccessionInvariant, ActiveVoter, PackageLe, VerifyStatic,
         RecoveryCurrent;
    var v := VoterApproval(c.request.oldPackage, c.approvals, d);
    assert ApprovalFor(v, c.request);
    var a := ApproverApproval(q, qs, now, d);
    assert Ranked(v, a);
  }

  lemma RevisionsApart(c: TransitionCertificate, q: RecoveryRequest, now: nat)
    requires CertificateValid(c) && RecoveryCurrent(q, now) && q.package.deviceList == c.request.oldPackage.deviceList
    ensures q.package.authority.revision < c.request.newPackage.authority.revision
  {
    hide JointMajority, ApprovalFor, ValidDeviceList, ValidAuthority, MembershipsSorted;
  }

  /** The old-roster devices that are no active voters of the new package. */
  function Leavers(q: TransitionRequest): set<DeviceId> {
    set d | d in Roster(q.oldPackage.deviceList) && !ActiveVoter(q.newPackage, d)
  }

  /**
   Every old-roster majority checkpoint is at most the certified new package as long as fewer devices
   leave than two majorities must share: any additions, and one removal from every roster of even size.
   */
  lemma FewLeaversSuperseded(trace: seq<Network>, k: nat, c: TransitionCertificate,
                             q: RecoveryRequest, qs: seq<RecoveryApproval>, now: nat)
    requires Run(trace) && k < |trace|
    requires Certified(c, trace[k].published) && MajorityPublished(q, qs, now, trace[k].recoveryPublished)
    requires q.package.deviceList == c.request.oldPackage.deviceList
    requires var n := |c.request.oldPackage.deviceList.devices|; |Leavers(c.request)| + n < 2 * Required(n)
    ensures PackageLe(q.package, c.request.newPackage)
  {
    ApproversWithinRoster(q, qs, now);
    VotersAreRosterDevices(c.request.oldPackage, ApproverIds(c.approvals));
    var roster := Roster(q.package.deviceList);
    hide ActiveVoter, PackageLe, RecoveryCurrent, VerifyStatic, Roster, RecoveryApprovalFor, ApprovalFor;
    var d := MajoritiesMeetOutside(roster, Voters(c.request.oldPackage, ApproverIds(c.approvals)),
                                   Elements(RecoveryIds(qs)),
                                   Leavers(c.request));
    OldMajoritySuperseded(trace, k, c, q, qs, now, d);
  }
}
