/** What every run keeps about recovery approvals, and the ordering and freshness results that follow. */
module Freshness {
  import opened Basics
  import opened Identity
  import opened Voting
  import opened DeviceTrust
  import opened Chain
  import opened Network
  import opened Agreement

  // ----- the invariant -----

  /** The length of an approval's predecessor chain, itself included. */
  function Depth(a: RecoveryApproval): nat
    decreases a
  {
    match a.previous
    case NoRecoveryApproval => 1
    case RecoveryApprovalIdOf(b) => 1 + Depth(b)
  }

  predicate Standing(a: RecoveryApproval, devices: map<DeviceId, Trust>) {
    a.approver in devices && Vouches(devices[a.approver], a)
  }

  /** Every approval ever committed is still covered by its device. */
  ghost predicate AllStanding(s: Network) {
    forall a :: a in s.recoveryHeads ==> Standing(a, s.devices)
  }

  /** The approver's head is deeper than this approval, or is it. */
  predicate Latest(a: RecoveryApproval, devices: map<DeviceId, Trust>) {
    && a.approver in devices && devices[a.approver].recoveryHead.Some?
    && (a == devices[a.approver].recoveryHead.value || Depth(a) < Depth(devices[a.approver].recoveryHead.value))
  }

  ghost predicate HeadsLatest(s: Network) {
    forall a :: a in s.recoveryHeads ==> Latest(a, s.devices)
  }

  predicate InSequence(a: RecoveryApproval, b: RecoveryApproval) {
    a.approver == b.approver && Depth(a) <= Depth(b) ==> PackageLe(a.request.package, b.request.package)
  }

  /** One device's approvals only ever move up. */
  ghost predicate Ordered(heads: set<RecoveryApproval>) {
    forall a, b :: a in heads && b in heads ==> InSequence(a, b)
  }

  ghost predicate HeadsKnown(s: Network) {
    && s.recoveryPublished <= s.recoveryHeads
    && forall d :: d in s.devices && s.devices[d].recoveryHead.Some? ==>
         s.devices[d].recoveryHead.value in s.recoveryHeads && s.devices[d].recoveryHead.value.approver == d
  }

  /** A head was approved over a roster no newer than the policy's. */
  predicate RosterBehind(t: Trust) {
    t.recoveryHead.Some? && t.policy.Some? ==>
      t.recoveryHead.value.request.package.deviceList.authority.revision <= t.policy.value.roster.authority.revision
  }

  ghost predicate RostersBehind(s: Network) {
    forall d :: d in s.devices ==> RosterBehind(s.devices[d])
  }

  ghost predicate RecoveryInvariant(s: Network) {
    AllStanding(s) && HeadsLatest(s) && Ordered(s.recoveryHeads) && HeadsKnown(s) && RostersBehind(s)
  }

  // ----- every step keeps it -----

  /** What a step that leaves every recovery head alone must do to one device. */
  ghost predicate Steady(t: Trust, u: Trust) {
    && u.certificate == t.certificate && u.recoveryHead == t.recoveryHead && RosterBehind(u)
    && forall x :: Covers(t, x) ==> Covers(u, x)
  }

  lemma SteadyStep(s: Network, s': Network, d: DeviceId, u: Trust)
    requires RecoveryInvariant(s) && d in s.devices && Steady(s.devices[d], u)
    requires s'.devices == s.devices[d := u]
    requires s'.recoveryHeads == s.recoveryHeads && s'.recoveryPublished == s.recoveryPublished
    ensures RecoveryInvariant(s')
  {
    hide Covers, ValidPackage, RosterBehind, PackageLe;
    forall a | a in s'.recoveryHeads
      ensures Standing(a, s'.devices) && Latest(a, s'.devices)
    {
      assert Standing(a, s.devices) && Latest(a, s.devices);
    }
    hide Standing, Latest, InSequence;
  }

  lemma PackageLeReflexive(p: Package)
    requires ValidPackage(p)
    ensures PackageLe(p, p)
  {
    hide ValidDeviceList, ValidAuthority;
    forall m | m in p.memberships
      ensures FindMembership(p.memberships, m.conversation) == Some(m)
    {
      FoundIsUnique(p.memberships, m);
    }
  }

  lemma EnrollStep(s: Network, s': Network, d: DeviceId, t: Trust)
    requires RecoveryInvariant(s) && Next(s, Enroll(d, t), s')
    ensures RecoveryInvariant(s')
  {
    hide Covers, ValidPackage, PackageLe, Filed;
    forall a | a in s'.recoveryHeads
      ensures Standing(a, s'.devices) && Latest(a, s'.devices)
    {
      assert a in s.recoveryHeads ==> Standing(a, s.devices) && Latest(a, s.devices);
    }
    if t.recoveryHead.Some? {
      PackageLeReflexive(t.recoveryHead.value.request.package);
      assert forall a :: a in s.recoveryHeads ==> Standing(a, s.devices);
      hide Latest;
      assert Ordered(s'.recoveryHeads) by { NewcomerOrdered(s, d, t.recoveryHead.value); }
    }
    hide Standing, Latest, InSequence;
  }

  lemma NewcomerOrdered(s: Network, d: DeviceId, a: RecoveryApproval)
    requires AllStanding(s) && Ordered(s.recoveryHeads)
    requires d !in s.devices && a.approver == d && PackageLe(a.request.package, a.request.package)
    ensures Ordered(s.recoveryHeads + {a})
  {
    hide PackageLe, Vouches;
    assert forall b :: b in s.recoveryHeads ==> b.approver != d by {
      assert forall b :: b in s.recoveryHeads ==> Standing(b, s.devices);
    }
  }

  /** A new approval is at least every approval its device made before. */
  lemma NextIsHighest(s: Network, d: DeviceId, q: RecoveryRequest, now: nat)
    requires RecoveryInvariant(s) && d in s.devices && Filed(s.devices[d].memberships)
    requires ApproveRecovery(s.devices[d], q, now).Approved? && !ApproveRecovery(s.devices[d], q, now).reused
    requires s.devices[d].certificate.device == d
    ensures var b := ApproveRecovery(s.devices[d], q, now).approval;
            forall a :: a in s.recoveryHeads && a.approver == d ==>
              Depth(a) < Depth(b) && PackageLe(a.request.package, b.request.package)
  {
    var t := s.devices[d];
    ConfirmEffect(t, q, now);
    hide ApproveRecovery, Dominates, HeadAdmits, PolicyAdmits, ValidPackage, PackageLe, Covers;
    forall a | a in s.recoveryHeads && a.approver == d
      ensures Depth(a) < Depth(ApproveRecovery(t, q, now).approval) && PackageLe(a.request.package, q.package)
    {
      assert Standing(a, s.devices) && Latest(a, s.devices);
      CoveredBelow(t, a.request.package, q.package);
    }
  }

  lemma ApprovalOrdered(heads: set<RecoveryApproval>, b: RecoveryApproval)
    requires Ordered(heads) && ValidPackage(b.request.package)
    requires forall a :: a in heads && a.approver == b.approver ==>
               Depth(a) < Depth(b) && PackageLe(a.request.package, b.request.package)
    ensures Ordered(heads + {b})
  {
    PackageLeReflexive(b.request.package);
    hide PackageLe, ValidPackage;
  }

  lemma ApprovalStanding(s: Network, s': Network, d: DeviceId, q: RecoveryRequest, now: nat)
    requires RecoveryInvariant(s) && d in s.devices && s.devices[d].certificate.device == d
    requires ApproveRecovery(s.devices[d], q, now).Approved?
    requires s'.devices == s.devices[d := ApproveRecovery(s.devices[d], q, now).trust]
    requires s'.recoveryHeads == s.recoveryHeads + {ApproveRecovery(s.devices[d], q, now).approval}
    ensures AllStanding(s')
  {
    var t := s.devices[d];
    var r := ApproveRecovery(t, q, now);
    ConfirmEffect(t, q, now);
    if t.recoveryHead.Some? {
      assert Standing(t.recoveryHead.value, s.devices);
    }
    ConfirmCovers(t, q, now);
    hide ApproveRecovery, Dominates, HeadAdmits, PolicyAdmits, ValidPackage, Covers;
    forall a | a in s'.recoveryHeads
      ensures Standing(a, s'.devices)
    {
      if a in s.recoveryHeads {
        assert Standing(a, s.devices);
        if a.approver == d {
          ConfirmKeepsCoverage(t, q, now, a.request.package);
        }
      }
    }
  }

  lemma ApprovalLatest(s: Network, s': Network, d: DeviceId, b: RecoveryApproval, u: Trust)
    requires HeadsLatest(s) && d in s.devices
    requires s'.devices == s.devices[d := u] && u.recoveryHead == Some(b) && b.approver == d
    requires s'.recoveryHeads == s.recoveryHeads + {b}
    requires forall a :: a in s.recoveryHeads && a.approver == d ==> a == b || Depth(a) < Depth(b)
    ensures HeadsLatest(s')
  {
    forall a | a in s'.recoveryHeads
      ensures Latest(a, s'.devices)
    {
      assert a in s.recoveryHeads ==> Latest(a, s.devices);
    }
  }

  lemma ConfirmKeepsBehind(t: Trust, q: RecoveryRequest, now: nat)
    requires ApproveRecovery(t, q, now).Approved? && RosterBehind(t)
    ensures RosterBehind(ApproveRecovery(t, q, now).trust)
  {
    hide Dominates, RecoveryCurrent, HeadAdmits, RecoveryApprovalFor, Overlay, AuthorityInstalls;
  }

  lemma ApprovalKnown(s: Network, s': Network, d: DeviceId, b: RecoveryApproval, u: Trust)
    requires HeadsKnown(s) && RostersBehind(s) && RosterBehind(u)
    requires s'.devices == s.devices[d := u] && u.recoveryHead == Some(b) && b.approver == d
    requires s'.recoveryHeads == s.recoveryHeads + {b}
    requires s'.recoveryPublished <= s.recoveryPublished + {b}
    ensures HeadsKnown(s') && RostersBehind(s')
  {
    hide RosterBehind;
  }

  /** The new approval, or the reused head, is the deepest of its device. */
  lemma ApprovalDeepest(s: Network, d: DeviceId, q: RecoveryRequest, now: nat)
    requires Placed(s) && RecoveryInvariant(s) && d in s.devices && ApproveRecovery(s.devices[d], q, now).Approved?
    ensures var b := ApproveRecovery(s.devices[d], q, now).approval;
            && Ordered(s.recoveryHeads + {b})
            && forall a :: a in s.recoveryHeads && a.approver == d ==> a == b || Depth(a) < Depth(b)
  {
    var t := s.devices[d];
    var r := ApproveRecovery(t, q, now);
    ConfirmEffect(t, q, now);
    hide ApproveRecovery, Dominates, HeadAdmits, PolicyAdmits, ValidPackage, Standing, InSequence;
    if r.reused {
      assert s.recoveryHeads + {r.approval} == s.recoveryHeads;
      assert forall a :: a in s.recoveryHeads ==> Latest(a, s.devices);
    } else {
      NextIsHighest(s, d, q, now);
      ApprovalOrdered(s.recoveryHeads, r.approval);
    }
  }

  lemma ConfirmRecoveryStep(s: Network, s': Network, d: DeviceId, q: RecoveryRequest, now: nat, publish: bool)
    requires Placed(s) && RecoveryInvariant(s) && Next(s, Confirm(d, q, now, publish), s')
    ensures RecoveryInvariant(s')
  {
    var t := s.devices[d];
    var r := ApproveRecovery(t, q, now);
    assert t.certificate.device == d && RosterBehind(t);
    ConfirmEffect(t, q, now);
    hide ApproveRecovery, Dominates, HeadAdmits, PolicyAdmits, ValidPackage, AllStanding, Ordered, RosterBehind, Placed,
         HeadsLatest, HeadsKnown, RostersBehind, Depth;
    ApprovalStanding(s, s', d, q, now);
    ApprovalDeepest(s, d, q, now);
    ConfirmKeepsBehind(t, q, now);
    ApprovalLatest(s, s', d, r.approval, r.trust);
    ApprovalKnown(s, s', d, r.approval, r.trust);
  }

  /** A vote that gives a device its first policy takes it from the roster of the head it already has. */
  lemma VoteKeepsBehind(t: Trust, q: TransitionRequest, now: nat)
    requires ApproveTransition(t, q, now).Approved? && RosterBehind(t)
    ensures RosterBehind(ApproveTransition(t, q, now).trust)
  {
    hide Current, Dominates, ApprovalFor, AuthorityInstalls, Overlay, Authorizes, Anchors;
  }

  /** Installing moves the policy to a strictly newer roster. */
  lemma InstallKeepsBehind(t: Trust, c: TransitionCertificate)
    requires Install(t, c).Some? && RosterBehind(t)
    requires t.recoveryHead.Some? ==> Vouches(t, t.recoveryHead.value)
    ensures RosterBehind(Install(t, c).value)
    ensures Install(t, c).value.policy != t.policy && t.policy.Some? ==>
              t.policy.value.roster == c.request.oldPackage.deviceList
              && t.policy.value.roster.authority.revision < c.request.newPackage.deviceList.authority.revision
  {
    hide ApprovalFor, JointMajority, AuthorityInstalls, Overlay, Authorizes, ValidDeviceList, ValidAuthority;
  }

  lemma VoteRecoveryStep(s: Network, s': Network, d: DeviceId, q: TransitionRequest, now: nat, publish: bool)
    requires RecoveryInvariant(s) && Next(s, Vote(d, q, now, publish), s')
    ensures RecoveryInvariant(s')
  {
    var t := s.devices[d];
    assert RosterBehind(t);
    hide RecoveryInvariant, ApproveTransition, Covers, RosterBehind;
    VoteEffect(t, q, now);
    VoteKeepsBehind(t, q, now);
    forall x | Covers(t, x)
      ensures Covers(ApproveTransition(t, q, now).trust, x)
    {
      VoteKeepsCoverage(t, q, now, x);
    }
    SteadyStep(s, s', d, ApproveTransition(t, q, now).trust);
  }

  lemma AdoptRecoveryStep(s: Network, s': Network, d: DeviceId, c: TransitionCertificate)
    requires Placed(s) && RecoveryInvariant(s) && Next(s, Adopt(d, c), s')
    ensures RecoveryInvariant(s')
  {
    var t := s.devices[d];
    assert RosterBehind(t);
    HeadVouched(s, d);
    hide RecoveryInvariant, Placed, Install, Covers, RosterBehind, CertificateValid, Anchors, Vouches;
    InstallEffect(t, c);
    InstallKeepsBehind(t, c);
    forall x | Covers(t, x)
      ensures Covers(Install(t, c).value, x)
    {
      InstallKeepsCoverage(t, c, x);
    }
    SteadyStep(s, s', d, Install(t, c).value);
  }

  lemma HeadVouched(s: Network, d: DeviceId)
    requires RecoveryInvariant(s) && d in s.devices
    ensures s.devices[d].recoveryHead.Some? ==> Vouches(s.devices[d], s.devices[d].recoveryHead.value)
  {
    hide Vouches, PackageLe, Latest;
    if s.devices[d].recoveryHead.Some? {
      assert Standing(s.devices[d].recoveryHead.value, s.devices);
    }
  }

  lemma AdvanceRecoveryStep(s: Network, s': Network, d: DeviceId, authority: Authority,
                            memberships: map<ConversationId, Membership>)
    requires RecoveryInvariant(s) && Next(s, Advance(d, authority, memberships), s')
    ensures RecoveryInvariant(s')
  {
    var t := s.devices[d];
    assert RosterBehind(t);
    hide RecoveryInvariant, Covers, Advances;
    forall x | Covers(t, x)
      ensures Covers(t.(authority := authority, memberships := memberships), x)
    {
      AdvanceKeepsCoverage(t, authority, memberships, x);
    }
    SteadyStep(s, s', d, t.(authority := authority, memberships := memberships));
  }

  lemma StepKeepsRecovery(s: Network, step: Step, s': Network)
    requires TransitionInvariant(s) && RecoveryInvariant(s) && Next(s, step, s')
    ensures RecoveryInvariant(s')
  {
    assert Placed(s);
    hide TransitionInvariant, RecoveryInvariant, Next, Placed;
    match step
    case Enroll(d, t) => EnrollStep(s, s', d, t);
    case Advance(d, authority, memberships) => AdvanceRecoveryStep(s, s', d, authority, memberships);
    case Vote(d, q, now, publish) => VoteRecoveryStep(s, s', d, q, now, publish);
    case Adopt(d, c) => AdoptRecoveryStep(s, s', d, c);
    case Confirm(d, q, now, publish) => ConfirmRecoveryStep(s, s', d, q, now, publish);
  }

  lemma EmptyRecovery()
    ensures RecoveryInvariant(EMPTY)
  {
  }

  /** The invariant holds at every moment of every run. */
  lemma {:induction false} RunKeepsRecovery(trace: seq<Network>, k: nat)
    requires Run(trace) && k < |trace|
    ensures RecoveryInvariant(trace[k])
    decreases k
  {
    EmptyRecovery();
    hide TransitionInvariant, RecoveryInvariant, Next;
    if k > 0 {
      RunKeepsRecovery(trace, k - 1);
      RunKeepsInvariant(trace, k - 1);
      assert Steps(trace[k - 1], trace[k - 1 + 1]);
      var step :| Next(trace[k - 1], step, trace[k]);
      StepKeepsRecovery(trace[k - 1], step, trace[k]);
    }
  }

  // ----- freshness -----

  /** A majority of recovery approvals, each really published by its device. */
  ghost predicate MajorityPublished(q: RecoveryRequest, approvals: seq<RecoveryApproval>, now: nat,
                                    published: set<RecoveryApproval>) {
    RecoveryMajority(q, approvals, now) && forall a :: a in approvals ==> a in published
  }

  lemma ApproversWithinRoster(q: RecoveryRequest, approvals: seq<RecoveryApproval>, now: nat)
    requires RecoveryMajority(q, approvals, now)
    ensures Elements(RecoveryIds(approvals)) <= Roster(q.package.deviceList)
    ensures |Roster(q.package.deviceList)| == |q.package.deviceList.devices|
  {
    RosterSize(q.package.deviceList.devices);
    forall d | d in Elements(RecoveryIds(approvals))
      ensures d in Roster(q.package.deviceList)
    {
      var i :| 0 <= i < |approvals| && RecoveryIds(approvals)[i] == d;
      assert RecoveryApprovalFor(approvals[i], q, now);
    }
  }

  lemma ApproverApproval(q: RecoveryRequest, approvals: seq<RecoveryApproval>, now: nat, d: DeviceId)
    returns (a: RecoveryApproval)
    requires RecoveryMajority(q, approvals, now) && d in Elements(RecoveryIds(approvals))
    ensures a in approvals && a.approver == d && a.request == q
  {
    var i :| 0 <= i < |approvals| && RecoveryIds(approvals)[i] == d;
    a := approvals[i];
    assert RecoveryApprovalFor(a, q, now);
  }

  /**
   Packages that reach a strict majority of one roster are totally ordered: of any two, one is at
   least the other in authority and in every membership, with no fork at equal revisions.
   */
  lemma MajoritiesOrdered(trace: seq<Network>, k: nat, q: RecoveryRequest, qs: seq<RecoveryApproval>, qNow: nat,
                          r: RecoveryRequest, rs: seq<RecoveryApproval>, rNow: nat)
    requires Run(trace) && k < |trace|
    requires MajorityPublished(q, qs, qNow, trace[k].recoveryPublished)
    requires MajorityPublished(r, rs, rNow, trace[k].recoveryPublished)
    requires q.package.deviceList == r.package.deviceList
    ensures PackageLe(q.package, r.package) || PackageLe(r.package, q.package)
  {
    RunKeepsRecovery(trace, k);
    ApproversWithinRoster(q, qs, qNow);
    ApproversWithinRoster(r, rs, rNow);
    hide ActiveVoter, RecoveryApprovalFor, PackageLe, RecoveryCurrent, AllStanding, HeadsLatest, RostersBehind;
    var common := MajoritiesMeet(Roster(q.package.deviceList), Elements(RecoveryIds(qs)), Elements(RecoveryIds(rs)));
    var a := ApproverApproval(q, qs, qNow, common);
    var b := ApproverApproval(r, rs, rNow, common);
    assert InSequence(a, b) && InSequence(b, a);
  }

  /** Two majority packages over one roster, neither ahead of the other, are one package. */
  lemma MajorityForkFree(trace: seq<Network>, k: nat, q: RecoveryRequest, qs: seq<RecoveryApproval>, qNow: nat,
                         r: RecoveryRequest, rs: seq<RecoveryApproval>, rNow: nat)
    requires Run(trace) && k < |trace|
    requires MajorityPublished(q, qs, qNow, trace[k].recoveryPublished)
    requires MajorityPublished(r, rs, rNow, trace[k].recoveryPublished)
    requires q.package.deviceList == r.package.deviceList
    requires q.package != r.package
    ensures PackageLe(q.package, r.package) <==> !PackageLe(r.package, q.package)
  {
    MajoritiesOrdered(trace, k, q, qs, qNow, r, rs, rNow);
    hide PackageLe;
    if PackageLe(q.package, r.package) && PackageLe(r.package, q.package) {
      PackageLeAntisymmetric(q.package, r.package);
    }
  }

  /**
   Candidates reported fork-safe against certificates of one old epoch and old roster extend the one
   certified new package and are comparable with each other.
   */
  lemma CrossRosterForkSafety(trace: seq<Network>, k: nat,
                              q: RecoveryRequest, qs: seq<RecoveryApproval>, qNow: nat, c: TransitionCertificate,
                              r: RecoveryRequest, rs: seq<RecoveryApproval>, rNow: nat, d: TransitionCertificate)
    requires Run(trace) && k < |trace|
    requires MajorityPublished(q, qs, qNow, trace[k].recoveryPublished) && ExtendsCertificate(q.package, c)
    requires MajorityPublished(r, rs, rNow, trace[k].recoveryPublished) && ExtendsCertificate(r.package, d)
    requires Certified(c, trace[k].published) && Certified(d, trace[k].published)
    requires c.request.oldEpoch == d.request.oldEpoch
    requires c.request.oldPackage.deviceList == d.request.oldPackage.deviceList
    ensures c.request == d.request
    ensures Successor(c.request.newPackage, q.package, false) && Successor(c.request.newPackage, r.package, false)
    ensures PackageLe(q.package, r.package) || PackageLe(r.package, q.package)
  {
    hide CertificateValid, Successor, RecoveryMajority, PackageLe;
    OneRequestPerEpoch(trace, k, c, d);
    MajoritiesOrdered(trace, k, q, qs, qNow, r, rs, rNow);
  }

  // ----- what leaves a device -----

  /** Every recovery approval that left a device was that device's durable head at that moment or before. */
  lemma {:induction false} RecoveryPublishedWasHead(trace: seq<Network>, k: nat, a: RecoveryApproval) returns (j: nat)
    requires Run(trace) && k < |trace| && a in trace[k].recoveryPublished
    ensures j <= k && a.approver in trace[j].devices && trace[j].devices[a.approver].recoveryHead == Some(a)
    decreases k
  {
    assert k > 0;
    if a in trace[k - 1].recoveryPublished {
      j := RecoveryPublishedWasHead(trace, k - 1, a);
    } else {
      RunKeepsInvariant(trace, k - 1);
      assert Placed(trace[k - 1]);
      assert Steps(trace[k - 1], trace[k - 1 + 1]);
      hide TransitionInvariant;
      var step :| Next(trace[k - 1], step, trace[k]);
      NewlyPublished(trace[k - 1], step, trace[k], a);
      j := k;
    }
  }

  lemma NewlyPublished(s: Network, step: Step, s': Network, a: RecoveryApproval)
    requires Placed(s) && Next(s, step, s')
    requires a in s'.recoveryPublished && a !in s.recoveryPublished
    ensures a.approver in s'.devices && s'.devices[a.approver].recoveryHead == Some(a)
  {
    hide ApproveTransition, ApproveRecovery, Install, Dominates, ValidPackage, HeadAdmits, PolicyAdmits, Covers,
         CertificateValid;
    if step.Confirm? {
      ConfirmEffect(s.devices[step.device], step.recovery, step.now);
    }
  }

  /** A retried request gets the identical approval back exactly when that approval is still the head. */
  lemma RecoveryRetry(trace: seq<Network>, i: nat, j: nat, a: RecoveryApproval, now: nat)
    requires Run(trace) && i <= j < |trace| && a in trace[i].recoveryHeads
    requires a.approver in trace[j].devices
    requires ApproveRecovery(trace[j].devices[a.approver], a.request, now).Approved?
    ensures ApproveRecovery(trace[j].devices[a.approver], a.request, now).approval == a
            <==> trace[j].devices[a.approver].recoveryHead == Some(a)
  {
    RunKeepsRecovery(trace, j);
    RecoveryHeadsKept(trace, i, j);
    var t := trace[j].devices[a.approver];
    assert Latest(a, trace[j].devices);
    hide RecoveryInvariant, HeadAdmits, PolicyAdmits, Dominates;
    ConfirmEffect(t, a.request, now);
  }

  lemma {:induction false} RecoveryHeadsKept(trace: seq<Network>, i: nat, j: nat)
    requires Run(trace) && i <= j < |trace|
    ensures trace[i].recoveryHeads <= trace[j].recoveryHeads
    decreases j - i
  {
    if i < j {
      RecoveryHeadsKept(trace, i, j - 1);
      assert Steps(trace[j - 1], trace[j - 1 + 1]);
      hide ApproveTransition, ApproveRecovery, Install;
    }
  }

  // ----- roster changes between recovery approvals -----

  /** The head's roster and the next package's are joined by exactly this installed, certified transition. */
  ghost predicate Bridges(c: TransitionCertificate, t: Trust, head: Package, next: Package,
                          published: set<TransitionApproval>) {
    && t.installed == Some(c) && t.policy == Some(Transitioned(c)) && Certified(c, published)
    && c.request.oldPackage.deviceList == head.deviceList
    && ExtendsCertificate(next, c)
  }

  /** Consecutive recovery heads of a device have one roster, or one installed certificate between their rosters. */
  lemma HeadsBridged(trace: seq<Network>, i: nat, d: DeviceId)
    requires Run(trace) && i + 1 < |trace|
    requires d in trace[i].devices && d in trace[i + 1].devices
    requires trace[i].devices[d].recoveryHead.Some?
             && trace[i + 1].devices[d].recoveryHead != trace[i].devices[d].recoveryHead
    ensures trace[i + 1].devices[d].recoveryHead.Some?
    ensures var (head, next) := (trace[i].devices[d].recoveryHead.value, trace[i + 1].devices[d].recoveryHead.value);
            && next.previous == RecoveryApprovalIdOf(head)
            && PackageLe(head.request.package, next.request.package)
            && (head.request.package.deviceList == next.request.package.deviceList
                || exists c :: Bridges(c, trace[i].devices[d], head.request.package, next.request.package,
                                       trace[i].published))
  {
    RunKeepsInvariant(trace, i);
    RunKeepsRecovery(trace, i);
    assert Steps(trace[i], trace[i + 1]);
    var step :| Next(trace[i], step, trace[i + 1]);
    HeadStep(trace[i], step, trace[i + 1], d);
  }

  lemma HeadStep(s: Network, step: Step, s': Network, d: DeviceId)
    requires TransitionInvariant(s) && RecoveryInvariant(s) && Next(s, step, s')
    requires d in s.devices && d in s'.devices
    requires s.devices[d].recoveryHead.Some? && s'.devices[d].recoveryHead != s.devices[d].recoveryHead
    ensures s'.devices[d].recoveryHead.Some?
    ensures var (head, next) := (s.devices[d].recoveryHead.value, s'.devices[d].recoveryHead.value);
            && next.previous == RecoveryApprovalIdOf(head)
            && PackageLe(head.request.package, next.request.package)
            && (head.request.package.deviceList == next.request.package.deviceList
                || exists c :: Bridges(c, s.devices[d], head.request.package, next.request.package, s.published))
  {
    OnlyConfirmMovesHead(s, step, s', d);
    var t := s.devices[d];
    ConfirmEffect(t, step.recovery, step.now);
    HeadVouched(s, d);
    assert Filed(t.memberships);
    hide RecoveryInvariant, ApproveRecovery, Covers, Dominates;
    CoveredBelow(t, t.recoveryHead.value.request.package, step.recovery.package);
    if t.recoveryHead.value.request.package.deviceList != step.recovery.package.deviceList {
      InstalledCertified(s, d);
      hide TransitionInvariant;
      assert Bridges(t.installed.value, t, t.recoveryHead.value.request.package, step.recovery.package, s.published);
    }
  }

  lemma InstalledCertified(s: Network, d: DeviceId)
    requires TransitionInvariant(s) && d in s.devices
    requires var t := s.devices[d]; t.policy.Some? && t.installed.Some?
                                    && t.policy.value.latest == CertificateId(t.installed.value)
    ensures var t := s.devices[d]; Certified(t.installed.value, s.published)
                                   && t.policy == Some(Transitioned(t.installed.value))
  {
    hide CertificateValid, ActiveVoter, RequestChained, SameBallot, Highest;
    assert PolicyChained(s.devices[d].policy.value, s.published);
  }

  lemma OnlyConfirmMovesHead(s: Network, step: Step, s': Network, d: DeviceId)
    requires Placed(s) && Next(s, step, s') && d in s.devices && d in s'.devices
    requires s'.devices[d].recoveryHead != s.devices[d].recoveryHead
    ensures step.Confirm? && step.device == d && s.devices[d].certificate.device == d
    ensures !ApproveRecovery(s.devices[d], step.recovery, step.now).reused
  {
    hide ApproveTransition, ApproveRecovery, Install, Dominates, ValidPackage, HeadAdmits, PolicyAdmits, Covers,
         CertificateValid;
    match step
    case Enroll(_, _) =>
    case Advance(_, _, _) =>
    case Vote(e, q, now, publish) => VoteEffect(s.devices[e], q, now);
    case Adopt(e, c) => InstallEffect(s.devices[e], c);
    case Confirm(e, q, now, publish) => ConfirmEffect(s.devices[e], q, now);
  }

  /** The head's roster is neither the policy's nor the one the installed certificate replaced. */
  predicate Stranded(t: Trust) {
    && t.recoveryHead.Some? && t.installed.Some? && t.policy == Some(Transitioned(t.installed.value))
    && t.recoveryHead.value.request.package.deviceList != t.policy.value.roster
    && t.recoveryHead.value.request.package.deviceList != t.installed.value.request.oldPackage.deviceList
  }

  /** A stranded device refuses every checkpoint but the one it already approved. */
  lemma StrandedRefuses(t: Trust, q: RecoveryRequest, now: nat)
    requires Stranded(t) && q != t.recoveryHead.value.request
    ensures ApproveRecovery(t, q, now).Refused?
  {
    hide Dominates, ExtendsCertificate, RecoveryCurrent, Overlay, AuthorityInstalls;
  }

  /**
   An installation strands the device exactly when its head is over neither roster of the certificate,
   whether the device had a policy before or not.
   */
  lemma InstallStrands(t: Trust, c: TransitionCertificate)
    requires Install(t, c).Some? && Install(t, c).value.policy != t.policy && t.recoveryHead.Some?
    ensures var roster := t.recoveryHead.value.request.package.deviceList;
            Stranded(Install(t, c).value) <==>
            roster != c.request.oldPackage.deviceList && roster != c.request.newPackage.deviceList
  {
    InstallEffect(t, c);
    hide Install, CertificateValid;
  }

  /** For a device that had a policy: exactly when its head already lagged the policy. */
  lemma SkippedRosterStrands(t: Trust, c: TransitionCertificate)
    requires Install(t, c).Some? && t.policy.Some? && Install(t, c).value.policy != t.policy
    requires t.recoveryHead.Some? && RosterBehind(t) && Vouches(t, t.recoveryHead.value)
    ensures Stranded(Install(t, c).value) <==> t.recoveryHead.value.request.package.deviceList != t.policy.value.roster
  {
    InstallEffect(t, c);
    InstallKeepsBehind(t, c);
    hide Install, CertificateValid, Vouches;
  }

  /** Nothing but such an installation strands a device. */
  lemma OnlyInstallStrands(s: Network, step: Step, s': Network, d: DeviceId)
    requires Next(s, step, s') && d in s.devices && d in s'.devices
    requires Stranded(s'.devices[d]) && !Stranded(s.devices[d])
    ensures step.Adopt? && step.device == d && s.devices[d].recoveryHead.Some?
    ensures var (head, q) := (s.devices[d].recoveryHead.value, step.certificate.request);
            head.request.package.deviceList != q.oldPackage.deviceList
                && head.request.package.deviceList != q.newPackage.deviceList
  {
    hide ApproveTransition, ApproveRecovery, Install, Dominates, ValidPackage, HeadAdmits, CertificateValid, Covers;
    if step.device == d {
      match step
      case Enroll(_, _) =>
      case Advance(_, _, _) =>
      case Vote(_, q, now, publish) => VoteEffect(s.devices[d], q, now);
      case Adopt(_, c) => InstallEffect(s.devices[d], c);
      case Confirm(_, q, now, publish) => ConfirmEffect(s.devices[d], q, now);
    }
  }

  predicate StillStranded(t: Trust, u: Trust) {
    Stranded(u) && u.recoveryHead == t.recoveryHead
  }

  lemma StrandedVotes(t: Trust, q: TransitionRequest, now: nat)
    requires Stranded(t) && ApproveTransition(t, q, now).Approved?
    ensures StillStranded(t, ApproveTransition(t, q, now).trust)
  {
    hide ApproveTransition;
    VoteEffect(t, q, now);
  }

  lemma StrandedInstalls(t: Trust, c: TransitionCertificate)
    requires Stranded(t) && RosterBehind(t) && Vouches(t, t.recoveryHead.value) && Install(t, c).Some?
    ensures StillStranded(t, Install(t, c).value)
  {
    hide Install, CertificateValid, Vouches;
    InstallEffect(t, c);
    InstallKeepsBehind(t, c);
  }

  lemma StrandedConfirms(t: Trust, q: RecoveryRequest, now: nat)
    requires Stranded(t) && ApproveRecovery(t, q, now).Approved?
    ensures StillStranded(t, ApproveRecovery(t, q, now).trust)
  {
    hide ApproveRecovery;
    if q != t.recoveryHead.value.request {
      StrandedRefuses(t, q, now);
    } else {
      SameRequestReuses(t, q, now);
    }
  }

  lemma StrandedStep(s: Network, step: Step, s': Network, d: DeviceId)
    requires RecoveryInvariant(s) && Next(s, step, s')
    requires d in s.devices && Stranded(s.devices[d])
    ensures d in s'.devices && StillStranded(s.devices[d], s'.devices[d])
  {
    assert RosterBehind(s.devices[d]) && s.devices[d].recoveryHead.Some?;
    HeadVouched(s, d);
    hide ApproveTransition, ApproveRecovery, Install, RecoveryInvariant, RosterBehind, Vouches, CertificateValid,
         Certified,
         Advances, FreshTrust;
    if step.device == d {
      match step
      case Enroll(_, _) =>
      case Advance(_, _, _) =>
      case Vote(_, q, now, publish) => StrandedVotes(s.devices[d], q, now);
      case Adopt(_, c) => StrandedInstalls(s.devices[d], c);
      case Confirm(_, q, now, publish) => StrandedConfirms(s.devices[d], q, now);
    }
  }

  lemma SameRequestReuses(t: Trust, q: RecoveryRequest, now: nat)
    requires ApproveRecovery(t, q, now).Approved? && t.recoveryHead.Some? && t.recoveryHead.value.request == q
    ensures ApproveRecovery(t, q, now).reused && ApproveRecovery(t, q, now).trust == t
  {
    hide Dominates, RecoveryCurrent, RecoveryApprovalFor;
  }

  /**
   Two roster changes without an approval between them can never be skipped over: the head stays what it
   was for ever.
   */
  lemma {:induction false} StrandedForever(trace: seq<Network>, i: nat, j: nat, d: DeviceId)
    requires Run(trace) && i <= j < |trace|
    requires d in trace[i].devices && Stranded(trace[i].devices[d])
    ensures d in trace[j].devices && Stranded(trace[j].devices[d])
    ensures trace[j].devices[d].recoveryHead == trace[i].devices[d].recoveryHead
    decreases j - i
  {
    hide Next, Stranded, RecoveryInvariant;
    if i < j {
      StrandedForever(trace, i, j - 1, d);
      RunKeepsRecovery(trace, j - 1);
      assert Steps(trace[j - 1], trace[j - 1 + 1]);
      var step :| Next(trace[j - 1], step, trace[j]);
      StrandedStep(trace[j - 1], step, trace[j], d);
    }
  }
}
