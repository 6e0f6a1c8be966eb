/**
 The whole account as a distributed system: any number of devices, each running the operations of
 `DeviceTrust` at any time on any request that reaches it, and crashing at any time.

 An operation's commit is one step, because the commit sequence under it is atomic (module
 `StateVault`). Publishing the approval it returns may or may not follow: `publish == false` is a
 crash, a failed output write or a lost stream after the commit. A device signature cannot be forged,
 so a certificate can only carry approvals that were published.
 */
module Network {
  import opened Basics
  import opened Identity
  import opened Voting
  import opened DeviceTrust
  import opened Chain

  /**
   `heads` and `recoveryHeads` collect every approval that has ever been a committed head;
   `published` and `recoveryPublished` those that left their device.
   */
  datatype Network = Network(
    devices: map<DeviceId, Trust>,
    heads: set<TransitionApproval>,
    published: set<TransitionApproval>,
    recoveryHeads: set<RecoveryApproval>,
    recoveryPublished: set<RecoveryApproval>)

  const EMPTY: Network := Network(map[], {}, {}, {}, {})

  datatype Step =
    | Enroll(device: DeviceId, trust: Trust)
    | Advance(device: DeviceId, authority: Authority, memberships: map<ConversationId, Membership>)
    | Vote(device: DeviceId, transition: TransitionRequest, now: nat, publish: bool)
    | Adopt(device: DeviceId, certificate: TransitionCertificate)
    | Confirm(device: DeviceId, recovery: RecoveryRequest, now: nat, publish: bool)

  /** The device signed this approval and holds at least everything the approved package carries. */
  predicate Vouches(t: Trust, a: RecoveryApproval) {
    && a.approver == t.certificate.device
    && ValidPackage(a.request.package) && a.request.package.account == t.certificate.account
    && Covers(t, a.request.package)
  }

  /**
   A device as it enters the model: certificate and authority, no policy and no transition head. A
   device older than recovery policies may already have a recovery approval head.
   */
  predicate FreshTrust(t: Trust, d: DeviceId) {
    && t.certificate.device == d && Filed(t.memberships)
    && t.policy.None? && t.installed.None? && t.transitionHead.None?
    && (t.recoveryHead.Some? ==> Vouches(t, t.recoveryHead.value))
  }

  function HeadOf(t: Trust): set<RecoveryApproval> {
    if t.recoveryHead.Some? then {t.recoveryHead.value} else {}
  }

  /** Other trust updates (device lists, membership snapshots) only move the high-water marks up. */
  predicate Advances(t: Trust, authority: Authority, memberships: map<ConversationId, Membership>) {
    && AuthorityLe(t.authority, authority)
    && Filed(memberships)
    && forall c :: c in t.memberships ==> c in memberships && MembershipLe(t.memberships[c], memberships[c])
  }

  predicate Next(s: Network, step: Step, s': Network) {
    if step.Enroll? then
      && step.device !in s.devices && FreshTrust(step.trust, step.device)
      && s' == s.(devices := s.devices[step.device := step.trust],
                  recoveryHeads := s.recoveryHeads + HeadOf(step.trust),
                  recoveryPublished := s.recoveryPublished + HeadOf(step.trust))
    else
      && step.device in s.devices
      && var t := s.devices[step.device];
         match step
         case Enroll(_, _) => false
         case Advance(d, authority, memberships) =>
           && Advances(t, authority, memberships)
           && s' == s.(devices := s.devices[d := t.(authority := authority, memberships := memberships)])
         case Vote(d, q, now, publish) =>
           var r := ApproveTransition(t, q, now);
           && r.Approved?
           && s' == s.(devices := s.devices[d := r.trust], heads := s.heads + {r.approval},
                       published := s.published + if publish then {r.approval} else {})
         case Adopt(d, c) =>
           var r := Install(t, c);
           && Certified(c, s.published)
           && r.Some?
           && s' == s.(devices := s.devices[d := r.value])
         case Confirm(d, q, now, publish) =>
           var r := ApproveRecovery(t, q, now);
           && r.Approved?
           && s' == s.(devices := s.devices[d := r.trust], recoveryHeads := s.recoveryHeads + {r.approval},
                       recoveryPublished := s.recoveryPublished + if publish then {r.approval} else {})
  }

  /** A run from the empty account: `trace[i + 1]` follows `trace[i]` by some step. */
  ghost predicate Run(trace: seq<Network>) {
    && trace != [] && trace[0] == EMPTY
    && forall i :: 0 <= i < |trace| - 1 ==> Steps(trace[i], trace[i + 1])
  }

  ghost predicate Steps(s: Network, s': Network) {
    exists step :: Next(s, step, s')
  }

  // ----- one operation, summarised -----

  /** A voter the certificate counts for the old roster is one whose own certificate the old package authorises. */
  lemma OldVoterIsExact(t: Trust, q: TransitionRequest)
    requires VerifyStatic(q)
    requires Authorizes(q.oldPackage, t.certificate) || Authorizes(q.newPackage, t.certificate)
    requires ActiveVoter(q.oldPackage, t.certificate.device)
    ensures Authorizes(q.oldPackage, t.certificate)
  {
    hide ValidPackage, Revoked, MembershipExtends;
    var c := CertificateFor(q.oldPackage.deviceList.devices, t.certificate.device).value;
    assert c in q.oldPackage.deviceList.devices && c.device == t.certificate.device;
    if Authorizes(q.newPackage, t.certificate) {
      assert CertificateFor(q.newPackage.deviceList.devices, c.device) == Some(t.certificate);
    }
  }

  lemma VoteEffect(t: Trust, q: TransitionRequest, now: nat)
    requires ApproveTransition(t, q, now).Approved?
    ensures var r := ApproveTransition(t, q, now);
            && r.approval.request == q && r.approval.approver == t.certificate.device
            && r.trust.transitionHead == Some(r.approval)
            && r.trust.certificate == t.certificate
            && r.trust.installed == t.installed && r.trust.recoveryHead == t.recoveryHead
            && (r.trust.policy == t.policy || (t.policy.None? && r.trust.policy == Some(Genesis(q.oldPackage))))
            && (Filed(t.memberships) ==> Filed(r.trust.memberships))
            && (r.reused ==> r.trust == t)
            && (!r.reused && t.transitionHead.Some? ==> t.transitionHead.value.request.oldEpoch < q.oldEpoch)
            && (!r.reused ==> r.approval == NextTransitionApproval(t, q, now))
  {
    hide MayVote, ApprovalFor, Overlay, AuthorityInstalls;
    OverlayFiled(t.memberships, VotingPackage(t, q).memberships);
  }

  /** An old-roster vote continues an anchor its device already holds, or starts at epoch 0. */
  lemma VoteIsAnchored(t: Trust, q: TransitionRequest, now: nat)
    requires ApproveTransition(t, q, now).Approved?
    requires ActiveVoter(q.oldPackage, t.certificate.device)
    ensures if t.policy.Some? then Anchors(t.policy.value, q) else q.oldEpoch == 0 && q.previous == ZeroId
  {
    OldVoterIsExact(t, q);
  }

  /** A new old-roster vote leaves its device anchored exactly where the request starts, even one that had no policy. */
  lemma VoteAnchors(t: Trust, q: TransitionRequest, now: nat)
    requires ApproveTransition(t, q, now).Approved? && !ApproveTransition(t, q, now).reused
    requires ActiveVoter(q.oldPackage, t.certificate.device)
    ensures var policy := ApproveTransition(t, q, now).trust.policy; policy.Some? && Anchors(policy.value, q)
  {
    OldVoterIsExact(t, q);
    hide VerifyStatic, Dominates, ApprovalFor, AuthorityInstalls, Overlay, Authorizes, ActiveVoter;
  }

  /** A new checkpoint approval leaves its device with a policy over the checkpoint's own roster. */
  lemma ConfirmAnchors(t: Trust, q: RecoveryRequest, now: nat)
    requires ApproveRecovery(t, q, now).Approved? && !ApproveRecovery(t, q, now).reused
    ensures var policy := ApproveRecovery(t, q, now).trust.policy;
            policy.Some? && policy.value.account == q.package.account && policy.value.roster == q.package.deviceList
  {
    hide RecoveryCurrent, Dominates, HeadAdmits, AuthorityInstalls, Overlay, Authorizes;
  }

  lemma VoteKeepsCoverage(t: Trust, q: TransitionRequest, now: nat, x: Package)
    requires ApproveTransition(t, q, now).Approved? && Covers(t, x)
    ensures Covers(ApproveTransition(t, q, now).trust, x)
  {
    hide Current, AnchorAccepted, ApprovalFor, AuthorityInstalls, Overlay, Covers, Authorizes;
    if !ApproveTransition(t, q, now).reused {
      var package := VotingPackage(t, q);
      StageKeepsCoverage(t, package, x);
      CoverageOfMarks(Stage(t, package).value, ApproveTransition(t, q, now).trust, x);
    }
  }

  lemma CoverageOfMarks(t: Trust, u: Trust, x: Package)
    requires t.authority == u.authority && t.memberships == u.memberships
    ensures Covers(t, x) <==> Covers(u, x)
  {
  }

  lemma InstallEffect(t: Trust, c: TransitionCertificate)
    requires Install(t, c).Some?
    ensures var u := Install(t, c).value;
            && u.certificate == t.certificate
            && u.transitionHead == t.transitionHead && u.recoveryHead == t.recoveryHead
            && (Filed(t.memberships) ==> Filed(u.memberships))
            && CertificateValid(c)
            && (u == t || (u.policy == Some(Transitioned(c)) && u.installed == Some(c)))
            && (u != t && t.policy.Some? ==> Anchors(t.policy.value, c.request))
  {
    hide CertificateValid, Dominates, Authorizes, Overlay, AuthorityInstalls, Anchors;
    OverlayFiled(t.memberships, c.request.newPackage.memberships);
  }

  lemma InstallKeepsCoverage(t: Trust, c: TransitionCertificate, x: Package)
    requires Install(t, c).Some? && Covers(t, x)
    ensures Covers(Install(t, c).value, x)
  {
    hide CertificateValid, Anchors, LegacyGenesis, AuthorityInstalls, Overlay, Covers, Authorizes;
    if t.policy != Some(Transitioned(c)) {
      StageKeepsCoverage(t, c.request.newPackage, x);
      CoverageOfMarks(Stage(t, c.request.newPackage).value, Install(t, c).value, x);
    }
  }

  lemma ConfirmEffect(t: Trust, q: RecoveryRequest, now: nat)
    requires ApproveRecovery(t, q, now).Approved?
    ensures var r := ApproveRecovery(t, q, now);
            && r.approval.request == q && r.approval.approver == t.certificate.device
            && r.trust.recoveryHead == Some(r.approval)
            && r.trust.certificate == t.certificate
            && r.trust.installed == t.installed && r.trust.transitionHead == t.transitionHead
            && (r.trust.policy == t.policy || (t.policy.None? && r.trust.policy == Some(Genesis(q.package))))
            && (Filed(t.memberships) ==> Filed(r.trust.memberships))
            && (r.reused ==> r.trust == t)
            && (!r.reused ==> r.approval == NextRecoveryApproval(t, q, now) && HeadAdmits(t, q.package)
                              && PolicyAdmits(t, q.package))
            && ValidPackage(q.package) && q.package.account == t.certificate.account
            && Dominates(q.package, t.certificate, t.authority, t.memberships)
  {
    hide RecoveryApprovalFor, HeadAdmits, PolicyAdmits, Overlay, AuthorityInstalls, Authorizes, ValidPackage;
    OverlayFiled(t.memberships, q.package.memberships);
  }

  lemma ConfirmCovers(t: Trust, q: RecoveryRequest, now: nat)
    requires ApproveRecovery(t, q, now).Approved?
    requires t.recoveryHead.Some? ==> Covers(t, t.recoveryHead.value.request.package)
    ensures Covers(ApproveRecovery(t, q, now).trust, q.package)
  {
    hide RecoveryApprovalFor, HeadAdmits, PolicyAdmits, Overlay, AuthorityInstalls, Authorizes, Covers;
    if !ApproveRecovery(t, q, now).reused {
      StageCovers(t, q.package);
      CoverageOfMarks(Stage(t, q.package).value, ApproveRecovery(t, q, now).trust, q.package);
    }
  }

  lemma ConfirmKeepsCoverage(t: Trust, q: RecoveryRequest, now: nat, x: Package)
    requires ApproveRecovery(t, q, now).Approved? && Covers(t, x)
    ensures Covers(ApproveRecovery(t, q, now).trust, x)
  {
    hide RecoveryApprovalFor, HeadAdmits, PolicyAdmits, Overlay, AuthorityInstalls, Authorizes, Covers;
    if !ApproveRecovery(t, q, now).reused {
      StageKeepsCoverage(t, q.package, x);
      CoverageOfMarks(Stage(t, q.package).value, ApproveRecovery(t, q, now).trust, x);
    }
  }

  lemma AdvanceKeepsCoverage(t: Trust, authority: Authority, memberships: map<ConversationId, Membership>, x: Package)
    requires Advances(t, authority, memberships) && Covers(t, x)
    ensures Covers(t.(authority := authority, memberships := memberships), x)
  {
    hide ValidAuthority;
  }
}
