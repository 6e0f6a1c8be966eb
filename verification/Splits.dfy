/**
 Split anchors. Two certificates of one request that carry different approvals have different IDs, so
 devices that installed different ones continue different chains. What follows from that, over runs.
 */
module Splits {
  import opened Basics
  import opened Identity
  import opened Voting
  import opened DeviceTrust
  import opened Chain
  import opened Network
  import opened Agreement

  /** The certificates a device's anchor rests on, oldest first. */
  function Line(t: Trust): seq<TransitionCertificate> {
    if t.policy.Some? then Certificates(t.policy.value.latest) else []
  }

  /** Neither device's line continues the other's. */
  predicate Split(t: Trust, u: Trust) {
    !(Line(t) <= Line(u)) && !(Line(u) <= Line(t))
  }

  // ----- a line only ever grows -----

  lemma VoteExtends(t: Trust, q: TransitionRequest, now: nat)
    requires ApproveTransition(t, q, now).Approved?
    ensures Line(t) <= Line(ApproveTransition(t, q, now).trust)
  {
    hide ApproveTransition;
    VoteEffect(t, q, now);
  }

  lemma InstallExtends(t: Trust, c: TransitionCertificate)
    requires Install(t, c).Some?
    ensures Line(t) <= Line(Install(t, c).value)
  {
    hide Install, CertificateValid;
    InstallEffect(t, c);
  }

  lemma ConfirmExtends(t: Trust, q: RecoveryRequest, now: nat)
    requires ApproveRecovery(t, q, now).Approved?
    ensures Line(t) <= Line(ApproveRecovery(t, q, now).trust)
  {
    hide ApproveRecovery, HeadAdmits, PolicyAdmits, ValidPackage, Dominates;
    ConfirmEffect(t, q, now);
  }

  lemma StepExtends(s: Network, step: Step, s': Network, d: DeviceId)
    requires Next(s, step, s') && d in s.devices
    ensures d in s'.devices && Line(s.devices[d]) <= Line(s'.devices[d])
  {
    hide ApproveTransition, ApproveRecovery, Install, Certified, Advances, FreshTrust;
    if step.device == d {
      match step
      case Enroll(_, _) =>
      case Advance(_, _, _) =>
      case Vote(_, q, now, publish) => VoteExtends(s.devices[d], q, now);
      case Adopt(_, c) => InstallExtends(s.devices[d], c);
      case Confirm(_, q, now, publish) => ConfirmExtends(s.devices[d], q, now);
    }
  }

  lemma {:induction false} RunExtends(trace: seq<Network>, i: nat, j: nat, d: DeviceId)
    requires Run(trace) && i <= j < |trace| && d in trace[i].devices
    ensures d in trace[j].devices && Line(trace[i].devices[d]) <= Line(trace[j].devices[d])
    decreases j - i
  {
    hide Next, Line;
    if i < j {
      RunExtends(trace, i, j - 1, d);
      assert Steps(trace[j - 1], trace[j - 1 + 1]);
      var step :| Next(trace[j - 1], step, trace[j]);
      StepExtends(trace[j - 1], step, trace[j], d);
    }
  }

  // ----- a split is for ever -----

  lemma PrefixesOfOne<T>(a: seq<T>, b: seq<T>, whole: seq<T>)
    requires a <= whole && b <= whole
    ensures a <= b || b <= a
  {
    if |a| <= |b| {
      assert forall i :: 0 <= i < |a| ==> a[i] == whole[i] == b[i];
    } else {
      assert forall i :: 0 <= i < |b| ==> b[i] == whole[i] == a[i];
    }
  }

  /** Once split, two devices hold different anchors at any later moments, however they go on. */
  lemma SplitForever(trace: seq<Network>, i: nat, j: nat, k: nat, d: DeviceId, e: DeviceId)
    requires Run(trace) && i <= j < |trace| && i <= k < |trace|
    requires d in trace[i].devices && e in trace[i].devices && Split(trace[i].devices[d], trace[i].devices[e])
    ensures d in trace[j].devices && e in trace[k].devices && Split(trace[j].devices[d], trace[k].devices[e])
    ensures trace[j].devices[d].policy != trace[k].devices[e].policy
  {
    RunExtends(trace, i, j, d);
    RunExtends(trace, i, k, e);
    var (a, b) := (Line(trace[i].devices[d]), Line(trace[i].devices[e]));
    var (a', b') := (Line(trace[j].devices[d]), Line(trace[k].devices[e]));
    hide Line;
    if a' <= b' {
      PrefixesOfOne(a, b, b');
    }
    if b' <= a' {
      PrefixesOfOne(a, b, a');
    }
  }

  /** An old-roster vote is for the line its device is on. */
  lemma VoteOnLine(t: Trust, q: TransitionRequest, now: nat)
    requires ApproveTransition(t, q, now).Approved? && ActiveVoter(q.oldPackage, t.certificate.device)
    ensures Line(t) == Certificates(q.previous)
  {
    VoteIsAnchored(t, q, now);
    hide ApproveTransition, ActiveVoter;
  }

  /**
   After a split no request ever gets both devices as old-roster voters, unless both votes were cast
   before it.
   */
  lemma SplitNeverVotesTogether(trace: seq<Network>, i: nat, j: nat, k: nat, d: DeviceId, e: DeviceId,
                                q: TransitionRequest, now: nat, later: nat)
    requires Run(trace) && i < |trace| && j < |trace| && i <= k < |trace|
    requires d in trace[i].devices && e in trace[i].devices && Split(trace[i].devices[d], trace[i].devices[e])
    requires d in trace[j].devices && e in trace[k].devices
    requires ActiveVoter(q.oldPackage, d) && ActiveVoter(q.oldPackage, e)
    ensures ApproveTransition(trace[j].devices[d], q, now).Refused?
            || ApproveTransition(trace[k].devices[e], q, later).Refused?
  {
    RunKeepsInvariant(trace, j);
    RunKeepsInvariant(trace, k);
    assert trace[j].devices[d].certificate.device == d && trace[k].devices[e].certificate.device == e;
    hide TransitionInvariant, ApproveTransition, ActiveVoter, Line;
    RunExtends(trace, i, k, e);
    if j < i {
      RunExtends(trace, j, i, d);
    } else {
      RunExtends(trace, i, j, d);
    }
    if ApproveTransition(trace[j].devices[d], q, now).Approved?
        && ApproveTransition(trace[k].devices[e], q, later).Approved? {
      VoteOnLine(trace[j].devices[d], q, now);
      VoteOnLine(trace[k].devices[e], q, later);
      var (before, after) := (Line(trace[i].devices[d]), Line(trace[j].devices[d]));
      PrefixesOfOne(if j < i then after else before, Line(trace[i].devices[e]), after);
    }
  }

  /** Every check on a vote except the anchor. */
  predicate Eligible(t: Trust, q: TransitionRequest, now: nat) {
    && Current(q, now)
    && (Authorizes(q.oldPackage, t.certificate) || Authorizes(q.newPackage, t.certificate))
    && Dominates(VotingPackage(t, q), t.certificate, t.authority, t.memberships)
  }

  /** Two anchored old-roster voters are admitted together exactly when both hold the one anchor the request names. */
  lemma AdmittedTogether(t: Trust, u: Trust, q: TransitionRequest, now: nat, later: nat)
    requires t.policy.Some? && u.policy.Some? && VerifyStatic(q)
    requires ActiveVoter(q.oldPackage, t.certificate.device) && ActiveVoter(q.oldPackage, u.certificate.device)
    ensures MayVote(t, q, now) && MayVote(u, q, later) <==>
            && Eligible(t, q, now) && Eligible(u, q, later) && t.policy == u.policy
            && t.policy.value == PolicyState(q.oldPackage.account, q.oldEpoch, q.oldPackage.deviceList, q.previous)
  {
    if Authorizes(q.oldPackage, t.certificate) || Authorizes(q.newPackage, t.certificate) {
      OldVoterIsExact(t, q);
    }
    if Authorizes(q.oldPackage, u.certificate) || Authorizes(q.newPackage, u.certificate) {
      OldVoterIsExact(u, q);
    }
    hide ActiveVoter, Authorizes, Dominates, VerifyStatic, VotingPackage;
  }

  // ----- a split can stop an account for good -----

  predicate VoteBehind(a: TransitionApproval, devices: map<DeviceId, Trust>) {
    ActiveVoter(a.request.oldPackage, a.approver) ==>
      a.approver in devices && Certificates(a.request.previous) <= Line(devices[a.approver])
  }

  /** Every old-roster voter is still on the line it voted to continue. */
  ghost predicate VotesBehind(s: Network) {
    forall a :: a in s.heads ==> VoteBehind(a, s.devices)
  }

  lemma StepKeepsBehind(s: Network, step: Step, s': Network)
    requires Placed(s) && VotesBehind(s) && Next(s, step, s')
    ensures VotesBehind(s')
  {
    forall a | a in s'.heads
      ensures VoteBehind(a, s'.devices)
    {
      if a in s.heads {
        OldVoteBehind(s, step, s', a);
      } else {
        NewVoteBehind(s, step, s', a);
      }
    }
  }

  lemma OldVoteBehind(s: Network, step: Step, s': Network, a: TransitionApproval)
    requires VotesBehind(s) && Next(s, step, s') && a in s.heads
    ensures VoteBehind(a, s'.devices)
  {
    hide Next, ActiveVoter, Line;
    assert VoteBehind(a, s.devices);
    if ActiveVoter(a.request.oldPackage, a.approver) {
      StepExtends(s, step, s', a.approver);
    }
  }

  lemma NewVoteBehind(s: Network, step: Step, s': Network, a: TransitionApproval)
    requires Placed(s) && Next(s, step, s') && a in s'.heads && a !in s.heads
    ensures VoteBehind(a, s'.devices)
  {
    var t := s.devices[step.device];
    assert step.Vote? && t.certificate.device == step.device;
    hide ApproveTransition, ActiveVoter, Line;
    VoteEffect(t, step.transition, step.now);
    if ActiveVoter(a.request.oldPackage, a.approver) {
      VoteOnLine(t, step.transition, step.now);
      VoteExtends(t, step.transition, step.now);
    }
  }

  lemma {:induction false} RunVotesBehind(trace: seq<Network>, k: nat)
    requires Run(trace) && k < |trace|
    ensures VotesBehind(trace[k])
    decreases k
  {
    if k > 0 {
      RunKeepsInvariant(trace, k - 1);
      assert Placed(trace[k - 1]);
      hide TransitionInvariant, Next, VotesBehind, Placed;
      RunVotesBehind(trace, k - 1);
      assert Steps(trace[k - 1], trace[k - 1 + 1]);
      var step :| Next(trace[k - 1], step, trace[k]);
      StepKeepsBehind(trace[k - 1], step, trace[k]);
    }
  }

  /** The roster devices that can still be on a line that starts with these certificates. */
  function Candidates(s: Network, l: DeviceList, cs: seq<TransitionCertificate>): set<DeviceId> {
    set d | d in Roster(l) && (d in s.devices ==> Line(s.devices[d]) <= cs || cs <= Line(s.devices[d]))
  }

  /** No one line to this epoch can still have a majority of the roster on it. */
  ghost predicate NoQuorum(s: Network, l: DeviceList, epoch: nat) {
    forall cs :: |cs| == epoch ==> |Candidates(s, l, cs)| < Required(|l.devices|)
  }

  /** The roster devices whose line starts with these certificates. */
  function Holders(s: Network, l: DeviceList, cs: seq<TransitionCertificate>): set<DeviceId> {
    set d | d in Roster(l) && d in s.devices && cs <= Line(s.devices[d])
  }

  /** The roster devices that have still to reach an epoch. */
  function Undecided(s: Network, l: DeviceList, epoch: nat): set<DeviceId> {
    set d | d in Roster(l) && (d !in s.devices || |Line(s.devices[d])| < epoch)
  }

  /** Counted out: no line's holders are a majority even with every device that has still to reach the epoch. */
  lemma NoQuorumByCount(s: Network, l: DeviceList, epoch: nat)
    requires forall cs :: |cs| == epoch ==> |Holders(s, l, cs)| + |Undecided(s, l, epoch)| < Required(|l.devices|)
    ensures NoQuorum(s, l, epoch)
  {
    forall cs: seq<TransitionCertificate> | |cs| == epoch
      ensures |Candidates(s, l, cs)| < Required(|l.devices|)
    {
      CandidatesHoldOrWait(s, l, cs);
      hide Candidates, Holders, Undecided;
      SubsetCardinality(Candidates(s, l, cs), Holders(s, l, cs) + Undecided(s, l, epoch));
      assert |Holders(s, l, cs) + Undecided(s, l, epoch)| <= |Holders(s, l, cs)| + |Undecided(s, l, epoch)|;
    }
  }

  lemma CandidatesHoldOrWait(s: Network, l: DeviceList, cs: seq<TransitionCertificate>)
    ensures Candidates(s, l, cs) <= Holders(s, l, cs) + Undecided(s, l, |cs|)
  {
    hide Line, Roster;
    forall d | d in Candidates(s, l, cs)
      ensures d in Holders(s, l, cs) + Undecided(s, l, |cs|)
    {
      if d in s.devices && |Line(s.devices[d])| >= |cs| && Line(s.devices[d]) <= cs {
        assert Line(s.devices[d]) == cs[..|cs|] == cs;
      }
    }
  }

  /** The old-roster voters of a certificate could all be on the line it continues at every earlier moment. */
  lemma VotersWereCandidates(trace: seq<Network>, i: nat, k: nat, l: DeviceList, c: TransitionCertificate)
    requires Run(trace) && i <= k < |trace|
    requires Certified(c, trace[k].published) && c.request.oldPackage.deviceList == l
    ensures |Certificates(c.request.previous)| == c.request.oldEpoch
    ensures Voters(c.request.oldPackage, ApproverIds(c.approvals)) <=
            Candidates(trace[i], l, Certificates(c.request.previous))
  {
    RunKeepsInvariant(trace, k);
    RunVotesBehind(trace, k);
    LineLength(trace[k], c);
    assert trace[k].published <= trace[k].heads;
    var cs := Certificates(c.request.previous);
    VotersAreRosterDevices(c.request.oldPackage, ApproverIds(c.approvals));
    hide TransitionInvariant, ActiveVoter, VerifyStatic, Line, Roster;
    forall d | d in Voters(c.request.oldPackage, ApproverIds(c.approvals))
      ensures d in Candidates(trace[i], l, cs)
    {
      if d in trace[i].devices {
        var a := VoterApproval(c.request.oldPackage, c.approvals, d);
        assert ApprovalFor(a, c.request) && VoteBehind(a, trace[k].devices);
        RunExtends(trace, i, k, d);
        PrefixesOfOne(cs, Line(trace[i].devices[d]), Line(trace[k].devices[d]));
      }
    }
  }

  lemma LineLength(s: Network, c: TransitionCertificate)
    requires TransitionInvariant(s) && Certified(c, s.published)
    ensures |Certificates(c.request.previous)| == c.request.oldEpoch
  {
    CertifiedContinues(s, c);
    hide TransitionInvariant, CertificateValid;
    var q := c.request;
    ChainIsUnbroken(q.oldPackage.account, q.oldEpoch, q.oldPackage.deviceList, q.previous, s.published);
  }

  /**
   If no single line can still have a majority of a roster's devices on it, no transition from that
   roster and epoch is certified, at any later moment of any run.
   */
  lemma NoQuorumNoTransition(trace: seq<Network>, i: nat, k: nat, l: DeviceList, c: TransitionCertificate)
    requires Run(trace) && i <= k < |trace| && NoQuorum(trace[i], l, c.request.oldEpoch)
    requires c.request.oldPackage.deviceList == l
    ensures !Certified(c, trace[k].published)
  {
    if Certified(c, trace[k].published) {
      VotersWereCandidates(trace, i, k, l, c);
      hide Voters, Candidates, VerifyStatic, ApprovalFor, Line, Roster;
      SubsetCardinality(Voters(c.request.oldPackage, ApproverIds(c.approvals)),
                        Candidates(trace[i], l, Certificates(c.request.previous)));
    }
  }
}
