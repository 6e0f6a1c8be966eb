/** What every run keeps about roster transitions, and the agreement results that follow. */
module Agreement {
  import opened Basics
  import opened Identity
  import opened Voting
  import opened DeviceTrust
  import opened Chain
  import opened Network

  // ----- the invariant -----

  ghost predicate Placed(s: Network) {
    && s.published <= s.heads
    && forall d :: d in s.devices ==> s.devices[d].certificate.device == d && Filed(s.devices[d].memberships)
  }

  ghost predicate HeadsRecorded(s: Network) {
    forall d :: d in s.devices && s.devices[d].transitionHead.Some? ==> s.devices[d].transitionHead.value in s.heads
  }

  /** The approver's head is at this vote's old epoch or beyond, and at the same epoch it is this vote. */
  predicate Highest(a: TransitionApproval, devices: map<DeviceId, Trust>) {
    && a.approver in devices && devices[a.approver].transitionHead.Some?
    && var head := devices[a.approver].transitionHead.value;
       a.request.oldEpoch < head.request.oldEpoch || a == head
  }

  ghost predicate HeadsHighest(s: Network) {
    forall a :: a in s.heads ==> Highest(a, s.devices)
  }

  predicate SameBallot(a: TransitionApproval, b: TransitionApproval) {
    a.approver == b.approver && a.request.oldEpoch == b.request.oldEpoch
  }

  /** No device has voted twice at one old epoch. */
  ghost predicate OneVotePerEpoch(heads: set<TransitionApproval>) {
    forall a, b :: a in heads && b in heads && SameBallot(a, b) ==> a == b
  }

  /** Every old-roster vote continues a certified chain. */
  ghost predicate VotesChained(s: Network) {
    forall a :: a in s.heads && ActiveVoter(a.request.oldPackage, a.approver) ==> RequestChained(a.request, s.published)
  }

  ghost predicate PolicyChained(p: PolicyState, published: set<TransitionApproval>) {
    Chained(p.account, p.epoch, p.roster, p.latest, published)
  }

  ghost predicate PoliciesChained(s: Network) {
    forall d :: d in s.devices && s.devices[d].policy.Some? ==> PolicyChained(s.devices[d].policy.value, s.published)
  }

  /** A policy past genesis is exactly the one the stored certificate installs. */
  predicate CertificateStored(t: Trust) {
    t.policy.Some? && t.policy.value.epoch > 0 ==>
      t.installed.Some? && t.policy.value == Transitioned(t.installed.value)
  }

  ghost predicate CertificatesStored(s: Network) {
    forall d :: d in s.devices ==> CertificateStored(s.devices[d])
  }

  ghost predicate TransitionInvariant(s: Network) {
    && Placed(s) && HeadsRecorded(s) && HeadsHighest(s) && OneVotePerEpoch(s.heads)
    && VotesChained(s) && PoliciesChained(s) && CertificatesStored(s)
  }

  // ----- every step keeps it -----

  lemma PolicyChainedMonotone(p: PolicyState, published: set<TransitionApproval>, more: set<TransitionApproval>)
    requires published <= more && PolicyChained(p, published)
    ensures PolicyChained(p, more)
  {
    ChainedMonotone(p.account, p.epoch, p.roster, p.latest, published, more);
  }

  /** One device's new state, as far as policies are concerned. */
  ghost predicate InOrder(t: Trust, d: DeviceId, published: set<TransitionApproval>) {
    && t.certificate.device == d && Filed(t.memberships)
    && (t.policy.Some? ==> PolicyChained(t.policy.value, published))
    && CertificateStored(t)
  }

  lemma DevicesStayInOrder(s: Network, s': Network, d: DeviceId, t: Trust)
    requires Placed(s) && PoliciesChained(s) && CertificatesStored(s)
    requires s'.devices == s.devices[d := t] && s.published <= s'.published <= s'.heads
    requires InOrder(t, d, s'.published)
    ensures Placed(s') && PoliciesChained(s') && CertificatesStored(s')
  {
    hide PolicyChained, CertificateStored, Filed;
    forall e | e in s'.devices
      ensures InOrder(s'.devices[e], e, s'.published)
    {
      if e != d && s.devices[e].policy.Some? {
        PolicyChainedMonotone(s.devices[e].policy.value, s.published, s'.published);
      }
    }
  }

  lemma HeadsUntouched(s: Network, s': Network, d: DeviceId, t: Trust)
    requires HeadsRecorded(s) && HeadsHighest(s) && OneVotePerEpoch(s.heads) && VotesChained(s)
    requires s'.devices == s.devices[d := t] && s'.heads == s.heads && s'.published == s.published
    requires if d in s.devices then t.transitionHead == s.devices[d].transitionHead else t.transitionHead.None?
    ensures HeadsRecorded(s') && HeadsHighest(s') && OneVotePerEpoch(s'.heads) && VotesChained(s')
  {
    hide RequestChained, ActiveVoter, OneVotePerEpoch;
    assert HeadsHighest(s') by {
      forall a | a in s'.heads
        ensures Highest(a, s'.devices)
      {
        assert Highest(a, s.devices);
      }
    }
    hide Highest;
  }

  /** A step that adds no votes and changes one device keeps the invariant if that device stays in order. */
  lemma QuietStep(s: Network, s': Network, d: DeviceId, t: Trust)
    requires TransitionInvariant(s)
    requires s'.devices == s.devices[d := t] && s'.heads == s.heads && s'.published == s.published
    requires InOrder(t, d, s.published)
    requires if d in s.devices then t.transitionHead == s.devices[d].transitionHead else t.transitionHead.None?
    ensures TransitionInvariant(s')
  {
    assert s.published <= s.heads;
    hide HeadsRecorded, HeadsHighest, OneVotePerEpoch, VotesChained, PoliciesChained, CertificatesStored, InOrder,
         Placed;
    DevicesStayInOrder(s, s', d, t);
    HeadsUntouched(s, s', d, t);
  }

  /** The new vote becomes its device's highest. */
  lemma VoteIsHighest(s: Network, s': Network, d: DeviceId, t: Trust, a: TransitionApproval)
    requires HeadsHighest(s)
    requires s'.devices == s.devices[d := t] && s'.heads == s.heads + {a}
    requires d in s.devices && a.approver == d && t.transitionHead == Some(a)
    requires s.devices[d].transitionHead.Some? && s.devices[d].transitionHead.value != a ==>
               s.devices[d].transitionHead.value.request.oldEpoch < a.request.oldEpoch
    ensures HeadsHighest(s')
  {
    forall b | b in s'.heads
      ensures Highest(b, s'.devices)
    {
      assert b in s.heads ==> Highest(b, s.devices);
    }
  }

  lemma VoteIsOnly(heads: set<TransitionApproval>, a: TransitionApproval, devices: map<DeviceId, Trust>)
    requires OneVotePerEpoch(heads)
    requires a.approver in devices && devices[a.approver].transitionHead == Some(a)
    requires forall b :: b in heads ==> Highest(b, devices)
    ensures OneVotePerEpoch(heads + {a})
  {
    assert forall b :: b in heads && SameBallot(a, b) ==> a == b;
    assert forall b :: b in heads && SameBallot(b, a) ==> a == b;
    hide Highest;
  }

  lemma VoteRecorded(s: Network, s': Network, d: DeviceId, t: Trust, a: TransitionApproval)
    requires HeadsRecorded(s)
    requires s'.devices == s.devices[d := t] && s'.heads == s.heads + {a} && t.transitionHead == Some(a)
    ensures HeadsRecorded(s')
  {
  }

  lemma OldVotesHighest(s: Network, s': Network)
    requires HeadsHighest(s') && s.heads <= s'.heads
    ensures forall b :: b in s.heads ==> Highest(b, s'.devices)
  {
  }

  lemma VoteChains(s: Network, s': Network, a: TransitionApproval)
    requires VotesChained(s)
    requires s'.heads == s.heads + {a} && s.published <= s'.published
    requires ActiveVoter(a.request.oldPackage, a.approver) ==> RequestChained(a.request, s.published)
    ensures VotesChained(s')
  {
    hide Chained, ActiveVoter;
    forall b | b in s'.heads && ActiveVoter(b.request.oldPackage, b.approver)
      ensures RequestChained(b.request, s'.published)
    {
      ChainedMonotone(b.request.oldPackage.account, b.request.oldEpoch, b.request.oldPackage.deviceList,
                      b.request.previous,
                      s.published, s'.published);
    }
  }

  /** The voting device's own state: its vote is anchored, and so is any policy it gains. */
  lemma VoteInOrder(s: Network, d: DeviceId, q: TransitionRequest, now: nat)
    requires Placed(s) && PoliciesChained(s) && CertificatesStored(s)
    requires d in s.devices && ApproveTransition(s.devices[d], q, now).Approved?
    ensures InOrder(ApproveTransition(s.devices[d], q, now).trust, d, s.published)
    ensures ActiveVoter(q.oldPackage, d) ==> RequestChained(q, s.published)
  {
    hide Chained, ActiveVoter, ApproveTransition;
    VoteEffect(s.devices[d], q, now);
    GenesisChained(q.oldPackage, s.published);
    if ActiveVoter(q.oldPackage, d) {
      VoteIsAnchored(s.devices[d], q, now);
    }
  }

  lemma VoteStep(s: Network, s': Network, d: DeviceId, q: TransitionRequest, now: nat, publish: bool)
    requires TransitionInvariant(s) && Next(s, Vote(d, q, now, publish), s')
    ensures TransitionInvariant(s')
  {
    var t := s.devices[d];
    var r := ApproveTransition(t, q, now);
    assert s.published <= s.heads && t.certificate.device == d;
    hide HeadsRecorded, HeadsHighest, OneVotePerEpoch, VotesChained, PoliciesChained, CertificatesStored, InOrder,
         Placed,
         Chained, ActiveVoter, ApproveTransition;
    VoteEffect(t, q, now);
    VoteInOrder(s, d, q, now);
    VoteIsHighest(s, s', d, r.trust, r.approval);
    VoteRecorded(s, s', d, r.trust, r.approval);
    OldVotesHighest(s, s');
    VoteIsOnly(s.heads, r.approval, s'.devices);
    VoteChains(s, s', r.approval);
    InOrderMonotone(r.trust, d, s.published, s'.published);
    DevicesStayInOrder(s, s', d, r.trust);
  }

  lemma InOrderMonotone(t: Trust, d: DeviceId, published: set<TransitionApproval>, more: set<TransitionApproval>)
    requires published <= more && InOrder(t, d, published)
    ensures InOrder(t, d, more)
  {
    hide PolicyChained, CertificateStored;
    if t.policy.Some? {
      PolicyChainedMonotone(t.policy.value, published, more);
    }
  }

  lemma GenesisChained(p: Package, published: set<TransitionApproval>)
    ensures Chained(p.account, 0, p.deviceList, ZeroId, published)
    ensures PolicyChained(Genesis(p), published)
  {
  }

  /** A certified transition continues a chain, whoever installs it: some old voter stood on that chain. */
  lemma CertifiedContinues(s: Network, c: TransitionCertificate)
    requires TransitionInvariant(s) && Certified(c, s.published)
    ensures PolicyChained(Transitioned(c), s.published)
  {
    hide CertificateValid, ActiveVoter;
    var a := SomeOldVoter(c);
    assert a in s.heads;
    assert RequestChained(c.request, s.published);
  }

  lemma AdoptInOrder(s: Network, d: DeviceId, c: TransitionCertificate)
    requires Placed(s) && PoliciesChained(s) && CertificatesStored(s)
    requires d in s.devices && Install(s.devices[d], c).Some?
    requires PolicyChained(Transitioned(c), s.published)
    ensures InOrder(Install(s.devices[d], c).value, d, s.published)
  {
    hide Install, CertificateValid, PolicyChained, Anchors;
    InstallEffect(s.devices[d], c);
  }

  lemma AdoptStep(s: Network, s': Network, d: DeviceId, c: TransitionCertificate)
    requires TransitionInvariant(s) && Next(s, Adopt(d, c), s')
    ensures TransitionInvariant(s')
  {
    InstallEffect(s.devices[d], c);
    CertifiedContinues(s, c);
    AdoptInOrder(s, d, c);
    hide TransitionInvariant, Install, CertificateValid, InOrder, Anchors;
    QuietStep(s, s', d, Install(s.devices[d], c).value);
  }

  lemma ConfirmStep(s: Network, s': Network, d: DeviceId, q: RecoveryRequest, now: nat, publish: bool)
    requires TransitionInvariant(s) && Next(s, Confirm(d, q, now, publish), s')
    ensures TransitionInvariant(s')
  {
    hide ApproveRecovery, Chained, ValidPackage, Dominates, HeadAdmits, PolicyAdmits;
    ConfirmEffect(s.devices[d], q, now);
    GenesisChained(q.package, s.published);
    QuietStep(s, s', d, ApproveRecovery(s.devices[d], q, now).trust);
  }

  lemma StepKeepsInvariant(s: Network, step: Step, s': Network)
    requires TransitionInvariant(s) && Next(s, step, s')
    ensures TransitionInvariant(s')
  {
    match step
    case Enroll(d, t) =>
      hide PolicyChained, RequestChained, ActiveVoter;
      QuietStep(s, s', d, t);
    case Advance(d, authority, memberships) =>
      hide PolicyChained, RequestChained, ActiveVoter, AuthorityLe;
      QuietStep(s, s', d, s.devices[d].(authority := authority, memberships := memberships));
    case Vote(d, q, now, publish) => VoteStep(s, s', d, q, now, publish);
    case Adopt(d, c) => AdoptStep(s, s', d, c);
    case Confirm(d, q, now, publish) => ConfirmStep(s, s', d, q, now, publish);
  }

  lemma EmptyInvariant()
    ensures TransitionInvariant(EMPTY)
  {
  }

  /** The invariant holds at every moment of every run. */
  lemma {:induction false} RunKeepsInvariant(trace: seq<Network>, k: nat)
    requires Run(trace) && k < |trace|
    ensures TransitionInvariant(trace[k])
    decreases k
  {
    EmptyInvariant();
    hide TransitionInvariant, Next;
    if k > 0 {
      RunKeepsInvariant(trace, k - 1);
      assert Steps(trace[k - 1], trace[k - 1 + 1]);
      var step :| Next(trace[k - 1], step, trace[k]);
      StepKeepsInvariant(trace[k - 1], step, trace[k]);
    }
  }

  // ----- results -----

  /**
   Two certificates for one account, old epoch and old roster certify the same request: the two old
   majorities share a device, and no device ever votes twice at one old epoch.
   */
  lemma OneRequestPerEpoch(trace: seq<Network>, k: nat, c: TransitionCertificate, d: TransitionCertificate)
    requires Run(trace) && k < |trace|
    requires Certified(c, trace[k].published) && Certified(d, trace[k].published)
    requires c.request.oldEpoch == d.request.oldEpoch
    requires c.request.oldPackage.deviceList == d.request.oldPackage.deviceList
    ensures c.request == d.request
  {
    RunKeepsInvariant(trace, k);
    SharedVoterDecides(trace[k], c, d);
  }

  lemma SharedVoterDecides(s: Network, c: TransitionCertificate, d: TransitionCertificate)
    requires TransitionInvariant(s)
    requires Certified(c, s.published) && Certified(d, s.published)
    requires c.request.oldEpoch == d.request.oldEpoch
    requires c.request.oldPackage.deviceList == d.request.oldPackage.deviceList
    ensures c.request == d.request
  {
    assert OneVotePerEpoch(s.heads) && s.published <= s.heads;
    hide ActiveVoter, TransitionInvariant, VerifyStatic;
    var (first, second) := (c.request.oldPackage, d.request.oldPackage);
    OldRosterSorted(c);
    RosterSize(first.deviceList.devices);
    VotersAreRosterDevices(first, ApproverIds(c.approvals));
    VotersAreRosterDevices(second, ApproverIds(d.approvals));
    var common := MajoritiesMeet(Roster(first.deviceList), Voters(first, ApproverIds(c.approvals)),
                                 Voters(second, ApproverIds(d.approvals)));
    var a := VoterApproval(first, c.approvals, common);
    var b := VoterApproval(second, d.approvals, common);
    assert ApprovalFor(a, c.request) && ApprovalFor(b, d.request);
    assert a in s.heads && b in s.heads && SameBallot(a, b);
  }

  lemma OldRosterSorted(c: TransitionCertificate)
    requires CertificateValid(c)
    ensures CertificatesSorted(c.request.oldPackage.deviceList.devices)
  {
  }

  /**
   An anchor at epoch `e`, on any device, rests on exactly `e` certified transitions, unbroken from
   an epoch-0 roster, even when the device installed its anchor with none before it.
   */
  lemma AnchorRestsOnChain(trace: seq<Network>, k: nat, d: DeviceId)
    requires Run(trace) && k < |trace|
    requires d in trace[k].devices && trace[k].devices[d].policy.Some?
    ensures var p := trace[k].devices[d].policy.value;
            var genesis := GenesisRoster(p.roster, p.latest);
            && |Certificates(p.latest)| == p.epoch
            && Unbroken(p.account, genesis, Certificates(p.latest), trace[k].published)
            && RosterAfter(genesis, Certificates(p.latest)) == p.roster
            && IdAfter(Certificates(p.latest)) == p.latest
  {
    RunKeepsInvariant(trace, k);
    var p := trace[k].devices[d].policy.value;
    ChainIsUnbroken(p.account, p.epoch, p.roster, p.latest, trace[k].published);
  }

  /** Chains from one genesis roster agree: same rosters, same requests, and every certificate but the last the same. */
  lemma {:induction false} ChainsAgree(s: Network, account: AccountId, epoch: nat, r1: DeviceList, id1: TransitionId,
                                       r2: DeviceList, id2: TransitionId)
    requires TransitionInvariant(s)
    requires Chained(account, epoch, r1, id1, s.published) && Chained(account, epoch, r2, id2, s.published)
    requires GenesisRoster(r1, id1) == GenesisRoster(r2, id2)
    ensures r1 == r2
    ensures epoch > 0 ==> id1.CertificateId? && id2.CertificateId? && id1.certificate.request == id2.certificate.request
    decreases epoch
  {
    hide TransitionInvariant, CertificateValid;
    if epoch > 0 {
      var (q1, q2) := (id1.certificate.request, id2.certificate.request);
      ChainsAgree(s, account, epoch - 1, q1.oldPackage.deviceList, q1.previous, q2.oldPackage.deviceList, q2.previous);
      SharedVoterDecides(s, id1.certificate, id2.certificate);
    }
  }

  /** From one genesis roster there is at most one roster, and one certified request, at each epoch. */
  lemma OneRosterPerEpoch(trace: seq<Network>, k: nat, d: DeviceId, e: DeviceId)
    requires Run(trace) && k < |trace|
    requires d in trace[k].devices && trace[k].devices[d].policy.Some?
    requires e in trace[k].devices && trace[k].devices[e].policy.Some?
    requires var (p, q) := (trace[k].devices[d].policy.value, trace[k].devices[e].policy.value);
             && p.account == q.account && p.epoch == q.epoch
             && GenesisRoster(p.roster, p.latest) == GenesisRoster(q.roster, q.latest)
    ensures var (p, q) := (trace[k].devices[d].policy.value, trace[k].devices[e].policy.value);
            && p.roster == q.roster
            && (p.epoch > 0 ==> && p.latest.CertificateId? && q.latest.CertificateId?
                                && p.latest.certificate.request == q.latest.certificate.request)
  {
    RunKeepsInvariant(trace, k);
    var (p, q) := (trace[k].devices[d].policy.value, trace[k].devices[e].policy.value);
    assert PolicyChained(p, trace[k].published) && PolicyChained(q, trace[k].published);
    ChainsAgree(trace[k], p.account, p.epoch, p.roster, p.latest, q.roster, q.latest);
  }

  /** Votes and devices are never forgotten, and no policy epoch ever decreases. */
  ghost predicate Grows(s: Network, s': Network) {
    && s.heads <= s'.heads && s.published <= s'.published
    && forall d :: d in s.devices ==> d in s'.devices && PolicyGrows(s.devices[d], s'.devices[d])
  }

  predicate PolicyGrows(t: Trust, u: Trust) {
    t.policy.Some? ==> u.policy.Some? && (u.policy == t.policy || t.policy.value.epoch < u.policy.value.epoch)
  }

  lemma StepGrows(s: Network, step: Step, s': Network)
    requires Next(s, step, s')
    ensures Grows(s, s')
  {
    hide ApproveTransition, ApproveRecovery, Install, Dominates, ValidPackage, CertificateValid, HeadAdmits,
         PolicyAdmits,
         VerifyStatic, Filed;
    match step
    case Enroll(d, t) =>
    case Advance(d, authority, memberships) =>
    case Vote(d, q, now, publish) => VoteEffect(s.devices[d], q, now);
    case Adopt(d, c) => InstallEffect(s.devices[d], c);
    case Confirm(d, q, now, publish) => ConfirmEffect(s.devices[d], q, now);
  }

  lemma GrowsReflexive(s: Network)
    ensures Grows(s, s)
  {
  }

  lemma GrowsTransitive(s: Network, s': Network, s'': Network)
    requires Grows(s, s') && Grows(s', s'')
    ensures Grows(s, s'')
  {
    forall d | d in s.devices
      ensures d in s''.devices && PolicyGrows(s.devices[d], s''.devices[d])
    {
      assert PolicyGrows(s.devices[d], s'.devices[d]);
    }
  }

  lemma {:induction false} RunGrows(trace: seq<Network>, i: nat, j: nat)
    requires Run(trace) && i <= j < |trace|
    ensures Grows(trace[i], trace[j])
    decreases j - i
  {
    hide Next, Grows;
    if i == j {
      GrowsReflexive(trace[i]);
    } else {
      RunGrows(trace, i, j - 1);
      assert Steps(trace[j - 1], trace[j - 1 + 1]);
      var step :| Next(trace[j - 1], step, trace[j]);
      StepGrows(trace[j - 1], step, trace[j]);
      GrowsTransitive(trace[i], trace[j - 1], trace[j]);
    }
  }

  /** A device's policy epoch never decreases, and past genesis its policy is the stored certificate's. */
  lemma EpochNeverDecreases(trace: seq<Network>, i: nat, j: nat, d: DeviceId)
    requires Run(trace) && i <= j < |trace| && d in trace[i].devices
    ensures d in trace[j].devices && PolicyGrows(trace[i].devices[d], trace[j].devices[d])
    ensures CertificateStored(trace[j].devices[d])
  {
    RunGrows(trace, i, j);
    RunKeepsInvariant(trace, j);
  }

  /**
   A device that voted in the old roster stays anchored: it never enters through the branch for devices
   without a policy again, and whatever it installs later starts where its vote did or beyond.
   */
  lemma VoterStaysAnchored(trace: seq<Network>, i: nat, j: nat, d: DeviceId, q: TransitionRequest, now: nat,
                           publish: bool,
                           c: TransitionCertificate)
    requires Run(trace) && i < j < |trace| && Next(trace[i], Vote(d, q, now, publish), trace[i + 1])
    requires !ApproveTransition(trace[i].devices[d], q, now).reused && ActiveVoter(q.oldPackage, d)
    ensures d in trace[j].devices
    ensures var policy := trace[j].devices[d].policy;
            policy.Some? && (Anchors(policy.value, q) || q.oldEpoch < policy.value.epoch)
    ensures var (t, u) := (trace[j].devices[d], Install(trace[j].devices[d], c));
            u.Some? && u.value.policy != t.policy ==>
              && q.oldEpoch <= c.request.oldEpoch
              && (q.oldEpoch == c.request.oldEpoch ==>
                    c.request.previous == q.previous && c.request.oldPackage.deviceList == q.oldPackage.deviceList)
  {
    RunKeepsInvariant(trace, i);
    assert trace[i].devices[d].certificate.device == d;
    hide TransitionInvariant, ApproveTransition, ActiveVoter, Install, CertificateValid;
    VoteAnchors(trace[i].devices[d], q, now);
    hide Next;
    EpochNeverDecreases(trace, i + 1, j, d);
    if Install(trace[j].devices[d], c).Some? {
      InstallEffect(trace[j].devices[d], c);
    }
  }

  /** A device that approved a new checkpoint keeps a policy over its roster until it moves to a later epoch. */
  lemma ConfirmerStaysAnchored(trace: seq<Network>, i: nat, j: nat, d: DeviceId, q: RecoveryRequest, now: nat,
                               publish: bool)
    requires Run(trace) && i < j < |trace| && Next(trace[i], Confirm(d, q, now, publish), trace[i + 1])
    requires !ApproveRecovery(trace[i].devices[d], q, now).reused
    ensures d in trace[j].devices && d in trace[i + 1].devices
    ensures var (first, policy) := (trace[i + 1].devices[d].policy, trace[j].devices[d].policy);
            && first.Some? && policy.Some?
            && (policy.value.roster == q.package.deviceList || first.value.epoch < policy.value.epoch)
  {
    hide ApproveRecovery;
    ConfirmAnchors(trace[i].devices[d], q, now);
    hide Next;
    EpochNeverDecreases(trace, i + 1, j, d);
  }

  /** Whatever a device published was its durable head at that moment or before. */
  lemma {:induction false} PublishedWasHead(trace: seq<Network>, k: nat, a: TransitionApproval) returns (j: nat)
    requires Run(trace) && k < |trace| && a in trace[k].published
    ensures j <= k && a.approver in trace[j].devices && trace[j].devices[a.approver].transitionHead == Some(a)
    decreases k
  {
    assert k > 0;
    if a in trace[k - 1].published {
      j := PublishedWasHead(trace, k - 1, a);
    } else {
      assert Steps(trace[k - 1], trace[k - 1 + 1]);
      var step :| Next(trace[k - 1], step, trace[k]);
      hide ApproveTransition, ApproveRecovery, Install;
      RunKeepsInvariant(trace, k - 1);
      VoteEffect(trace[k - 1].devices[step.device], step.transition, step.now);
      j := k;
    }
  }

  /** A device's transition heads form one chain: each names the one before it and votes at a later old epoch. */
  lemma HeadsLinked(trace: seq<Network>, i: nat, d: DeviceId)
    requires Run(trace) && i + 1 < |trace| && d in trace[i].devices && d in trace[i + 1].devices
    requires trace[i + 1].devices[d].transitionHead != trace[i].devices[d].transitionHead
    ensures trace[i + 1].devices[d].transitionHead.Some?
    ensures var (head, next) := (trace[i].devices[d].transitionHead, trace[i + 1].devices[d].transitionHead.value);
            && next.approver == d && next.previous == (if head.Some? then ApprovalIdOf(head.value) else NoApproval)
            && (head.Some? ==> head.value.request.oldEpoch < next.request.oldEpoch)
  {
    RunKeepsInvariant(trace, i);
    assert Steps(trace[i], trace[i + 1]);
    var step :| Next(trace[i], step, trace[i + 1]);
    assert Placed(trace[i]);
    hide TransitionInvariant;
    HeadLink(trace[i], step, trace[i + 1], d);
  }

  lemma HeadLink(s: Network, step: Step, s': Network, d: DeviceId)
    requires Placed(s) && Next(s, step, s') && d in s.devices && d in s'.devices
    requires s'.devices[d].transitionHead != s.devices[d].transitionHead
    ensures s'.devices[d].transitionHead.Some?
    ensures var (head, next) := (s.devices[d].transitionHead, s'.devices[d].transitionHead.value);
            && next.approver == d && next.previous == (if head.Some? then ApprovalIdOf(head.value) else NoApproval)
            && (head.Some? ==> head.value.request.oldEpoch < next.request.oldEpoch)
  {
    hide ApproveTransition, ApproveRecovery, Install, Dominates, ValidPackage, HeadAdmits, PolicyAdmits, Covers,
         CertificateValid;
    match step
    case Enroll(_, _) =>
    case Advance(_, _, _) =>
    case Vote(e, q, now, publish) => VoteEffect(s.devices[e], q, now);
    case Adopt(e, c) => InstallEffect(s.devices[e], c);
    case Confirm(e, q, now, publish) => ConfirmEffect(s.devices[e], q, now);
  }

  lemma VoteIsValid(t: Trust, q: TransitionRequest, now: nat)
    requires ApproveTransition(t, q, now).Approved?
    ensures ApprovalFor(ApproveTransition(t, q, now).approval, q)
  {
    hide Dominates, AnchorAccepted, VerifyStatic, Overlay, AuthorityInstalls;
  }

  lemma {:induction false} HeadsApprove(trace: seq<Network>, k: nat, a: TransitionApproval)
    requires Run(trace) && k < |trace| && a in trace[k].heads
    ensures ApprovalFor(a, a.request)
    decreases k
  {
    assert k > 0;
    if a in trace[k - 1].heads {
      HeadsApprove(trace, k - 1, a);
    } else {
      assert Steps(trace[k - 1], trace[k - 1 + 1]);
      hide ApproveTransition, ApproveRecovery, Install, ApprovalFor, Certified, Covers, ValidPackage;
      var step :| Next(trace[k - 1], step, trace[k]);
      VoteIsValid(trace[k - 1].devices[step.device], step.transition, step.now);
      VoteEffect(trace[k - 1].devices[step.device], step.transition, step.now);
    }
  }

  /**
   A device never signs two approvals of one request, however often it crashes and retries: a retry is
   answered exactly while the approval is still the head, and then with that approval and no change.
   */
  lemma RetryIsIdentical(trace: seq<Network>, i: nat, j: nat, a: TransitionApproval, now: nat)
    requires Run(trace) && i <= j < |trace| && a in trace[i].heads
    requires a.approver in trace[j].devices
    ensures var t := trace[j].devices[a.approver];
            var r := ApproveTransition(t, a.request, now);
            && (r.Approved? <==> t.transitionHead == Some(a) && MayVote(t, a.request, now))
            && (r.Approved? ==> r.approval == a && r.trust == t)
  {
    RunKeepsInvariant(trace, j);
    RunGrows(trace, i, j);
    HeadsApprove(trace, i, a);
    RetryFrom(trace[j], a, now);
  }

  lemma RetryFrom(s: Network, a: TransitionApproval, now: nat)
    requires TransitionInvariant(s) && a in s.heads && a.approver in s.devices && ApprovalFor(a, a.request)
    ensures var t := s.devices[a.approver];
            var r := ApproveTransition(t, a.request, now);
            && (r.Approved? <==> t.transitionHead == Some(a) && MayVote(t, a.request, now))
            && (r.Approved? ==> r.approval == a && r.trust == t)
  {
    assert Highest(a, s.devices);
    hide TransitionInvariant, MayVote, ApprovalFor, Stage;
  }
}
