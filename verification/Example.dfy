/** A shortest complete roster change: one device, a second one joins, both vote, and the first installs. */
module Example {
  import opened Basics
  import opened Identity
  import opened Voting
  import opened DeviceTrust
  import opened Chain
  import opened Network

  const FIRST: DeviceCertificate := DeviceCertificate(0, 1, 0, true, 0)
  const SECOND: DeviceCertificate := DeviceCertificate(0, 2, 1, true, 0)
  const EARLIER: Authority := Authority(0, 1, [])
  const LATER: Authority := Authority(0, 2, [])
  const ALONE: Package := Package(0, EARLIER, DeviceList(EARLIER, [FIRST]), [])
  const TOGETHER: Package := Package(0, LATER, DeviceList(LATER, [FIRST, SECOND]), [])
  const CHANGE: TransitionRequest := TransitionRequest(0, ZeroId, ALONE, TOGETHER, 0, 0, 10)
  const CHECKPOINT: RecoveryRequest := RecoveryRequest(ALONE, 0, 0, 10)

  const ENROLLED1: Trust := Trust(FIRST, EARLIER, map[], None, None, None, None)
  const CONFIRMED: RecoveryApproval := RecoveryApproval(CHECKPOINT, 1, NoRecoveryApproval, 0)
  const ANCHORED: Trust := ENROLLED1.(policy := Some(Genesis(ALONE)), recoveryHead := Some(CONFIRMED))
  const VOTE1: TransitionApproval := TransitionApproval(CHANGE, 1, NoApproval, 0)
  const VOTED1: Trust := ANCHORED.(authority := LATER, transitionHead := Some(VOTE1))
  const ENROLLED2: Trust := Trust(SECOND, LATER, map[], None, None, None, None)
  const VOTE2: TransitionApproval := TransitionApproval(CHANGE, 2, NoApproval, 0)
  const VOTED2: Trust := ENROLLED2.(transitionHead := Some(VOTE2))
  const CERTIFICATE: TransitionCertificate := TransitionCertificate(CHANGE, [VOTE1, VOTE2])
  const INSTALLED: Trust := VOTED1.(policy := Some(Transitioned(CERTIFICATE)), installed := Some(CERTIFICATE))

  lemma Lookups()
    ensures CertificateFor([FIRST], 1) == Some(FIRST) && CertificateFor([FIRST], 2) == None
    ensures CertificateFor([FIRST, SECOND], 1) == Some(FIRST)
    ensures CertificateFor([FIRST, SECOND], 2) == Some(SECOND)
  {
    assert [FIRST, SECOND][1..] == [SECOND];
    assert CertificateFor([SECOND], 2) == Some(SECOND);
  }

  lemma PackagesValid()
    ensures ValidPackage(ALONE) && ValidPackage(TOGETHER) && VerifyStatic(CHANGE)
    ensures Authorizes(ALONE, FIRST) && !Authorizes(ALONE, SECOND) && Authorizes(TOGETHER, FIRST)
            && Authorizes(TOGETHER, SECOND)
    ensures ActiveVoter(ALONE, 1) && !ActiveVoter(ALONE, 2) && ActiveVoter(TOGETHER, 1) && ActiveVoter(TOGETHER, 2)
  {
    Lookups();
    assert forall c :: c in ALONE.deviceList.devices ==> c == FIRST;
    assert forall c :: c in TOGETHER.deviceList.devices ==> c == FIRST || c == SECOND;
  }

  /** Staging a package without memberships only moves the authority. */
  lemma Staged(t: Trust, p: Package)
    requires AuthorityInstalls(t, p.authority) && p.memberships == [] && t.memberships == map[]
    ensures Stage(t, p) == Some(t.(authority := p.authority))
  {
  }

  lemma Confirms()
    ensures ApproveRecovery(ENROLLED1, CHECKPOINT, 0) == Approved(CONFIRMED, ANCHORED, false)
  {
    PackagesValid();
    hide ValidPackage, Authorizes, VerifyStatic;
    Staged(ENROLLED1, ALONE);
  }

  lemma FirstVotes()
    ensures ApproveTransition(ANCHORED, CHANGE, 0) == Approved(VOTE1, VOTED1, false)
  {
    PackagesValid();
    hide ValidPackage, Authorizes, VerifyStatic;
    Staged(ANCHORED, TOGETHER);
  }

  lemma SecondVotes()
    ensures ApproveTransition(ENROLLED2, CHANGE, 0) == Approved(VOTE2, VOTED2, false)
  {
    PackagesValid();
    hide ValidPackage, Authorizes, VerifyStatic;
    Staged(ENROLLED2, TOGETHER);
  }

  lemma Certifies()
    ensures CertificateValid(CERTIFICATE)
  {
    PackagesValid();
    hide ValidPackage, Authorizes, VerifyStatic, ActiveVoter;
    var ids := ApproverIds(CERTIFICATE.approvals);
    assert ids == [1, 2];
    assert ids[0] in ids && ids[1] in ids;
    assert Voters(ALONE, ids) == {1};
    assert Voters(TOGETHER, ids) == {1, 2};
  }

  lemma Installs()
    ensures Install(VOTED1, CERTIFICATE) == Some(INSTALLED)
  {
    PackagesValid();
    Certifies();
    hide ValidPackage, Authorizes, VerifyStatic, CertificateValid;
    Staged(VOTED1, TOGETHER);
  }

  const TRACE: seq<Network> := [
    EMPTY,
    Network(map[1 := ENROLLED1], {}, {}, {}, {}),
    Network(map[1 := ANCHORED], {}, {}, {CONFIRMED}, {CONFIRMED}),
    Network(map[1 := VOTED1], {VOTE1}, {VOTE1}, {CONFIRMED}, {CONFIRMED}),
    Network(map[1 := VOTED1, 2 := ENROLLED2], {VOTE1}, {VOTE1}, {CONFIRMED}, {CONFIRMED}),
    Network(map[1 := VOTED1, 2 := VOTED2], {VOTE1, VOTE2}, {VOTE1, VOTE2}, {CONFIRMED}, {CONFIRMED}),
    Network(map[1 := INSTALLED, 2 := VOTED2], {VOTE1, VOTE2}, {VOTE1, VOTE2}, {CONFIRMED}, {CONFIRMED})]

  lemma FirstHalf()
    ensures Next(TRACE[0], Enroll(1, ENROLLED1), TRACE[1])
    ensures Next(TRACE[1], Confirm(1, CHECKPOINT, 0, true), TRACE[2])
    ensures Next(TRACE[2], Vote(1, CHANGE, 0, true), TRACE[3])
  {
    Confirms();
    FirstVotes();
    hide ApproveRecovery, ApproveTransition;
    assert map[1 := ENROLLED1][1 := ANCHORED] == map[1 := ANCHORED];
    assert map[1 := ANCHORED][1 := VOTED1] == map[1 := VOTED1];
  }

  lemma SecondHalf()
    ensures Next(TRACE[3], Enroll(2, ENROLLED2), TRACE[4])
    ensures Next(TRACE[4], Vote(2, CHANGE, 0, true), TRACE[5])
    ensures Next(TRACE[5], Adopt(1, CERTIFICATE), TRACE[6])
  {
    SecondVotes();
    Certifies();
    Installs();
    hide ApproveTransition, Install, CertificateValid;
    assert map[1 := VOTED1][2 := ENROLLED2] == map[1 := VOTED1, 2 := ENROLLED2];
    assert map[1 := VOTED1, 2 := ENROLLED2][2 := VOTED2] == map[1 := VOTED1, 2 := VOTED2];
    assert map[1 := VOTED1, 2 := VOTED2][1 := INSTALLED] == map[1 := INSTALLED, 2 := VOTED2];
  }

  /** The runs the other results quantify over do reach a certified and installed roster change. */
  lemma EpochOneReachable()
    ensures Run(TRACE)
    ensures Certified(CERTIFICATE, TRACE[6].published)
    ensures TRACE[6].devices[1].policy == Some(Transitioned(CERTIFICATE)) && TRACE[6].devices[1].policy.value.epoch == 1
  {
    FirstHalf();
    SecondHalf();
    Certifies();
    hide Next, CertificateValid;
    assert Steps(TRACE[0], TRACE[1]) && Steps(TRACE[1], TRACE[2]) && Steps(TRACE[2], TRACE[3]);
    assert Steps(TRACE[3], TRACE[4]) && Steps(TRACE[4], TRACE[5]) && Steps(TRACE[5], TRACE[6]);
    forall i | 0 <= i < |TRACE| - 1
      ensures Steps(TRACE[i], TRACE[i + 1])
    {
    }
  }

  // ----- a checkpoint request retried after another one -----

  const OTHER: RecoveryRequest := RecoveryRequest(ALONE, 1, 0, 10)
  const CONFIRMED_OTHER: RecoveryApproval := RecoveryApproval(OTHER, 1, RecoveryApprovalIdOf(CONFIRMED), 0)
  const CONFIRMED_AGAIN: RecoveryApproval := RecoveryApproval(CHECKPOINT, 1, RecoveryApprovalIdOf(CONFIRMED_OTHER), 0)
  const ANCHORED_OTHER: Trust := ANCHORED.(recoveryHead := Some(CONFIRMED_OTHER))
  const ANCHORED_AGAIN: Trust := ANCHORED.(recoveryHead := Some(CONFIRMED_AGAIN))

  const RETRYING: seq<Network> := [
    TRACE[0], TRACE[1], TRACE[2],
    Network(map[1 := ANCHORED_OTHER], {}, {}, {CONFIRMED, CONFIRMED_OTHER}, {CONFIRMED, CONFIRMED_OTHER}),
    Network(map[1 := ANCHORED_AGAIN], {}, {}, {CONFIRMED, CONFIRMED_OTHER, CONFIRMED_AGAIN},
            {CONFIRMED, CONFIRMED_OTHER, CONFIRMED_AGAIN})]

  lemma ConfirmsTwice()
    ensures ApproveRecovery(ANCHORED, OTHER, 0) == Approved(CONFIRMED_OTHER, ANCHORED_OTHER, false)
    ensures ApproveRecovery(ANCHORED_OTHER, CHECKPOINT, 0) == Approved(CONFIRMED_AGAIN, ANCHORED_AGAIN, false)
  {
    PackagesValid();
    hide ValidPackage, Authorizes, VerifyStatic;
    Staged(ANCHORED, ALONE);
    Staged(ANCHORED_OTHER, ALONE);
  }

  lemma RetrySteps()
    ensures Next(RETRYING[2], Confirm(1, OTHER, 0, true), RETRYING[3])
    ensures Next(RETRYING[3], Confirm(1, CHECKPOINT, 0, true), RETRYING[4])
  {
    ConfirmsTwice();
    hide ApproveRecovery;
    assert map[1 := ANCHORED][1 := ANCHORED_OTHER] == map[1 := ANCHORED_OTHER];
    assert map[1 := ANCHORED_OTHER][1 := ANCHORED_AGAIN] == map[1 := ANCHORED_AGAIN];
    assert {CONFIRMED} + {CONFIRMED_OTHER} == {CONFIRMED, CONFIRMED_OTHER};
    assert {CONFIRMED, CONFIRMED_OTHER} + {CONFIRMED_AGAIN} == {CONFIRMED, CONFIRMED_OTHER, CONFIRMED_AGAIN};
  }

  /**
   A retry is not always answered with the earlier approval: when another request was approved in
   between, the device signs and publishes a second approval of the first.
   */
  lemma RetryAfterAnotherHead()
    ensures Run(RETRYING)
    ensures CONFIRMED != CONFIRMED_AGAIN && CONFIRMED.request == CONFIRMED_AGAIN.request
            && CONFIRMED.approver == CONFIRMED_AGAIN.approver
    ensures CONFIRMED in RETRYING[2].recoveryPublished && {CONFIRMED, CONFIRMED_AGAIN} <= RETRYING[4].recoveryPublished
  {
    FirstHalf();
    RetrySteps();
    hide Next;
    assert Steps(RETRYING[0], RETRYING[1]) && Steps(RETRYING[1], RETRYING[2]);
    assert Steps(RETRYING[2], RETRYING[3]) && Steps(RETRYING[3], RETRYING[4]);
    forall i | 0 <= i < |RETRYING| - 1
      ensures Steps(RETRYING[i], RETRYING[i + 1])
    {
    }
  }
}
