/**
 Two runs that strand a device: one that installs two roster changes with no checkpoint approval between
 them, and one whose only checkpoint approval is older than policies and over a roster that was skipped.
 */
module StrandedExample {
  import opened Basics
  import opened Identity
  import opened Voting
  import opened DeviceTrust
  import opened Chain
  import opened Network
  import opened Freshness
  import opened Example

  const LATEST: Authority := Authority(0, 3, [])
  const AGAIN: Package := Package(0, LATEST, DeviceList(LATEST, [FIRST, SECOND]), [])
  const REFRESH: TransitionRequest := TransitionRequest(1, CertificateId(CERTIFICATE), TOGETHER, AGAIN, 0, 0, 10)

  const INSTALLED2: Trust := VOTED2.(policy := Some(Transitioned(CERTIFICATE)), installed := Some(CERTIFICATE))
  const REVOTE1: TransitionApproval := TransitionApproval(REFRESH, 1, ApprovalIdOf(VOTE1), 0)
  const REVOTE2: TransitionApproval := TransitionApproval(REFRESH, 2, ApprovalIdOf(VOTE2), 0)
  const REVOTED1: Trust := INSTALLED.(authority := LATEST, transitionHead := Some(REVOTE1))
  const REVOTED2: Trust := INSTALLED2.(authority := LATEST, transitionHead := Some(REVOTE2))
  const RENEWAL: TransitionCertificate := TransitionCertificate(REFRESH, [REVOTE1, REVOTE2])
  const LEFT_BEHIND: Trust := REVOTED1.(policy := Some(Transitioned(RENEWAL)), installed := Some(RENEWAL))

  lemma RefreshValid()
    ensures ValidPackage(TOGETHER) && ValidPackage(AGAIN) && VerifyStatic(REFRESH)
    ensures Authorizes(TOGETHER, FIRST) && Authorizes(TOGETHER, SECOND) && Authorizes(AGAIN, FIRST)
            && Authorizes(AGAIN, SECOND)
    ensures ActiveVoter(TOGETHER, 1) && ActiveVoter(TOGETHER, 2) && ActiveVoter(AGAIN, 1) && ActiveVoter(AGAIN, 2)
  {
    Lookups();
    PackagesValid();
    assert forall c :: c in AGAIN.deviceList.devices ==> c == FIRST || c == SECOND;
    hide CertificateFor;
  }

  lemma SecondInstalls()
    ensures Install(VOTED2, CERTIFICATE) == Some(INSTALLED2)
  {
    PackagesValid();
    Certifies();
    hide ValidPackage, Authorizes, VerifyStatic, CertificateValid, ActiveVoter;
    Staged(VOTED2, TOGETHER);
  }

  lemma FirstVotesAgain()
    ensures ApproveTransition(INSTALLED, REFRESH, 0) == Approved(REVOTE1, REVOTED1, false)
  {
    RefreshValid();
    hide ValidPackage, Authorizes, VerifyStatic, ActiveVoter;
    Staged(INSTALLED, AGAIN);
  }

  lemma SecondVotesAgain()
    ensures ApproveTransition(INSTALLED2, REFRESH, 0) == Approved(REVOTE2, REVOTED2, false)
  {
    RefreshValid();
    hide ValidPackage, Authorizes, VerifyStatic, ActiveVoter;
    Staged(INSTALLED2, AGAIN);
  }

  lemma Renews()
    ensures CertificateValid(RENEWAL)
  {
    RefreshValid();
    hide ValidPackage, Authorizes, VerifyStatic, ActiveVoter;
    var ids := ApproverIds(RENEWAL.approvals);
    assert ids == [1, 2];
    assert ids[0] in ids && ids[1] in ids;
    assert Voters(TOGETHER, ids) == {1, 2};
    assert Voters(AGAIN, ids) == {1, 2};
  }

  lemma FirstInstallsAgain()
    ensures Install(REVOTED1, RENEWAL) == Some(LEFT_BEHIND)
  {
    RefreshValid();
    Renews();
    hide ValidPackage, Authorizes, VerifyStatic, CertificateValid, ActiveVoter;
    Staged(REVOTED1, AGAIN);
  }

  const FOUR: set<TransitionApproval> := {VOTE1, VOTE2, REVOTE1, REVOTE2}

  const AFTERWARDS: seq<Network> := [
    Network(map[1 := INSTALLED, 2 := INSTALLED2], {VOTE1, VOTE2}, {VOTE1, VOTE2}, {CONFIRMED}, {CONFIRMED}),
    Network(map[1 := REVOTED1, 2 := INSTALLED2], {VOTE1, VOTE2, REVOTE1}, {VOTE1, VOTE2, REVOTE1}, {CONFIRMED},
            {CONFIRMED}),
    Network(map[1 := REVOTED1, 2 := REVOTED2], FOUR, FOUR, {CONFIRMED}, {CONFIRMED}),
    Network(map[1 := LEFT_BEHIND, 2 := REVOTED2], FOUR, FOUR, {CONFIRMED}, {CONFIRMED})]

  lemma BothInstalled()
    ensures Next(TRACE[6], Adopt(2, CERTIFICATE), AFTERWARDS[0])
    ensures Next(AFTERWARDS[0], Vote(1, REFRESH, 0, true), AFTERWARDS[1])
  {
    Certifies();
    SecondInstalls();
    FirstVotesAgain();
    hide Install, ApproveTransition, CertificateValid;
    assert map[1 := INSTALLED, 2 := VOTED2][2 := INSTALLED2] == map[1 := INSTALLED, 2 := INSTALLED2];
    assert map[1 := INSTALLED, 2 := INSTALLED2][1 := REVOTED1] == map[1 := REVOTED1, 2 := INSTALLED2];
    assert {VOTE1, VOTE2} + {REVOTE1} == {VOTE1, VOTE2, REVOTE1};
  }

  lemma InstalledAgain()
    ensures Next(AFTERWARDS[1], Vote(2, REFRESH, 0, true), AFTERWARDS[2])
    ensures Next(AFTERWARDS[2], Adopt(1, RENEWAL), AFTERWARDS[3])
  {
    Renews();
    SecondVotesAgain();
    FirstInstallsAgain();
    hide Install, ApproveTransition, CertificateValid;
    assert map[1 := REVOTED1, 2 := INSTALLED2][2 := REVOTED2] == map[1 := REVOTED1, 2 := REVOTED2];
    assert map[1 := REVOTED1, 2 := REVOTED2][1 := LEFT_BEHIND] == map[1 := LEFT_BEHIND, 2 := REVOTED2];
    assert {VOTE1, VOTE2, REVOTE1} + {REVOTE2} == FOUR;
  }

  /** The first device ends two rosters past its only checkpoint approval, and so can never approve another. */
  lemma StrandedReachable()
    ensures Run(TRACE + AFTERWARDS)
    ensures Stranded((TRACE + AFTERWARDS)[10].devices[1])
  {
    EpochOneReachable();
    BothInstalled();
    InstalledAgain();
    hide Next;
    var trace := TRACE + AFTERWARDS;
    assert Steps(TRACE[6], AFTERWARDS[0]) && Steps(AFTERWARDS[0], AFTERWARDS[1]);
    assert Steps(AFTERWARDS[1], AFTERWARDS[2]) && Steps(AFTERWARDS[2], AFTERWARDS[3]);
    forall i | 0 <= i < |trace| - 1
      ensures Steps(trace[i], trace[i + 1])
    {
      if i < 6 {
        assert Steps(TRACE[i], TRACE[i + 1]);
      }
    }
  }

  // ----- a device that has no policy to lag -----

  const LEAP: TransitionRequest := TransitionRequest(0, ZeroId, ALONE, AGAIN, 0, 0, 10)
  const LEAP1: TransitionApproval := TransitionApproval(LEAP, 1, NoApproval, 0)
  const LEAP2: TransitionApproval := TransitionApproval(LEAP, 2, NoApproval, 0)
  const LEAPED1: Trust := ANCHORED.(authority := LATEST, transitionHead := Some(LEAP1))
  const OLD_HEAD: RecoveryApproval := RecoveryApproval(RecoveryRequest(TOGETHER, 0, 0, 10), 2, NoRecoveryApproval, 0)
  const VETERAN: Trust := ENROLLED2.(recoveryHead := Some(OLD_HEAD))
  const LEAPED2: Trust := VETERAN.(authority := LATEST, transitionHead := Some(LEAP2))
  const LEAP_TAKEN: TransitionCertificate := TransitionCertificate(LEAP, [LEAP1, LEAP2])
  const SKIPPED: Trust := LEAPED2.(policy := Some(Transitioned(LEAP_TAKEN)), installed := Some(LEAP_TAKEN))

  lemma LeapValid()
    ensures VerifyStatic(LEAP) && ValidPackage(ALONE) && ValidPackage(AGAIN)
    ensures Authorizes(ALONE, FIRST) && !Authorizes(ALONE, SECOND) && Authorizes(AGAIN, FIRST)
            && Authorizes(AGAIN, SECOND)
    ensures ActiveVoter(ALONE, 1) && !ActiveVoter(ALONE, 2) && ActiveVoter(AGAIN, 1) && ActiveVoter(AGAIN, 2)
  {
    Lookups();
    PackagesValid();
    RefreshValid();
    hide CertificateFor;
    assert forall c :: c in ALONE.deviceList.devices ==> c == FIRST;
  }

  lemma LeapVotes()
    ensures ApproveTransition(ANCHORED, LEAP, 0) == Approved(LEAP1, LEAPED1, false)
    ensures ApproveTransition(VETERAN, LEAP, 0) == Approved(LEAP2, LEAPED2, false)
  {
    LeapValid();
    hide ValidPackage, Authorizes, VerifyStatic, ActiveVoter;
    Staged(ANCHORED, AGAIN);
    Staged(VETERAN, AGAIN);
  }

  lemma LeapCertified()
    ensures CertificateValid(LEAP_TAKEN)
  {
    LeapValid();
    hide ValidPackage, Authorizes, VerifyStatic, ActiveVoter;
    var ids := ApproverIds(LEAP_TAKEN.approvals);
    assert ids == [1, 2];
    assert ids[0] in ids && ids[1] in ids;
    assert Voters(ALONE, ids) == {1};
    assert Voters(AGAIN, ids) == {1, 2};
  }

  lemma VeteranInstalls()
    ensures Install(LEAPED2, LEAP_TAKEN) == Some(SKIPPED)
  {
    LeapValid();
    LeapCertified();
    hide ValidPackage, Authorizes, VerifyStatic, CertificateValid, ActiveVoter;
    Staged(LEAPED2, AGAIN);
  }

  const HEADS: set<RecoveryApproval> := {CONFIRMED, OLD_HEAD}

  const LEAPING: seq<Network> := [
    TRACE[0], TRACE[1], TRACE[2],
    Network(map[1 := LEAPED1], {LEAP1}, {LEAP1}, {CONFIRMED}, {CONFIRMED}),
    Network(map[1 := LEAPED1, 2 := VETERAN], {LEAP1}, {LEAP1}, HEADS, HEADS),
    Network(map[1 := LEAPED1, 2 := LEAPED2], {LEAP1, LEAP2}, {LEAP1, LEAP2}, HEADS, HEADS),
    Network(map[1 := LEAPED1, 2 := SKIPPED], {LEAP1, LEAP2}, {LEAP1, LEAP2}, HEADS, HEADS)]

  lemma VeteranEnters()
    ensures Next(LEAPING[2], Vote(1, LEAP, 0, true), LEAPING[3])
    ensures Next(LEAPING[3], Enroll(2, VETERAN), LEAPING[4])
  {
    LeapVotes();
    PackagesValid();
    hide ApproveTransition, ValidPackage;
    assert map[1 := ANCHORED][1 := LEAPED1] == map[1 := LEAPED1];
    assert map[1 := LEAPED1][2 := VETERAN] == map[1 := LEAPED1, 2 := VETERAN];
    assert {CONFIRMED} + {OLD_HEAD} == HEADS;
  }

  lemma VeteranLeaps()
    ensures Next(LEAPING[4], Vote(2, LEAP, 0, true), LEAPING[5])
    ensures Next(LEAPING[5], Adopt(2, LEAP_TAKEN), LEAPING[6])
  {
    LeapVotes();
    LeapCertified();
    VeteranInstalls();
    hide ApproveTransition, Install, CertificateValid;
    assert map[1 := LEAPED1, 2 := VETERAN][2 := LEAPED2] == map[1 := LEAPED1, 2 := LEAPED2];
    assert map[1 := LEAPED1, 2 := LEAPED2][2 := SKIPPED] == map[1 := LEAPED1, 2 := SKIPPED];
  }

  /** The second device never had a policy before, and its first installation strands it. */
  lemma VeteranStranded()
    ensures Run(LEAPING)
    ensures LEAPING[5].devices[2].policy == None && Stranded(LEAPING[6].devices[2])
  {
    EpochOneReachable();
    VeteranEnters();
    VeteranLeaps();
    hide Next;
    assert Steps(TRACE[0], TRACE[0 + 1]) && Steps(TRACE[1], TRACE[1 + 1]);
    assert Steps(LEAPING[2], LEAPING[3]) && Steps(LEAPING[3], LEAPING[4]);
    assert Steps(LEAPING[4], LEAPING[5]) && Steps(LEAPING[5], LEAPING[6]);
    forall i | 0 <= i < |LEAPING| - 1
      ensures Steps(LEAPING[i], LEAPING[i + 1])
    {
    }
  }
}
