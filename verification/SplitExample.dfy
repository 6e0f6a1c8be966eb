/**
 A run in which three devices install three certificates of one request, each valid, each with other
 approvals; and what that does to the account for good.
 */
module SplitExample {
  import opened Basics
  import opened Identity
  import opened Voting
  import opened DeviceTrust
  import opened Chain
  import opened Network
  import opened Agreement
  import opened Splits
  import opened Example

  const THIRD: DeviceCertificate := DeviceCertificate(0, 3, 1, true, 0)
  const TRIO: Package := Package(0, LATER, DeviceList(LATER, [FIRST, SECOND, THIRD]), [])
  const GROW: TransitionRequest := TransitionRequest(0, ZeroId, ALONE, TRIO, 0, 0, 10)

  const BALLOT1: TransitionApproval := TransitionApproval(GROW, 1, NoApproval, 0)
  const BALLOT2: TransitionApproval := TransitionApproval(GROW, 2, NoApproval, 0)
  const BALLOT3: TransitionApproval := TransitionApproval(GROW, 3, NoApproval, 0)
  const DECIDED1: Trust := ANCHORED.(authority := LATER, transitionHead := Some(BALLOT1))
  const DECIDED2: Trust := ENROLLED2.(transitionHead := Some(BALLOT2))
  const ENROLLED3: Trust := Trust(THIRD, LATER, map[], None, None, None, None)
  const DECIDED3: Trust := ENROLLED3.(transitionHead := Some(BALLOT3))

  const ONE_TWO: TransitionCertificate := TransitionCertificate(GROW, [BALLOT1, BALLOT2])
  const ONE_THREE: TransitionCertificate := TransitionCertificate(GROW, [BALLOT1, BALLOT3])
  const ALL_THREE: TransitionCertificate := TransitionCertificate(GROW, [BALLOT1, BALLOT2, BALLOT3])

  function Adopted(t: Trust, c: TransitionCertificate): Trust {
    t.(policy := Some(Transitioned(c)), installed := Some(c))
  }

  lemma TrioLookups()
    ensures CertificateFor([FIRST, SECOND, THIRD], 1) == Some(FIRST)
    ensures CertificateFor([FIRST, SECOND, THIRD], 2) == Some(SECOND)
    ensures CertificateFor([FIRST, SECOND, THIRD], 3) == Some(THIRD)
    ensures CertificateFor([FIRST], 3) == None
  {
    assert [FIRST, SECOND, THIRD][1..] == [SECOND, THIRD];
    assert [SECOND, THIRD][1..] == [THIRD];
    assert CertificateFor([THIRD], 3) == Some(THIRD);
    assert CertificateFor([SECOND, THIRD], 2) == Some(SECOND) && CertificateFor([SECOND, THIRD], 3) == Some(THIRD);
  }

  lemma TrioValid()
    ensures ValidPackage(ALONE) && ValidPackage(TRIO) && VerifyStatic(GROW)
    ensures Authorizes(ALONE, FIRST) && !Authorizes(ALONE, SECOND) && !Authorizes(ALONE, THIRD)
    ensures Authorizes(TRIO, FIRST) && Authorizes(TRIO, SECOND) && Authorizes(TRIO, THIRD)
    ensures ActiveVoter(ALONE, 1) && ActiveVoter(TRIO, 1) && ActiveVoter(TRIO, 2) && ActiveVoter(TRIO, 3)
    ensures !ActiveVoter(ALONE, 2) && !ActiveVoter(ALONE, 3)
  {
    Lookups();
    PackagesValid();
    TrioLookups();
    hide CertificateFor;
    assert forall c :: c in ALONE.deviceList.devices ==> c == FIRST;
    assert forall c :: c in TRIO.deviceList.devices ==> c == FIRST || c == SECOND || c == THIRD;
    assert CertificatesSorted(TRIO.deviceList.devices);
  }

  lemma Ballots()
    ensures ApproveTransition(ANCHORED, GROW, 0) == Approved(BALLOT1, DECIDED1, false)
    ensures ApproveTransition(ENROLLED2, GROW, 0) == Approved(BALLOT2, DECIDED2, false)
    ensures ApproveTransition(ENROLLED3, GROW, 0) == Approved(BALLOT3, DECIDED3, false)
  {
    TrioValid();
    hide ValidPackage, Authorizes, VerifyStatic, ActiveVoter;
    Staged(ANCHORED, TRIO);
    Staged(ENROLLED2, TRIO);
    Staged(ENROLLED3, TRIO);
  }

  /** Any two or more ballots that include the first device's make a valid certificate. */
  lemma Elects(c: TransitionCertificate, ids: seq<DeviceId>)
    requires (c == ONE_TWO && ids == [1, 2]) || (c == ONE_THREE && ids == [1, 3])
             || (c == ALL_THREE && ids == [1, 2, 3])
    ensures CertificateValid(c)
  {
    TrioValid();
    hide ValidPackage, Authorizes, VerifyStatic, ActiveVoter;
    assert ApproverIds(c.approvals) == ids;
    assert ids[0] in ids && ids[1] in ids;
    assert Voters(ALONE, ids) == {1};
    assert {ids[0], ids[1]} <= Voters(TRIO, ids);
    SubsetCardinality({ids[0], ids[1]}, Voters(TRIO, ids));
  }

  lemma AllElect()
    ensures CertificateValid(ONE_TWO) && CertificateValid(ONE_THREE) && CertificateValid(ALL_THREE)
  {
    Elects(ONE_TWO, [1, 2]);
    Elects(ONE_THREE, [1, 3]);
    Elects(ALL_THREE, [1, 2, 3]);
  }

  lemma Adoptions()
    ensures Install(DECIDED1, ONE_TWO) == Some(Adopted(DECIDED1, ONE_TWO))
    ensures Install(DECIDED2, ONE_THREE) == Some(Adopted(DECIDED2, ONE_THREE))
    ensures Install(DECIDED3, ALL_THREE) == Some(Adopted(DECIDED3, ALL_THREE))
  {
    AllElect();
    TrioValid();
    hide ValidPackage, Authorizes, VerifyStatic, CertificateValid, ActiveVoter;
    Staged(DECIDED1, TRIO);
    Staged(DECIDED2, TRIO);
    Staged(DECIDED3, TRIO);
  }

  const VOTES: set<TransitionApproval> := {BALLOT1, BALLOT2, BALLOT3}
  const SPLIT1: map<DeviceId, Trust> := map[1 := Adopted(DECIDED1, ONE_TWO), 2 := DECIDED2, 3 := DECIDED3]
  const SPLIT2: map<DeviceId, Trust> := map[1 := Adopted(DECIDED1, ONE_TWO), 2 := Adopted(DECIDED2, ONE_THREE),
                                            3 := DECIDED3]
  const SPLIT3: map<DeviceId, Trust> :=
    map[1 := Adopted(DECIDED1, ONE_TWO), 2 := Adopted(DECIDED2, ONE_THREE), 3 := Adopted(DECIDED3, ALL_THREE)]

  const SPLITTING: seq<Network> := [
    EMPTY,
    Network(map[1 := ENROLLED1], {}, {}, {}, {}),
    Network(map[1 := ANCHORED], {}, {}, {CONFIRMED}, {CONFIRMED}),
    Network(map[1 := DECIDED1], {BALLOT1}, {BALLOT1}, {CONFIRMED}, {CONFIRMED}),
    Network(map[1 := DECIDED1, 2 := ENROLLED2], {BALLOT1}, {BALLOT1}, {CONFIRMED}, {CONFIRMED}),
    Network(map[1 := DECIDED1, 2 := DECIDED2], {BALLOT1, BALLOT2}, {BALLOT1, BALLOT2}, {CONFIRMED}, {CONFIRMED}),
    Network(map[1 := DECIDED1, 2 := DECIDED2, 3 := ENROLLED3], {BALLOT1, BALLOT2}, {BALLOT1, BALLOT2}, {CONFIRMED},
            {CONFIRMED}),
    Network(map[1 := DECIDED1, 2 := DECIDED2, 3 := DECIDED3], VOTES, VOTES, {CONFIRMED}, {CONFIRMED}),
    Network(SPLIT1, VOTES, VOTES, {CONFIRMED}, {CONFIRMED}),
    Network(SPLIT2, VOTES, VOTES, {CONFIRMED}, {CONFIRMED}),
    Network(SPLIT3, VOTES, VOTES, {CONFIRMED}, {CONFIRMED})]

  lemma Anchoring()
    ensures Next(SPLITTING[0], Enroll(1, ENROLLED1), SPLITTING[1])
    ensures Next(SPLITTING[1], Confirm(1, CHECKPOINT, 0, true), SPLITTING[2])
    ensures Next(SPLITTING[2], Vote(1, GROW, 0, true), SPLITTING[3])
  {
    Confirms();
    Ballots();
    hide ApproveRecovery, ApproveTransition;
    assert map[1 := ENROLLED1][1 := ANCHORED] == map[1 := ANCHORED];
    assert map[1 := ANCHORED][1 := DECIDED1] == map[1 := DECIDED1];
  }

  lemma SecondBallot()
    ensures Next(SPLITTING[3], Enroll(2, ENROLLED2), SPLITTING[4])
    ensures Next(SPLITTING[4], Vote(2, GROW, 0, true), SPLITTING[5])
  {
    Ballots();
    hide ApproveTransition;
    assert map[1 := DECIDED1][2 := ENROLLED2] == map[1 := DECIDED1, 2 := ENROLLED2];
    assert map[1 := DECIDED1, 2 := ENROLLED2][2 := DECIDED2] == map[1 := DECIDED1, 2 := DECIDED2];
  }

  lemma ThirdBallot()
    ensures Next(SPLITTING[5], Enroll(3, ENROLLED3), SPLITTING[6])
    ensures Next(SPLITTING[6], Vote(3, GROW, 0, true), SPLITTING[7])
  {
    Ballots();
    hide ApproveTransition;
    var both := map[1 := DECIDED1, 2 := DECIDED2];
    assert both[3 := ENROLLED3] == map[1 := DECIDED1, 2 := DECIDED2, 3 := ENROLLED3];
    assert map[1 := DECIDED1, 2 := DECIDED2, 3 := ENROLLED3][3 := DECIDED3] ==
           map[1 := DECIDED1, 2 := DECIDED2, 3 := DECIDED3];
    assert {BALLOT1, BALLOT2} + {BALLOT3} == VOTES;
  }

  lemma Splitting()
    ensures Next(SPLITTING[7], Adopt(1, ONE_TWO), SPLITTING[8])
    ensures Next(SPLITTING[8], Adopt(2, ONE_THREE), SPLITTING[9])
    ensures Next(SPLITTING[9], Adopt(3, ALL_THREE), SPLITTING[10])
  {
    AllElect();
    Adoptions();
    hide Install, CertificateValid, Adopted;
    var voted := map[1 := DECIDED1, 2 := DECIDED2, 3 := DECIDED3];
    assert voted[1 := Adopted(DECIDED1, ONE_TWO)] == SPLIT1;
    assert SPLIT1[2 := Adopted(DECIDED2, ONE_THREE)] == SPLIT2;
    assert SPLIT2[3 := Adopted(DECIDED3, ALL_THREE)] == SPLIT3;
  }

  lemma SplittingRuns()
    ensures Run(SPLITTING)
  {
    Anchoring();
    SecondBallot();
    ThirdBallot();
    Splitting();
    hide Next;
    assert Steps(SPLITTING[0], SPLITTING[1]) && Steps(SPLITTING[1], SPLITTING[2]) && Steps(SPLITTING[2], SPLITTING[3]);
    assert Steps(SPLITTING[3], SPLITTING[4]) && Steps(SPLITTING[4], SPLITTING[5]) && Steps(SPLITTING[5], SPLITTING[6]);
    assert Steps(SPLITTING[6], SPLITTING[7]) && Steps(SPLITTING[7], SPLITTING[8]) && Steps(SPLITTING[8], SPLITTING[9]);
    assert Steps(SPLITTING[9], SPLITTING[10]);
    forall i | 0 <= i < |SPLITTING| - 1
      ensures Steps(SPLITTING[i], SPLITTING[i + 1])
    {
    }
  }

  lemma Lines()
    ensures Line(SPLIT3[1]) == [ONE_TWO] && Line(SPLIT3[2]) == [ONE_THREE] && Line(SPLIT3[3]) == [ALL_THREE]
    ensures ONE_TWO != ONE_THREE && ONE_TWO != ALL_THREE && ONE_THREE != ALL_THREE
  {
    assert Certificates(ZeroId) == [];
    assert |ONE_TWO.approvals| != |ALL_THREE.approvals|;
    assert ONE_TWO.approvals[1] != ONE_THREE.approvals[1];
  }

  /** A split is reachable: one request, three valid certificates of it, three anchors. */
  lemma SplitReachable()
    ensures Run(SPLITTING)
    ensures var s := SPLITTING[10];
            && Certified(ONE_TWO, s.published) && Certified(ONE_THREE, s.published) && Certified(ALL_THREE, s.published)
            && ONE_TWO.request == ONE_THREE.request == ALL_THREE.request
            && Split(s.devices[1], s.devices[2]) && Split(s.devices[1], s.devices[3])
               && Split(s.devices[2], s.devices[3])
  {
    SplittingRuns();
    AllElect();
    Lines();
    hide CertificateValid, Line, Run;
    assert [ONE_TWO][0] != [ONE_THREE][0] && [ONE_TWO][0] != [ALL_THREE][0] && [ONE_THREE][0] != [ALL_THREE][0];
  }

  lemma NoTwoTogether(cs: seq<TransitionCertificate>)
    requires |cs| >= 1
    ensures |Candidates(SPLITTING[10], TRIO.deviceList, cs)| < 2
  {
    Lines();
    hide Line;
    var candidates := Candidates(SPLITTING[10], TRIO.deviceList, cs);
    assert forall d :: d in candidates ==> d == 1 || d == 2 || d == 3;
    assert [ONE_TWO][0] == ONE_TWO && [ONE_THREE][0] == ONE_THREE && [ALL_THREE][0] == ALL_THREE;
    var only := if cs[0] == ONE_TWO then {1} else if cs[0] == ONE_THREE then {2} else {3};
    assert candidates <= only;
    SubsetCardinality(candidates, only);
  }

  /** Beyond epoch 0 no two devices are on one line. */
  lemma SplitHasNoQuorum(epoch: nat)
    requires epoch >= 1
    ensures NoQuorum(SPLITTING[10], TRIO.deviceList, epoch)
  {
    forall cs: seq<TransitionCertificate> | |cs| == epoch
      ensures |Candidates(SPLITTING[10], TRIO.deviceList, cs)| < Required(|TRIO.deviceList.devices|)
    {
      NoTwoTogether(cs);
    }
  }

  /** At epoch 0 every device of the roster has voted, for another roster. */
  lemma EpochZeroIsOver(trace: seq<Network>, k: nat, c: TransitionCertificate)
    requires Run(trace) && SPLITTING <= trace && 10 <= k < |trace|
    requires c.request.oldPackage.deviceList == TRIO.deviceList && c.request.oldEpoch == 0
    ensures !Certified(c, trace[k].published)
  {
    assert |SPLITTING| == 11 && trace[10] == SPLITTING[10];
    RunKeepsInvariant(trace, k);
    RunGrows(trace, 10, k);
    hide Run;
    BallotsCast(trace[k]);
    if Certified(c, trace[k].published) {
      var a := SomeOldVoter(c);
      VoterInTrio(c.request.oldPackage, a.approver);
    }
  }

  /** Once the three ballots are cast, they are all that their devices ever vote at epoch 0. */
  lemma BallotsCast(s: Network)
    requires TransitionInvariant(s) && VOTES <= s.heads
    ensures forall a :: a in s.published && a.request.oldEpoch == 0
                        && (a.approver == 1 || a.approver == 2 || a.approver == 3) ==>
              a.request.oldPackage.deviceList != TRIO.deviceList
  {
    assert s.published <= s.heads && OneVotePerEpoch(s.heads);
    hide TransitionInvariant;
    assert BALLOT1 in VOTES && BALLOT2 in VOTES && BALLOT3 in VOTES;
    assert |ALONE.deviceList.devices| != |TRIO.deviceList.devices|;
    forall a | a in s.published && a.request.oldEpoch == 0 && (a.approver == 1 || a.approver == 2 || a.approver == 3)
      ensures a.request.oldPackage.deviceList != TRIO.deviceList
    {
      var ballot := if a.approver == 1 then BALLOT1 else if a.approver == 2 then BALLOT2 else BALLOT3;
      assert SameBallot(a, ballot);
    }
  }

  lemma VoterInTrio(p: Package, d: DeviceId)
    requires p.deviceList == TRIO.deviceList && ActiveVoter(p, d)
    ensures d == 1 || d == 2 || d == 3
  {
  }

  /** From there on no run ever certifies another change of this roster: the account's recovery policy is stuck. */
  lemma StuckForever(trace: seq<Network>, k: nat, c: TransitionCertificate)
    requires Run(trace) && SPLITTING <= trace && 10 <= k < |trace|
    requires c.request.oldPackage.deviceList == TRIO.deviceList
    ensures !Certified(c, trace[k].published)
  {
    hide NoQuorum, Certified, Run;
    if c.request.oldEpoch == 0 {
      EpochZeroIsOver(trace, k, c);
    } else {
      SplitHasNoQuorum(c.request.oldEpoch);
      assert |SPLITTING| == 11 && trace[10] == SPLITTING[10];
      NoQuorumNoTransition(trace, 10, k, TRIO.deviceList, c);
    }
  }
}
