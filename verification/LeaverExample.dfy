/**
 Why the voters that leave have to be counted. For every roster size and every number of leavers that two
 majorities need not outnumber: a run in which one majority votes the change through, the other approves
 a last checkpoint over the old roster, they share leavers only, and the certified new package does not
 contain the checkpoint.

 The roster is the devices 1 to n. The first `Required(n)` of them vote for the change, the last
 `Required(n)` approve the checkpoint, the devices after `stay` up to `last` leave, and n + 1 joins.
 */
module LeaverExample {
  import opened Basics
  import opened Identity
  import opened Voting
  import opened DeviceTrust
  import opened Chain
  import opened Network
  import opened Freshness
  import opened Succession
  import opened Example

  datatype Shape = Shape(n: nat, stay: nat, last: nat)

  /**
   The two majorities share leavers only, and those who vote and stay, with the newcomer, are a majority
   of the new roster.
   */
  predicate Fits(s: Shape) {
    && 1 <= s.n <= MAX_ACCOUNT_DEVICES && s.stay + Required(s.n) <= s.n
    && Required(s.n) <= s.last <= s.n && s.n <= s.last + s.stay
  }

  // ----- the packages -----

  function Member(d: DeviceId): DeviceCertificate {
    DeviceCertificate(0, d, d, true, 0)
  }

  /** The certificates of the devices from `lo` up to but not including `hi`. */
  function Members(lo: nat, hi: nat): seq<DeviceCertificate>
    requires lo <= hi
  {
    seq(hi - lo, i requires 0 <= i < hi - lo => Member(lo + i))
  }

  function Removals(s: Shape): seq<Revocation>
    requires s.stay <= s.last
  {
    seq(s.last - s.stay, i requires 0 <= i < s.last - s.stay => Revocation(0, s.stay + 1 + i, s.n + 2 + s.stay + i))
  }

  function Original(s: Shape): Authority {
    Authority(0, s.n + 1, [])
  }

  function Reduced(s: Shape): Authority
    requires s.stay <= s.last
  {
    Authority(0, 2 * s.n + 2, Removals(s))
  }

  function Before(s: Shape): Package {
    Package(0, Original(s), DeviceList(Original(s), Members(1, s.n + 1)), [])
  }

  function After(s: Shape): Package
    requires s.stay <= s.last <= s.n
  {
    Package(0, Reduced(s), DeviceList(Reduced(s), Members(1, s.stay + 1) + Members(s.last + 1, s.n + 2)), [])
  }

  function Request(s: Shape): TransitionRequest
    requires s.stay <= s.last <= s.n
  {
    TransitionRequest(0, ZeroId, Before(s), After(s), 0, 0, 10)
  }

  const LATE: Membership := Membership(5, 0, 1, {0})

  function Ahead(s: Shape): Package {
    Before(s).(memberships := [LATE])
  }

  function LastCall(s: Shape): RecoveryRequest {
    RecoveryRequest(Ahead(s), 0, 0, 10)
  }

  predicate Stays(s: Shape, d: DeviceId) {
    1 <= d <= s.stay || s.last < d <= s.n + 1
  }

  lemma MembersAre(lo: nat, hi: nat, c: DeviceCertificate)
    requires lo <= hi
    ensures c in Members(lo, hi) <==> lo <= c.device < hi && c == Member(c.device)
  {
    if lo <= c.device < hi && c == Member(c.device) {
      assert Members(lo, hi)[c.device - lo] in Members(lo, hi);
    }
    if c in Members(lo, hi) {
      var i :| 0 <= i < hi - lo && Members(lo, hi)[i] == c;
      assert c == Member(lo + i) && c.device == lo + i;
    }
  }

  lemma MembersAt(lo: nat, hi: nat, i: nat)
    requires lo <= hi && i < hi - lo
    ensures |Members(lo, hi)| == hi - lo && Members(lo, hi)[i] == Member(lo + i)
  {
  }

  lemma Lookup(devices: seq<DeviceCertificate>, d: DeviceId)
    ensures var r := CertificateFor(devices, d);
            if r.Some? then r.value in devices && r.value.device == d else forall c :: c in devices ==> c.device != d
  {
  }

  lemma BeforeLists(s: Shape, d: DeviceId)
    ensures CertificateFor(Before(s).deviceList.devices, d) == if 1 <= d <= s.n then Some(Member(d)) else None
  {
    Lookup(Before(s).deviceList.devices, d);
    hide CertificateFor, Members;
    var found := CertificateFor(Before(s).deviceList.devices, d);
    MembersAre(1, s.n + 1, Member(d));
    if found.Some? {
      MembersAre(1, s.n + 1, found.value);
    }
  }

  lemma AfterMembers(s: Shape, c: DeviceCertificate)
    requires Fits(s)
    ensures c in After(s).deviceList.devices <==> Stays(s, c.device) && c == Member(c.device)
  {
    MembersAre(1, s.stay + 1, c);
    MembersAre(s.last + 1, s.n + 2, c);
    hide Members;
    var (kept, rest) := (Members(1, s.stay + 1), Members(s.last + 1, s.n + 2));
    assert c in kept + rest <==> c in kept || c in rest;
  }

  lemma AfterLists(s: Shape, d: DeviceId)
    requires Fits(s)
    ensures CertificateFor(After(s).deviceList.devices, d) == if Stays(s, d) then Some(Member(d)) else None
  {
    var devices := After(s).deviceList.devices;
    Lookup(devices, d);
    AfterMembers(s, Member(d));
    var found := CertificateFor(devices, d);
    if found.Some? {
      AfterMembers(s, found.value);
    }
    hide CertificateFor, After, Stays, Fits;
  }

  lemma WhoIsRemoved(s: Shape, d: DeviceId)
    requires Fits(s)
    ensures Revoked(Reduced(s), d) <==> s.stay < d <= s.last
    ensures !Revoked(Original(s), d)
  {
    if s.stay < d <= s.last {
      assert Removals(s)[d - s.stay - 1] in Removals(s);
    }
  }

  lemma BeforeValid(s: Shape)
    requires Fits(s)
    ensures ValidPackage(Before(s)) && ValidPackage(Ahead(s))
  {
    forall c | c in Before(s).deviceList.devices
      ensures Authorized(0, c, Original(s))
    {
      MembersAre(1, s.n + 1, c);
    }
    hide CertificateFor;
  }

  lemma AfterValid(s: Shape)
    requires Fits(s)
    ensures ValidPackage(After(s)) && ValidAuthority(Reduced(s))
  {
    forall c | c in After(s).deviceList.devices
      ensures Authorized(0, c, Reduced(s))
    {
      AfterMembers(s, c);
      WhoIsRemoved(s, c.device);
    }
    AfterSorted(s);
    hide Revoked, Members, Removals;
  }

  lemma AfterSorted(s: Shape)
    requires Fits(s)
    ensures CertificatesSorted(After(s).deviceList.devices) && 0 < |After(s).deviceList.devices| <= MAX_ACCOUNT_DEVICES
    ensures ValidAuthority(Reduced(s))
  {
    assert s.n < 2 * Required(s.n);
    var devices := After(s).deviceList.devices;
    forall i | 0 <= i < |devices|
      ensures devices[i].device == if i < s.stay then 1 + i else s.last + 1 + (i - s.stay)
    {
      if i < s.stay {
        MembersAt(1, s.stay + 1, i);
      } else {
        MembersAt(s.last + 1, s.n + 2, i - s.stay);
      }
    }
  }

  lemma OldVoters(s: Shape, d: DeviceId)
    requires Fits(s)
    ensures 1 <= d <= s.n <==> ActiveVoter(Before(s), d)
    ensures ActiveVoter(Ahead(s), d) <==> ActiveVoter(Before(s), d)
    ensures Authorizes(Before(s), Member(d)) <==> 1 <= d <= s.n
    ensures Authorizes(Ahead(s), Member(d)) <==> 1 <= d <= s.n
  {
    BeforeLists(s, d);
    WhoIsRemoved(s, d);
    hide Revoked, CertificateFor;
  }

  lemma NewVoters(s: Shape, d: DeviceId)
    requires Fits(s)
    ensures Stays(s, d) <==> ActiveVoter(After(s), d)
    ensures Stays(s, d) <==> Authorizes(After(s), Member(d))
  {
    AfterLists(s, d);
    WhoIsRemoved(s, d);
    hide Revoked, CertificateFor;
  }

  lemma RequestStatic(s: Shape)
    requires Fits(s)
    ensures VerifyStatic(Request(s))
  {
    BeforeValid(s);
    AfterValid(s);
    forall c | c in Before(s).deviceList.devices
      ensures match CertificateFor(After(s).deviceList.devices, c.device)
              case Some(kept) => kept == c
              case None => Revoked(Reduced(s), c.device)
    {
      MembersAre(1, s.n + 1, c);
      AfterLists(s, c.device);
      WhoIsRemoved(s, c.device);
    }
    hide ValidPackage, Revoked, CertificateFor;
  }

  // ----- the devices -----

  function Legacy(s: Shape, d: DeviceId): RecoveryApproval {
    RecoveryApproval(RecoveryRequest(Before(s), 0, 0, 10), d, NoRecoveryApproval, 0)
  }

  function Ballot(s: Shape, d: DeviceId): TransitionApproval
    requires s.stay <= s.last <= s.n
  {
    TransitionApproval(Request(s), d, NoApproval, 0)
  }

  function Said(s: Shape, d: DeviceId): RecoveryApproval {
    RecoveryApproval(LastCall(s), d, RecoveryApprovalIdOf(Legacy(s, d)), 0)
  }

  function Entering(s: Shape, d: DeviceId): Trust
    requires s.stay <= s.last
  {
    if d <= s.n then Trust(Member(d), Original(s), map[], None, None, None, Some(Legacy(s, d)))
    else Trust(Member(d), Reduced(s), map[], None, None, None, None)
  }

  function AfterVote(s: Shape, d: DeviceId): Trust
    requires s.stay <= s.last <= s.n
  {
    Entering(s, d).(authority := if Stays(s, d) then Reduced(s) else Original(s),
                    policy := if d <= s.n then Some(Genesis(Before(s))) else None,
                    transitionHead := Some(Ballot(s, d)))
  }

  function TrustOf(s: Shape, d: DeviceId, voted: bool, spoken: bool): Trust
    requires s.stay <= s.last <= s.n
  {
    var t := if voted then AfterVote(s, d) else Entering(s, d);
    if spoken then t.(memberships := map[5 := LATE], policy := Some(Genesis(Before(s))),
                      recoveryHead := Some(Said(s, d))) else t
  }

  lemma MemberVotes(s: Shape, d: DeviceId)
    requires Fits(s) && 1 <= d <= Required(s.n)
    ensures ApproveTransition(Entering(s, d), Request(s), 0) == Approved(Ballot(s, d), AfterVote(s, d), false)
  {
    RequestStatic(s);
    BeforeValid(s);
    AfterValid(s);
    OldVoters(s, d);
    NewVoters(s, d);
    assert ValidAuthority(Original(s));
    hide ValidPackage, ValidAuthority, Authorizes, VerifyStatic, ActiveVoter, Members, Removals;
    Staged(Entering(s, d), if Stays(s, d) then After(s) else Before(s));
  }

  lemma NewcomerMay(s: Shape)
    requires Fits(s)
    ensures MayVote(Entering(s, s.n + 1), Request(s), 0) && VotingPackage(Entering(s, s.n + 1), Request(s)) == After(s)
    ensures !Authorizes(Before(s), Member(s.n + 1)) && AuthorityInstalls(Entering(s, s.n + 1), Reduced(s))
  {
    RequestStatic(s);
    AfterValid(s);
    OldVoters(s, s.n + 1);
    NewVoters(s, s.n + 1);
    hide ValidPackage, ValidAuthority, Authorizes, VerifyStatic, ActiveVoter, Members, Removals;
  }

  lemma NewcomerVotes(s: Shape)
    requires Fits(s)
    ensures ApproveTransition(Entering(s, s.n + 1), Request(s), 0) ==
            Approved(Ballot(s, s.n + 1), AfterVote(s, s.n + 1), false)
  {
    NewcomerMay(s);
    hide MayVote, VotingPackage, Authorizes, AuthorityInstalls, Members, Removals;
    Staged(Entering(s, s.n + 1), After(s));
  }

  lemma MemberSpeaks(s: Shape, d: DeviceId)
    requires Fits(s) && s.n - Required(s.n) < d <= s.n
    ensures ApproveRecovery(TrustOf(s, d, d <= Required(s.n), false), LastCall(s), 0) ==
            Approved(Said(s, d), TrustOf(s, d, d <= Required(s.n), true), false)
  {
    BeforeValid(s);
    OldVoters(s, d);
    hide ValidPackage, Authorizes;
    assert [LATE][..0] == [];
    assert Overlay(map[], [LATE]) == map[5 := LATE];
    var t := TrustOf(s, d, d <= Required(s.n), false);
    assert t.authority == Original(s);
    assert Stage(t, Ahead(s)) == Some(t.(memberships := map[5 := LATE]));
  }

  // ----- the run -----

  predicate HasVoted(s: Shape, votes: nat, d: DeviceId) {
    (d <= votes && d <= Required(s.n)) || (d == s.n + 1 && votes == Required(s.n) + 1)
  }

  predicate HasSpoken(s: Shape, words: nat, d: DeviceId) {
    s.n < d + Required(s.n) <= s.n + words
  }

  function Voter(s: Shape, votes: nat): DeviceId {
    if votes < Required(s.n) then votes + 1 else s.n + 1
  }

  function Speaker(s: Shape, words: nat): DeviceId
    requires Required(s.n) <= s.n
  {
    s.n - Required(s.n) + words + 1
  }

  lemma NextVoter(s: Shape, votes: nat, d: DeviceId)
    requires Fits(s) && votes <= Required(s.n)
    ensures HasVoted(s, votes + 1, d) <==> HasVoted(s, votes, d) || d == Voter(s, votes)
    ensures !HasVoted(s, votes, Voter(s, votes)) && !HasSpoken(s, 0, d)
  {
  }

  lemma NextSpeaker(s: Shape, words: nat, d: DeviceId)
    requires Fits(s)
    ensures HasSpoken(s, words + 1, d) <==> HasSpoken(s, words, d) || d == Speaker(s, words)
    ensures !HasSpoken(s, words, Speaker(s, words))
    ensures d <= s.n ==> (HasVoted(s, Required(s.n) + 1, d) <==> d <= Required(s.n))
  {
    hide Required;
  }

  function Devices(s: Shape, entered: nat, votes: nat, words: nat): map<DeviceId, Trust>
    requires s.stay <= s.last <= s.n
  {
    map d | 1 <= d <= entered :: TrustOf(s, d, HasVoted(s, votes, d), HasSpoken(s, words, d))
  }

  function Ballots(s: Shape, votes: nat): set<TransitionApproval>
    requires s.stay <= s.last <= s.n
  {
    set d | 1 <= d <= s.n + 1 && HasVoted(s, votes, d) :: Ballot(s, d)
  }

  function Checkpoints(s: Shape, entered: nat, words: nat): set<RecoveryApproval> {
    (set d | 1 <= d <= entered && d <= s.n :: Legacy(s, d))
        + (set d | 1 <= d <= s.n && HasSpoken(s, words, d) :: Said(s, d))
  }

  /** So many devices have entered, the voters among the first so many have voted, and so many have spoken. */
  function State(s: Shape, entered: nat, votes: nat, words: nat): Network
    requires s.stay <= s.last <= s.n
  {
    Network(Devices(s, entered, votes, words), Ballots(s, votes), Ballots(s, votes),
            Checkpoints(s, entered, words), Checkpoints(s, entered, words))
  }

  lemma EnterStep(s: Shape, entered: nat)
    requires Fits(s) && entered <= s.n
    ensures Next(State(s, entered, 0, 0), Enroll(entered + 1, Entering(s, entered + 1)), State(s, entered + 1, 0, 0))
  {
    BeforeValid(s);
    hide ValidPackage;
    var d := entered + 1;
    assert Devices(s, d, 0, 0) == Devices(s, entered, 0, 0)[d := Entering(s, d)];
    assert Checkpoints(s, d, 0) == Checkpoints(s, entered, 0) + HeadOf(Entering(s, d));
  }

  lemma VoterEnters(s: Shape, votes: nat)
    requires Fits(s) && votes <= Required(s.n)
    ensures var (d, now) := (Voter(s, votes), Devices(s, s.n + 1, votes, 0));
            && d in now && now[d] == Entering(s, d)
            && Devices(s, s.n + 1, votes + 1, 0) == now[d := AfterVote(s, d)]
  {
    hide Entering, AfterVote;
    var (d, now, next) := (Voter(s, votes), Devices(s, s.n + 1, votes, 0), Devices(s, s.n + 1, votes + 1, 0));
    forall e: DeviceId
      ensures HasVoted(s, votes + 1, e) <==> HasVoted(s, votes, e) || e == d
      ensures !HasSpoken(s, 0, e) && !HasVoted(s, votes, d)
    {
      NextVoter(s, votes, e);
    }
    hide HasVoted, HasSpoken;
    assert next.Keys == now.Keys;
  }

  lemma OneMoreBallot(s: Shape, votes: nat)
    requires Fits(s) && votes <= Required(s.n)
    ensures Ballots(s, votes + 1) == Ballots(s, votes) + {Ballot(s, Voter(s, votes))}
  {
    hide Ballot;
    var d := Voter(s, votes);
    forall e: DeviceId
      ensures HasVoted(s, votes + 1, e) <==> HasVoted(s, votes, e) || e == d
    {
      NextVoter(s, votes, e);
    }
    hide HasVoted;
    assert HasVoted(s, votes + 1, d);
  }

  lemma CastVote(now: Network, d: DeviceId, q: TransitionRequest, a: TransitionApproval, t: Trust, next: Network)
    requires d in now.devices && ApproveTransition(now.devices[d], q, 0) == Approved(a, t, false)
    requires next == now.(devices := now.devices[d := t], heads := now.heads + {a}, published := now.published + {a})
    ensures Next(now, Vote(d, q, 0, true), next)
  {
    hide ApproveTransition;
  }

  lemma VoteStep(s: Shape, votes: nat)
    requires Fits(s) && votes <= Required(s.n)
    ensures Next(State(s, s.n + 1, votes, 0), Vote(Voter(s, votes), Request(s), 0, true),
                 State(s, s.n + 1, votes + 1, 0))
  {
    hide ApproveTransition, Entering, AfterVote, Ballot, Request, Devices, Ballots, Checkpoints, Next;
    VoterEnters(s, votes);
    OneMoreBallot(s, votes);
    var d := Voter(s, votes);
    if votes < Required(s.n) {
      MemberVotes(s, d);
    } else {
      NewcomerVotes(s);
    }
    CastVote(State(s, s.n + 1, votes, 0), d, Request(s), Ballot(s, d), AfterVote(s, d),
             State(s, s.n + 1, votes + 1, 0));
  }

  lemma SpeakerEnters(s: Shape, words: nat)
    requires Fits(s) && words < Required(s.n)
    ensures var m := Required(s.n);
            var (d, now) := (Speaker(s, words), Devices(s, s.n + 1, m + 1, words));
            && d in now && now[d] == TrustOf(s, d, d <= m, false)
            && Devices(s, s.n + 1, m + 1, words + 1) == now[d := TrustOf(s, d, d <= m, true)]
  {
    hide TrustOf;
    var m := Required(s.n);
    var d := Speaker(s, words);
    var (now, next) := (Devices(s, s.n + 1, m + 1, words), Devices(s, s.n + 1, m + 1, words + 1));
    forall e: DeviceId
      ensures HasSpoken(s, words + 1, e) <==> HasSpoken(s, words, e) || e == d
      ensures !HasSpoken(s, words, d) && (HasVoted(s, m + 1, d) <==> d <= m)
    {
      NextSpeaker(s, words, e);
      NextSpeaker(s, words, d);
    }
    hide HasSpoken, HasVoted;
    assert next.Keys == now.Keys;
  }

  lemma OneMoreWord(s: Shape, words: nat)
    requires Fits(s) && words < Required(s.n)
    ensures Checkpoints(s, s.n + 1, words + 1) == Checkpoints(s, s.n + 1, words) + {Said(s, Speaker(s, words))}
  {
    hide Legacy, Said;
    var d := Speaker(s, words);
    forall e: DeviceId
      ensures HasSpoken(s, words + 1, e) <==> HasSpoken(s, words, e) || e == d
    {
      NextSpeaker(s, words, e);
    }
    hide HasSpoken;
    assert HasSpoken(s, words + 1, d);
  }

  lemma SpeakUp(now: Network, d: DeviceId, q: RecoveryRequest, a: RecoveryApproval, t: Trust, next: Network)
    requires d in now.devices && ApproveRecovery(now.devices[d], q, 0) == Approved(a, t, false)
    requires next == now.(devices := now.devices[d := t], recoveryHeads := now.recoveryHeads + {a},
                          recoveryPublished := now.recoveryPublished + {a})
    ensures Next(now, Confirm(d, q, 0, true), next)
  {
    hide ApproveRecovery;
  }

  lemma SpeakStep(s: Shape, words: nat)
    requires Fits(s) && words < Required(s.n)
    ensures Next(State(s, s.n + 1, Required(s.n) + 1, words), Confirm(Speaker(s, words), LastCall(s), 0, true),
                 State(s, s.n + 1, Required(s.n) + 1, words + 1))
  {
    hide ApproveRecovery, TrustOf, Said, LastCall, Devices, Ballots, Checkpoints, Next;
    SpeakerEnters(s, words);
    OneMoreWord(s, words);
    var (d, m) := (Speaker(s, words), Required(s.n));
    MemberSpeaks(s, d);
    SpeakUp(State(s, s.n + 1, m + 1, words), d, LastCall(s), Said(s, d), TrustOf(s, d, d <= m, true),
            State(s, s.n + 1, m + 1, words + 1));
  }

  lemma Longer(trace: seq<Network>, step: Step, next: Network) returns (longer: seq<Network>)
    requires Run(trace) && Next(trace[|trace| - 1], step, next)
    ensures Run(longer) && longer[|longer| - 1] == next
  {
    longer := trace + [next];
    assert Steps(trace[|trace| - 1], next);
    hide Next;
    forall i | 0 <= i < |longer| - 1
      ensures Steps(longer[i], longer[i + 1])
    {
      if i < |trace| - 1 {
        assert Steps(trace[i], trace[i + 1]);
      }
    }
  }

  lemma {:induction false} Enters(s: Shape, entered: nat) returns (trace: seq<Network>)
    requires Fits(s) && entered <= s.n + 1
    ensures Run(trace) && trace[|trace| - 1] == State(s, entered, 0, 0)
    decreases entered
  {
    if entered == 0 {
      trace := [EMPTY];
      assert State(s, 0, 0, 0) == EMPTY;
    } else {
      trace := Enters(s, entered - 1);
      EnterStep(s, entered - 1);
      hide Next, State, Run;
      trace := Longer(trace, Enroll(entered, Entering(s, entered)), State(s, entered, 0, 0));
    }
  }

  lemma {:induction false} Votes(s: Shape, votes: nat) returns (trace: seq<Network>)
    requires Fits(s) && votes <= Required(s.n) + 1
    ensures Run(trace) && trace[|trace| - 1] == State(s, s.n + 1, votes, 0)
    decreases votes
  {
    hide Next, State, Run;
    if votes == 0 {
      trace := Enters(s, s.n + 1);
    } else {
      trace := Votes(s, votes - 1);
      VoteStep(s, votes - 1);
      trace := Longer(trace, Vote(Voter(s, votes - 1), Request(s), 0, true), State(s, s.n + 1, votes, 0));
    }
  }

  lemma {:induction false} Speaks(s: Shape, words: nat) returns (trace: seq<Network>)
    requires Fits(s) && words <= Required(s.n)
    ensures Run(trace) && trace[|trace| - 1] == State(s, s.n + 1, Required(s.n) + 1, words)
    decreases words
  {
    hide Next, State, Run;
    if words == 0 {
      trace := Votes(s, Required(s.n) + 1);
    } else {
      trace := Speaks(s, words - 1);
      SpeakStep(s, words - 1);
      trace := Longer(trace, Confirm(Speaker(s, words - 1), LastCall(s), 0, true),
                      State(s, s.n + 1, Required(s.n) + 1, words));
    }
  }

  // ----- where it ends -----

  /** The devices from `lo` up to but not including `hi`. */
  function Interval(lo: nat, hi: nat): (r: set<DeviceId>)
    requires lo <= hi
    ensures |r| == hi - lo && forall d :: d in r <==> lo <= d < hi
  {
    if lo == hi then {} else Interval(lo, hi - 1) + {hi - 1}
  }

  function Decision(s: Shape): TransitionCertificate
    requires s.stay <= s.last <= s.n
  {
    var m := Required(s.n);
    TransitionCertificate(Request(s), seq(m + 1,
                                          i requires 0 <= i < m + 1 => Ballot(s, if i < m then i + 1 else s.n + 1)))
  }

  function Words(s: Shape): seq<RecoveryApproval>
    requires Required(s.n) <= s.n
  {
    seq(Required(s.n), i requires 0 <= i < Required(s.n) => Said(s, Speaker(s, i)))
  }

  lemma DecisionAt(s: Shape, i: nat)
    requires Fits(s) && i <= Required(s.n)
    ensures |Decision(s).approvals| == Required(s.n) + 1
    ensures Decision(s).approvals[i] == Ballot(s, Voter(s, i))
  {
    hide Ballot, Request;
  }

  lemma DecisionIds(s: Shape, d: DeviceId)
    requires Fits(s) && (1 <= d <= Required(s.n) || d == s.n + 1)
    ensures d in ApproverIds(Decision(s).approvals)
  {
    var i := if d <= Required(s.n) then d - 1 else Required(s.n);
    DecisionAt(s, i);
    hide Decision;
    assert ApproverIds(Decision(s).approvals)[i] == d;
  }

  lemma Decides(s: Shape)
    requires Fits(s)
    ensures JointMajority(Request(s), Decision(s).approvals)
  {
    var (ids, m) := (ApproverIds(Decision(s).approvals), Required(s.n));
    forall d | d in Interval(1, m + 1)
      ensures d in Voters(Before(s), ids)
    {
      DecisionIds(s, d);
      OldVoters(s, d);
    }
    forall d | d in Interval(1, s.stay + 1) + {s.n + 1}
      ensures d in Voters(After(s), ids)
    {
      DecisionIds(s, d);
      NewVoters(s, d);
    }
    SubsetCardinality(Interval(1, m + 1), Voters(Before(s), ids));
    SubsetCardinality(Interval(1, s.stay + 1) + {s.n + 1}, Voters(After(s), ids));
  }

  lemma DecisionSorted(s: Shape)
    requires Fits(s)
    ensures ApproversSorted(Decision(s).approvals) && |Decision(s).approvals| <= MAX_TRANSITION_APPROVALS
  {
    forall i, j | 0 <= i < j < |Decision(s).approvals|
      ensures Decision(s).approvals[i].approver < Decision(s).approvals[j].approver
    {
      DecisionAt(s, i);
      DecisionAt(s, j);
    }
    DecisionAt(s, 0);
  }

  lemma DecisionValid(s: Shape)
    requires Fits(s)
    ensures CertificateValid(Decision(s))
  {
    RequestStatic(s);
    Decides(s);
    DecisionSorted(s);
    DecisionAt(s, 0);
    assert Decision(s).request == Request(s);
    hide VerifyStatic, ActiveVoter, JointMajority, Decision, ApproversSorted;
    forall a | a in Decision(s).approvals
      ensures ApprovalFor(a, Request(s))
    {
      var i :| 0 <= i < |Decision(s).approvals| && a == Decision(s).approvals[i];
      DecisionAt(s, i);
      OldVoters(s, a.approver);
      NewVoters(s, a.approver);
    }
  }

  lemma WordAt(s: Shape, i: nat)
    requires Fits(s) && i < Required(s.n)
    ensures |Words(s)| == Required(s.n) && Words(s)[i] == Said(s, Speaker(s, i))
  {
    hide Said;
  }

  lemma WhoSpoke(s: Shape)
    requires Fits(s)
    ensures |Elements(RecoveryIds(Words(s)))| >= Required(s.n)
  {
    WordAt(s, 0);
    hide Words;
    var (ids, m) := (RecoveryIds(Words(s)), Required(s.n));
    forall d | d in Interval(s.n - m + 1, s.n + 1)
      ensures d in Elements(ids)
    {
      var i := d - (s.n - m + 1);
      WordAt(s, i);
      assert ids[i] in ids;
    }
    SubsetCardinality(Interval(s.n - m + 1, s.n + 1), Elements(ids));
  }

  lemma WordsAreMajority(s: Shape)
    requires Fits(s)
    ensures RecoveryMajority(LastCall(s), Words(s), 0)
  {
    BeforeValid(s);
    WhoSpoke(s);
    WordAt(s, 0);
    MembersAt(1, s.n + 1, 0);
    hide ValidPackage, ActiveVoter, Words, Members, Elements, RecoveryIds;
    forall a | a in Words(s)
      ensures RecoveryApprovalFor(a, LastCall(s), 0)
    {
      var i :| 0 <= i < |Words(s)| && a == Words(s)[i];
      WordAt(s, i);
      OldVoters(s, a.approver);
    }
  }

  lemma AllPublished(s: Shape)
    requires Fits(s)
    ensures forall a :: a in Decision(s).approvals ==> a in Ballots(s, Required(s.n) + 1)
    ensures forall a :: a in Words(s) ==> a in Checkpoints(s, s.n + 1, Required(s.n))
  {
    var m := Required(s.n);
    DecisionAt(s, 0);
    WordAt(s, 0);
    hide Ballot, Said, Legacy, Decision, Words;
    forall a | a in Decision(s).approvals
      ensures a in Ballots(s, m + 1)
    {
      var i :| 0 <= i < |Decision(s).approvals| && a == Decision(s).approvals[i];
      DecisionAt(s, i);
      assert HasVoted(s, m + 1, Voter(s, i));
    }
    forall a | a in Words(s)
      ensures a in Checkpoints(s, s.n + 1, m)
    {
      var i :| 0 <= i < |Words(s)| && a == Words(s)[i];
      WordAt(s, i);
      assert HasSpoken(s, m, Speaker(s, i));
    }
  }

  lemma WhoLeaves(s: Shape)
    requires Fits(s)
    ensures Leavers(Request(s)) == Interval(s.stay + 1, s.last + 1)
    ensures |Before(s).deviceList.devices| == s.n
  {
    forall d: DeviceId
      ensures d in Leavers(Request(s)) <==> d in Interval(s.stay + 1, s.last + 1)
    {
      NewVoters(s, d);
      BeforeLists(s, d);
      Lookup(Before(s).deviceList.devices, d);
      hide ActiveVoter, CertificateFor, Members, Interval;
      InRoster(s, d);
      IntervalHolds(s.stay + 1, s.last + 1, d);
    }
  }

  lemma IntervalHolds(lo: nat, hi: nat, d: DeviceId)
    requires lo <= hi
    ensures d in Interval(lo, hi) <==> lo <= d < hi
  {
  }

  lemma InRoster(s: Shape, d: DeviceId)
    ensures d in Roster(Before(s).deviceList) <==> 1 <= d <= s.n
  {
    MembersAre(1, s.n + 1, Member(d));
    if c :| c in Before(s).deviceList.devices && c.device == d {
      MembersAre(1, s.n + 1, c);
    }
  }

  /** A certified change with so many leavers, and a majority checkpoint over the roster it replaces. */
  ghost predicate Faces(n: nat, gone: nat, trace: seq<Network>, k: nat, c: TransitionCertificate,
                        q: RecoveryRequest, qs: seq<RecoveryApproval>, now: nat) {
    && Run(trace) && k < |trace|
    && Certified(c, trace[k].published) && MajorityPublished(q, qs, now, trace[k].recoveryPublished)
    && q.package.deviceList == c.request.oldPackage.deviceList
    && |c.request.oldPackage.deviceList.devices| == n && |Leavers(c.request)| == gone
  }

  function ShapeOf(n: nat, gone: nat): Shape
    requires 1 <= n <= MAX_ACCOUNT_DEVICES && gone <= n && 2 * Required(n) <= gone + n
    ensures Fits(ShapeOf(n, gone))
  {
    if gone <= Required(n) then Shape(n, n - Required(n), n - Required(n) + gone) else Shape(n, n - gone, n)
  }

  /** For every such roster and number of leavers, a run that leaves the new package behind a majority checkpoint. */
  lemma LeaversRunAhead(n: nat, gone: nat)
    returns (trace: seq<Network>, k: nat, c: TransitionCertificate, q: RecoveryRequest, qs: seq<RecoveryApproval>)
    requires 1 <= n <= MAX_ACCOUNT_DEVICES && gone <= n && 2 * Required(n) <= gone + n
    ensures Faces(n, gone, trace, k, c, q, qs, 0) && !PackageLe(q.package, c.request.newPackage)
  {
    hide CertificateValid, RecoveryMajority, Leavers, Devices, Ballots, Checkpoints;
    var s := ShapeOf(n, gone);
    trace := Speaks(s, Required(n));
    assert trace != [];
    hide Run;
    k, c, q, qs := |trace| - 1, Decision(s), LastCall(s), Words(s);
    DecisionValid(s);
    WordsAreMajority(s);
    AllPublished(s);
    WhoLeaves(s);
    Missing(s);
    hide PackageLe, Fits, Decision, Words, Members, Removals;
    DecisionFor(s);
  }

  lemma Missing(s: Shape)
    requires Fits(s)
    ensures !PackageLe(LastCall(s).package, Request(s).newPackage)
  {
    assert LATE in Ahead(s).memberships && FindMembership(After(s).memberships, LATE.conversation) == None;
  }

  lemma DecisionFor(s: Shape)
    requires s.stay <= s.last <= s.n
    ensures Decision(s).request == Request(s)
  {
  }

  /**
   A majority checkpoint over the old roster is always in the certified new package exactly when fewer
   devices leave than two majorities must share.
   */
  lemma SupersededExactly(n: nat, gone: nat)
    requires 1 <= n <= MAX_ACCOUNT_DEVICES && gone <= n
    ensures (forall trace, k: nat, c, q, qs, now: nat :: Faces(n, gone, trace, k, c, q, qs, now) ==>
             PackageLe(q.package, c.request.newPackage))
            <==> gone + n < 2 * Required(n)
  {
    hide Run, Certified, MajorityPublished, PackageLe, Leavers;
    if gone + n < 2 * Required(n) {
      forall trace, k: nat, c, q, qs, now: nat | Faces(n, gone, trace, k, c, q, qs, now)
        ensures PackageLe(q.package, c.request.newPackage)
      {
        FewLeaversSuperseded(trace, k, c, q, qs, now);
      }
    } else {
      var trace, k, c, q, qs := LeaversRunAhead(n, gone);
    }
  }
}
