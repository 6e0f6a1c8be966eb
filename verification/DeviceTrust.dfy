/**
 One device's durable trust records and the three operations that change them: approving a roster
 transition, installing a certified transition, and approving a recovery checkpoint.

 The functions say what each operation returns and leaves behind; the class `Device` performs the
 operations record by record in a staged workspace, as the source does, and is proved against them.
 */
module DeviceTrust {
  import opened Basics
  import opened Identity
  import opened Voting

  datatype PolicyState = PolicyState(account: AccountId, epoch: nat, roster: DeviceList, latest: TransitionId)

  /** The DB-primary trust records of one device. `installed` is the latest installed certificate. */
  datatype Trust = Trust(
    certificate: DeviceCertificate,
    authority: Authority,
    memberships: map<ConversationId, Membership>,
    policy: Option<PolicyState>,
    installed: Option<TransitionCertificate>,
    transitionHead: Option<TransitionApproval>,
    recoveryHead: Option<RecoveryApproval>)

  /** Membership records are filed under their own conversation. */
  predicate Filed(memberships: map<ConversationId, Membership>) {
    forall c :: c in memberships ==> memberships[c].conversation == c
  }

  function Genesis(p: Package): PolicyState {
    PolicyState(p.account, 0, p.deviceList, ZeroId)
  }

  function Transitioned(c: TransitionCertificate): PolicyState {
    PolicyState(c.request.oldPackage.account, c.request.oldEpoch + 1, c.request.newPackage.deviceList, CertificateId(c))
  }

  /** `verify_transition_anchor`: the request continues exactly this policy. */
  predicate Anchors(p: PolicyState, q: TransitionRequest) {
    && VerifyStatic(q)
    && p.account == q.oldPackage.account
    && p.epoch == q.oldEpoch
    && p.roster == q.oldPackage.deviceList
    && p.latest == q.previous
  }

  /** `verify_legacy_genesis_anchor`: no policy yet, but an earlier recovery approval over the old roster. */
  predicate LegacyGenesis(t: Trust, q: TransitionRequest) {
    && q.oldEpoch == 0 && q.previous == ZeroId
    && t.recoveryHead.Some?
    && t.recoveryHead.value.request.package.account == q.oldPackage.account
    && t.recoveryHead.value.request.package.deviceList == q.oldPackage.deviceList
  }

  // ----- staging a package into the trust records -----

  /** `install_own_authority_snapshot`. */
  predicate AuthorityInstalls(t: Trust, a: Authority) {
    && ValidAuthority(a)
    && a.account == t.certificate.account
    && t.certificate.sequence < a.revision
    && t.authority.account == a.account
    && t.authority.revision <= a.revision
    && (t.authority.revision == a.revision ==> t.authority == a)
  }

  /** `install_conversation_membership`: add-only, no rollback, and never over another owner's record. */
  predicate MembershipInstalls(memberships: map<ConversationId, Membership>, m: Membership) {
    m.conversation in memberships ==>
      memberships[m.conversation].owner == m.owner && MembershipExtends(memberships[m.conversation], m)
  }

  /** Every package membership can be installed, and then is. */
  function StageMemberships(memberships: map<ConversationId, Membership>, ms: seq<Membership>)
    : Option<map<ConversationId, Membership>>
  {
    if forall m :: m in ms ==> MembershipInstalls(memberships, m) then
      Some(Overlay(memberships, ms))
    else
      None
  }

  function Overlay(memberships: map<ConversationId, Membership>, ms: seq<Membership>): map<ConversationId, Membership> {
    if ms == [] then memberships
    else Overlay(memberships, ms[..|ms| - 1])[ms[|ms| - 1].conversation := ms[|ms| - 1]]
  }

  function Stage(t: Trust, p: Package): Option<Trust> {
    var memberships := StageMemberships(t.memberships, p.memberships);
    if AuthorityInstalls(t, p.authority) && memberships.Some? then
      Some(t.(authority := p.authority, memberships := memberships.value))
    else
      None
  }

  /** What an overlay holds: the package's records where it has one, the old records elsewhere. */
  lemma {:induction false} OverlayContents(memberships: map<ConversationId, Membership>, ms: seq<Membership>)
    requires MembershipsSorted(ms)
    ensures forall m :: m in ms ==> m.conversation in Overlay(memberships, ms)
                                    && Overlay(memberships, ms)[m.conversation] == m
    ensures forall c :: c in memberships ==> c in Overlay(memberships, ms)
    ensures forall c :: c in Overlay(memberships, ms) && (forall m :: m in ms ==> m.conversation != c) ==>
                          c in memberships && Overlay(memberships, ms)[c] == memberships[c]
  {
    if ms != [] {
      var last := |ms| - 1;
      OverlayContents(memberships, ms[..last]);
      assert ms == ms[..last] + [ms[last]];
      assert forall m :: m in ms[..last] ==> m.conversation < ms[last].conversation;
    }
  }

  lemma OverlayFiled(memberships: map<ConversationId, Membership>, ms: seq<Membership>)
    ensures Filed(memberships) ==> Filed(Overlay(memberships, ms))
  {
    if ms != [] {
      OverlayFiled(memberships, ms[..|ms| - 1]);
    }
  }

  // ----- the operations -----

  datatype Outcome<A> = Refused | Approved(approval: A, trust: Trust, reused: bool)

  /** The package whose state the device must be behind, and adopts. */
  function VotingPackage(t: Trust, q: TransitionRequest): Package {
    if Authorizes(q.newPackage, t.certificate) then q.newPackage else q.oldPackage
  }

  predicate AnchorAccepted(t: Trust, q: TransitionRequest) {
    Authorizes(q.oldPackage, t.certificate) ==>
      if t.policy.Some? then Anchors(t.policy.value, q) else LegacyGenesis(t, q)
  }

  /** Every check `approve_decoded_transition` makes before it looks at the approval head. */
  predicate MayVote(t: Trust, q: TransitionRequest, now: nat) {
    && Current(q, now)
    && (Authorizes(q.oldPackage, t.certificate) || Authorizes(q.newPackage, t.certificate))
    && Dominates(VotingPackage(t, q), t.certificate, t.authority, t.memberships)
    && AnchorAccepted(t, q)
  }

  function NextTransitionApproval(t: Trust, q: TransitionRequest, now: nat): TransitionApproval {
    TransitionApproval(q, t.certificate.device,
                       if t.transitionHead.Some? then ApprovalIdOf(t.transitionHead.value) else NoApproval, now)
  }

  /** `approve_decoded_transition`. */
  function ApproveTransition(t: Trust, q: TransitionRequest, now: nat): Outcome<TransitionApproval> {
    if !MayVote(t, q, now) then Refused
    else if t.transitionHead.Some? && t.transitionHead.value.request == q then
      var existing := t.transitionHead.value;
      if ApprovalFor(existing, q) && existing.approver == t.certificate.device then Approved(existing, t, true)
          else Refused
    else if t.transitionHead.Some? &&
            !(&& t.transitionHead.value.request.oldPackage.account == q.oldPackage.account
              && t.transitionHead.value.request.oldEpoch < q.oldEpoch) then Refused
    else
      var approval := NextTransitionApproval(t, q, now);
      var staged := Stage(t, VotingPackage(t, q));
      if staged.None? then Refused
      else
        var policy := if Authorizes(q.oldPackage, t.certificate) && t.policy.None? then Some(Genesis(q.oldPackage))
            else t.policy;
        Approved(approval, staged.value.(policy := policy, transitionHead := Some(approval)), false)
  }

  /** `install_transition`; `None` is a refusal. The certificate has been decoded and verified. */
  function Install(t: Trust, c: TransitionCertificate): Option<Trust> {
    if !CertificateValid(c) then None
    else if t.policy == Some(Transitioned(c)) then Some(t)
    else if !Authorizes(c.request.newPackage, t.certificate) then None
    else if !Dominates(c.request.newPackage, t.certificate, t.authority, t.memberships) then None
    else if t.policy.Some? && !Anchors(t.policy.value, c.request) then None
    else if t.policy.None? && Authorizes(c.request.oldPackage, t.certificate) && !LegacyGenesis(t, c.request) then None
    else
      var staged := Stage(t, c.request.newPackage);
      if staged.None? then None
      else Some(staged.value.(policy := Some(Transitioned(c)), installed := Some(c)))
  }

  /** The committed approval head lets this candidate follow it: same roster, or one installed bridge. */
  predicate HeadAdmits(t: Trust, p: Package) {
    t.recoveryHead.Some? ==>
      var head := t.recoveryHead.value.request.package;
      && head.account == p.account
      && (head.deviceList != p.deviceList ==>
            && t.policy.Some?
            && t.policy.value.account == p.account && t.policy.value.roster == p.deviceList
            && t.installed.Some?
            && t.policy.value.latest == CertificateId(t.installed.value)
            && t.installed.value.request.oldPackage.deviceList == head.deviceList
            && ExtendsCertificate(p, t.installed.value))
      && head.authority.revision <= p.authority.revision
  }

  predicate PolicyAdmits(t: Trust, p: Package) {
    t.policy.Some? ==> t.policy.value.account == p.account && t.policy.value.roster == p.deviceList
  }

  function NextRecoveryApproval(t: Trust, q: RecoveryRequest, now: nat): RecoveryApproval {
    RecoveryApproval(q, t.certificate.device,
                     if t.recoveryHead.Some? then RecoveryApprovalIdOf(t.recoveryHead.value)
                         else NoRecoveryApproval, now)
  }

  /** `approve_decoded_request`. */
  function ApproveRecovery(t: Trust, q: RecoveryRequest, now: nat): Outcome<RecoveryApproval> {
    if !RecoveryCurrent(q, now) then Refused
    else if !Dominates(q.package, t.certificate, t.authority, t.memberships) then Refused
    else if t.recoveryHead.Some? && t.recoveryHead.value.request == q then
      var existing := t.recoveryHead.value;
      if RecoveryApprovalFor(existing, q, now) && existing.approver == t.certificate.device
          then Approved(existing, t, true)
      else Refused
    else if !HeadAdmits(t, q.package) || !PolicyAdmits(t, q.package) then Refused
    else
      var approval := NextRecoveryApproval(t, q, now);
      var staged := Stage(t, q.package);
      if staged.None? then Refused
      else
        var policy := if t.policy.Some? then t.policy else Some(Genesis(q.package));
        Approved(approval, staged.value.(policy := policy, recoveryHead := Some(approval)), false)
  }

  // ----- what staging does to the high-water marks -----

  /** The device holds at least everything the package carries. */
  predicate Covers(t: Trust, p: Package) {
    && AuthorityLe(p.authority, t.authority)
    && forall m :: m in p.memberships ==>
         m.conversation in t.memberships && MembershipLe(m, t.memberships[m.conversation])
  }

  /** A dominating package cannot be refused by staging, except over a conversation another account owns. */
  lemma DominatedStaging(t: Trust, p: Package)
    requires Filed(t.memberships)
    requires Dominates(p, t.certificate, t.authority, t.memberships)
    ensures Stage(t, p).Some? <==>
            forall m :: m in p.memberships && m.conversation in t.memberships ==>
                t.memberships[m.conversation].owner == p.account
  {
    hide ValidDeviceList, Overlay;
    forall m | m in p.memberships
      ensures MembershipInstalls(t.memberships, m) <==>
              (m.conversation in t.memberships ==> t.memberships[m.conversation].owner == p.account)
    {
      FoundIsUnique(p.memberships, m);
    }
  }

  /** A conversation of the package is on file under another account. */
  predicate ForeignRecord(t: Trust, p: Package) {
    exists m :: m in p.memberships && m.conversation in t.memberships
                && t.memberships[m.conversation].owner != p.account
  }

  /**
   A request or certificate that passes every other check is refused exactly for a record filed under
   another account: a checkpoint, a vote that is not a retry, and an installation.
   */
  lemma ForeignRecordRefuses(t: Trust, q: RecoveryRequest, r: TransitionRequest, c: TransitionCertificate, now: nat)
    requires Filed(t.memberships)
    ensures RecoveryCurrent(q, now) && Dominates(q.package, t.certificate, t.authority, t.memberships)
            && HeadAdmits(t, q.package) && PolicyAdmits(t, q.package)
            && (t.recoveryHead.Some? ==> t.recoveryHead.value.request != q) ==>
              (ApproveRecovery(t, q, now).Refused? <==> ForeignRecord(t, q.package))
    ensures MayVote(t, r, now) && (t.transitionHead.Some? ==>
              && t.transitionHead.value.request.oldPackage.account == r.oldPackage.account
              && t.transitionHead.value.request.oldEpoch < r.oldEpoch) ==>
              (ApproveTransition(t, r, now).Refused? <==> ForeignRecord(t, VotingPackage(t, r)))
    ensures CertificateValid(c) && t.policy.Some? && t.policy != Some(Transitioned(c))
            && Anchors(t.policy.value, c.request)
            && Dominates(c.request.newPackage, t.certificate, t.authority, t.memberships) ==>
              (Install(t, c).None? <==> ForeignRecord(t, c.request.newPackage))
  {
    hide RecoveryCurrent, HeadAdmits, PolicyAdmits, AnchorAccepted, CertificateValid, Anchors, Stage, Current,
         ApprovalFor,
         RecoveryApprovalFor;
    forall p: Package | Dominates(p, t.certificate, t.authority, t.memberships)
      ensures Stage(t, p).Some? <==> !ForeignRecord(t, p)
    {
      DominatedStaging(t, p);
    }
    assert forall p :: Dominates(p, t.certificate, t.authority, t.memberships) ==> Authorizes(p, t.certificate);
    hide Dominates, Authorizes, ForeignRecord;
  }

  lemma {:induction false} FoundIsUnique(ms: seq<Membership>, m: Membership)
    requires MembershipsSorted(ms) && m in ms
    ensures FindMembership(ms, m.conversation) == Some(m)
  {
    if ms[0] != m {
      assert m in ms[1..];
      assert MembershipsSorted(ms[1..]);
      FoundIsUnique(ms[1..], m);
      var i :| 1 <= i < |ms| && ms[i] == m;
      assert ms[0].conversation < ms[i].conversation;
    }
  }

  /** After staging the device covers the package it adopted. */
  lemma StageCovers(t: Trust, p: Package)
    requires MembershipsSorted(p.memberships) && Stage(t, p).Some?
    ensures Covers(Stage(t, p).value, p)
  {
    OverlayContents(t.memberships, p.memberships);
  }

  /** Staging never loses coverage: the high-water marks only rise. */
  lemma StageKeepsCoverage(t: Trust, p: Package, x: Package)
    requires MembershipsSorted(p.memberships) && Stage(t, p).Some?
    requires Covers(t, x)
    ensures Covers(Stage(t, p).value, x)
  {
    hide ValidAuthority, Overlay;
    OverlayContents(t.memberships, p.memberships);
    var s := Stage(t, p).value;
    forall m | m in x.memberships
      ensures m.conversation in s.memberships && MembershipLe(m, s.memberships[m.conversation])
    {
      var held := t.memberships[m.conversation];
      if n :| n in p.memberships && n.conversation == m.conversation {
        assert MembershipInstalls(t.memberships, n);
        MembershipLeTransitive(m, held, n);
      }
    }
  }

  /** A package that dominates the device is at least every package the device covers. */
  lemma CoveredBelow(t: Trust, x: Package, p: Package)
    requires Filed(t.memberships)
    requires Covers(t, x) && ValidPackage(x) && x.account == p.account
    requires Dominates(p, t.certificate, t.authority, t.memberships)
    ensures PackageLe(x, p)
  {
    hide ValidDeviceList, ValidAuthority, Authorizes;
    forall m | m in x.memberships
      ensures var found := FindMembership(p.memberships, m.conversation); found.Some? && MembershipLe(m, found.value)
    {
      var held := t.memberships[m.conversation];
      assert held.owner == p.account;
      var found := FindMembership(p.memberships, held.conversation).value;
      assert ValidMembership(found, p.account);
      MembershipLeTransitive(m, held, found);
    }
  }

  // ----- the operations as the device performs them -----

  class Device {
    var primary: Trust      // the committed DB-primary records
    var workspace: Trust    // the staged trust tree; equal to the primary between operations

    ghost predicate Valid()
      reads this
    {
      workspace == primary && Filed(primary.memberships)
    }

    constructor (trust: Trust)
      requires Filed(trust.memberships)
      ensures Valid() && primary == trust
    {
      primary, workspace := trust, trust;
    }

    /** Installs the authority snapshot, then each membership; stops at the first refusal. */
    method StagePackage(p: Package) returns (ok: bool)
      requires Valid() && ValidPackage(p)
      modifies this`workspace
      ensures ok <==> Stage(primary, p).Some?
      ensures ok ==> workspace == Stage(primary, p).value
    {
      if !AuthorityInstalls(workspace, p.authority) {
        return false;
      }
      workspace := workspace.(authority := p.authority);
      for i := 0 to |p.memberships|
        invariant workspace == primary.(authority := p.authority,
                                        memberships := Overlay(primary.memberships, p.memberships[..i]))
        invariant forall k :: 0 <= k < i ==> MembershipInstalls(primary.memberships, p.memberships[k])
      {
        var m := p.memberships[i];
        OverlayElsewhere(primary.memberships, p.memberships, i);
        if !MembershipInstalls(workspace.memberships, m) {
          return false;
        }
        assert p.memberships[..i + 1][..i] == p.memberships[..i];
        workspace := workspace.(memberships := workspace.memberships[m.conversation := m]);
      }
      assert p.memberships[..|p.memberships|] == p.memberships;
      ok := true;
    }

    /** Approves a transition: the head is committed before the approval is returned. */
    method Approve(q: TransitionRequest, now: nat) returns (r: Option<(TransitionApproval, bool)>)
      requires Valid()
      modifies this
      ensures Valid()
      ensures match ApproveTransition(old(primary), q, now)
              case Refused => r == None && primary == old(primary)
              case Approved(approval, trust, reused) => r == Some((approval, reused)) && primary == trust
    {
      hide Current, Dominates, AnchorAccepted, ApprovalFor, AuthorityInstalls, Overlay;
      if !MayVote(primary, q, now) {
        return None;
      }
      var head := primary.transitionHead;
      if head.Some? && head.value.request == q {
        if !ApprovalFor(head.value, q) || head.value.approver != primary.certificate.device {
          return None;
        }
        return Some((head.value, true));
      }
      if head.Some? &&
         !(head.value.request.oldPackage.account == q.oldPackage.account && head.value.request.oldEpoch < q.oldEpoch) {
        return None;
      }
      var approval := NextTransitionApproval(primary, q, now);
      var package := VotingPackage(primary, q);
      DominatingIsValid(package, primary);
      var staged := StagePackage(package);
      if !staged {
        workspace := primary;
        return None;
      }
      if Authorizes(q.oldPackage, primary.certificate) && primary.policy.None? {
        workspace := workspace.(policy := Some(Genesis(q.oldPackage)));
      }
      workspace := workspace.(transitionHead := Some(approval));
      OverlayFiled(primary.memberships, package.memberships);
      primary := workspace;
      r := Some((approval, false));
    }

    /** Installs a certified transition. */
    method InstallTransition(c: TransitionCertificate) returns (ok: bool)
      requires Valid()
      modifies this
      ensures Valid()
      ensures ok <==> Install(old(primary), c).Some?
      ensures primary == if ok then Install(old(primary), c).value else old(primary)
    {
      hide CertificateValid, Dominates, Anchors, LegacyGenesis, AuthorityInstalls, Authorizes, Overlay;
      if !CertificateValid(c) {
        return false;
      }
      if primary.policy == Some(Transitioned(c)) {
        return true;
      }
      var package := c.request.newPackage;
      if !Authorizes(package, primary.certificate)
         || !Dominates(package, primary.certificate, primary.authority, primary.memberships) {
        return false;
      }
      if primary.policy.Some? {
        if !Anchors(primary.policy.value, c.request) {
          return false;
        }
      } else if Authorizes(c.request.oldPackage, primary.certificate) && !LegacyGenesis(primary, c.request) {
        return false;
      }
      DominatingIsValid(package, primary);
      ok := StagePackage(package);
      if !ok {
        workspace := primary;
        return;
      }
      workspace := workspace.(policy := Some(Transitioned(c)));
      workspace := workspace.(installed := Some(c));
      OverlayFiled(primary.memberships, package.memberships);
      primary := workspace;
    }

    /** Approves a recovery checkpoint: policy and head are committed before the approval is returned. */
    method ApproveCheckpoint(q: RecoveryRequest, now: nat) returns (r: Option<(RecoveryApproval, bool)>)
      requires Valid()
      modifies this
      ensures Valid()
      ensures match ApproveRecovery(old(primary), q, now)
              case Refused => r == None && primary == old(primary)
              case Approved(approval, trust, reused) => r == Some((approval, reused)) && primary == trust
    {
      hide RecoveryCurrent, Dominates, RecoveryApprovalFor, HeadAdmits, PolicyAdmits, AuthorityInstalls, Overlay;
      if !RecoveryCurrent(q, now) || !Dominates(q.package, primary.certificate, primary.authority,
                                                primary.memberships) {
        return None;
      }
      var head := primary.recoveryHead;
      if head.Some? && head.value.request == q {
        if !RecoveryApprovalFor(head.value, q, now) || head.value.approver != primary.certificate.device {
          return None;
        }
        return Some((head.value, true));
      }
      if !HeadAdmits(primary, q.package) || !PolicyAdmits(primary, q.package) {
        return None;
      }
      var policy := if primary.policy.Some? then primary.policy else Some(Genesis(q.package));
      var approval := NextRecoveryApproval(primary, q, now);
      DominatingIsValid(q.package, primary);
      var staged := StagePackage(q.package);
      if !staged {
        workspace := primary;
        return None;
      }
      workspace := workspace.(policy := policy);
      workspace := workspace.(recoveryHead := Some(approval));
      OverlayFiled(primary.memberships, q.package.memberships);
      primary := workspace;
      r := Some((approval, false));
    }
  }

  lemma DominatingIsValid(p: Package, t: Trust)
    requires Dominates(p, t.certificate, t.authority, t.memberships)
    ensures ValidPackage(p)
  {
  }

  /** Earlier memberships of a sorted package leave a later one's record alone. */
  lemma OverlayElsewhere(memberships: map<ConversationId, Membership>, ms: seq<Membership>, i: nat)
    requires MembershipsSorted(ms) && i < |ms|
    ensures MembershipInstalls(Overlay(memberships, ms[..i]), ms[i]) <==> MembershipInstalls(memberships, ms[i])
  {
    OverlayContents(memberships, ms[..i]);
    assert forall m :: m in ms[..i] ==> m.conversation != ms[i].conversation;
  }
}
