/**
 Chains of certified transitions. A policy anchor names its latest certificate, whose request names
 the certificate before it, back to the zero predecessor of epoch 0.
 */
module Chain {
  import opened Basics
  import opened Identity
  import opened Voting

  /** A valid certificate all of whose approvals were really published by their devices. */
  predicate Certified(c: TransitionCertificate, published: set<TransitionApproval>) {
    CertificateValid(c) && forall a :: a in c.approvals ==> a in published
  }

  /** `(account, epoch, roster, id)` is reached from epoch 0 by certified transitions only. */
  ghost predicate Chained(account: AccountId, epoch: nat, roster: DeviceList, id: TransitionId,
                          published: set<TransitionApproval>)
    decreases id
  {
    match id
    case ZeroId => epoch == 0
    case UnknownId(_) => false
    case CertificateId(c) =>
      && Certified(c, published)
      && c.request.oldPackage.account == account
      && c.request.oldEpoch + 1 == epoch
      && c.request.newPackage.deviceList == roster
      && Chained(account, c.request.oldEpoch, c.request.oldPackage.deviceList, c.request.previous, published)
  }

  /** What a request claims to continue has been reached by certified transitions. */
  ghost predicate RequestChained(q: TransitionRequest, published: set<TransitionApproval>) {
    Chained(q.oldPackage.account, q.oldEpoch, q.oldPackage.deviceList, q.previous, published)
  }

  lemma {:induction false} ChainedMonotone(account: AccountId, epoch: nat, roster: DeviceList, id: TransitionId,
                                           published: set<TransitionApproval>, more: set<TransitionApproval>)
    requires published <= more
    requires Chained(account, epoch, roster, id, published)
    ensures Chained(account, epoch, roster, id, more)
    decreases id
  {
    hide CertificateValid;
    match id
    case ZeroId =>
    case UnknownId(_) =>
    case CertificateId(c) =>
      ChainedMonotone(account, c.request.oldEpoch, c.request.oldPackage.deviceList, c.request.previous, published,
                      more);
  }

  /** The certificates an anchor rests on, oldest first. */
  function Certificates(id: TransitionId): seq<TransitionCertificate>
    decreases id
  {
    match id
    case ZeroId => []
    case UnknownId(_) => []
    case CertificateId(c) => Certificates(c.request.previous) + [c]
  }

  /** The roster an anchor's chain starts from. */
  function GenesisRoster(roster: DeviceList, id: TransitionId): DeviceList
    decreases id
  {
    match id
    case ZeroId => roster
    case UnknownId(_) => roster
    case CertificateId(c) => GenesisRoster(c.request.oldPackage.deviceList, c.request.previous)
  }

  function RosterAfter(genesis: DeviceList, cs: seq<TransitionCertificate>): DeviceList {
    if cs == [] then genesis else cs[|cs| - 1].request.newPackage.deviceList
  }

  function IdAfter(cs: seq<TransitionCertificate>): TransitionId {
    if cs == [] then ZeroId else CertificateId(cs[|cs| - 1])
  }

  /** An unbroken line of certified transitions: epoch `i` to `i + 1`, each from where the one before ended. */
  ghost predicate Unbroken(account: AccountId, genesis: DeviceList, cs: seq<TransitionCertificate>,
                           published: set<TransitionApproval>) {
    forall i :: 0 <= i < |cs| ==>
      && Certified(cs[i], published)
      && cs[i].request.oldPackage.account == account
      && cs[i].request.oldEpoch == i
      && cs[i].request.oldPackage.deviceList == RosterAfter(genesis, cs[..i])
      && cs[i].request.previous == IdAfter(cs[..i])
  }

  /** A chained anchor at epoch `e` rests on exactly `e` certificates, unbroken from its genesis roster. */
  lemma {:induction false} ChainIsUnbroken(account: AccountId, epoch: nat, roster: DeviceList, id: TransitionId,
                                           published: set<TransitionApproval>)
    requires Chained(account, epoch, roster, id, published)
    ensures |Certificates(id)| == epoch
    ensures Unbroken(account, GenesisRoster(roster, id), Certificates(id), published)
    ensures RosterAfter(GenesisRoster(roster, id), Certificates(id)) == roster
    ensures IdAfter(Certificates(id)) == id
    decreases id
  {
    hide CertificateValid;
    match id
    case ZeroId =>
    case UnknownId(_) =>
    case CertificateId(c) =>
      ChainIsUnbroken(account, c.request.oldEpoch, c.request.oldPackage.deviceList, c.request.previous, published);
      OneMoreLink(account, GenesisRoster(roster, id), Certificates(c.request.previous), c, published);
  }

  lemma OneMoreLink(account: AccountId, genesis: DeviceList, cs: seq<TransitionCertificate>, c: TransitionCertificate,
                    published: set<TransitionApproval>)
    requires Unbroken(account, genesis, cs, published) && Certified(c, published)
    requires c.request.oldPackage.account == account && c.request.oldEpoch == |cs|
    requires c.request.oldPackage.deviceList == RosterAfter(genesis, cs) && c.request.previous == IdAfter(cs)
    ensures Unbroken(account, genesis, cs + [c], published)
  {
    hide Certified;
    assert (cs + [c])[..|cs|] == cs;
    assert forall i :: 0 <= i < |cs| ==> (cs + [c])[..i] == cs[..i];
  }
}
