# Kilogram: recovery policy, crash-consistent commit, sync, removal and preservation

This project models the parts of Kilogram in which several devices, several processes or several crashes
have to agree, and proves what they agree on. `dafny verify dfyconfig.toml` checks all of it.

## What is modelled

**Recovery-policy joint consensus** (`Identity`, `Voting`, `DeviceTrust`, `Chain`, `Network`, `Agreement`,
`Splits`, `Freshness`, `Succession`, and the concrete runs in `Example`, `SplitExample`, `StrandedExample`
and `LeaverExample`). An account's devices vote on changing the set of devices that may
approve recovery checkpoints. `DeviceTrust` holds one device's durable trust records and the three operations
on them, once as functions and once as a class that performs them record by record. `Network` is the whole
account: any number of devices, each running the operations at any time on any request, with a crash allowed
between the commit of an approval and its publication. Everything said about runs is for every run from the
empty account, at every moment. A Root that signs conflicting packages is allowed; a forged device signature
is not, so a certificate only carries approvals that a device published. A digest stands for what it digests,
so two certificates of one request that carry different approvals have different IDs.

**The commit sequence under it** (`StateVault`). Mirror intent, journal, backup, staging, one database
transaction, shadow confirmation, and the recovery at the next open. Every durable write has a fate chosen
arbitrarily: done, lost, done without being reported, or damaged. A crash is a point after which every write
is lost, so the contracts cover a crash after any prefix, I/O errors, and any mixture, repeated for ever. The
order in which a directory is deleted is a parameter too.

**The durable sync driver** (`Sync`, `SyncLoops`, `SyncStall`). Client and responder as one product machine
with an event for each line of either side, disconnects and crashes anywhere and local events arriving at any
time; and both loops as methods over the journal each side keeps. What each loop guarantees holds against any
peer. Two loops talking to each other over any number of connections, with any frame unsent or unread and any
answer read but not confirmed or confirmed but not read, are proved to be a run of the machine, so what is
proved of the machine holds of them.

**Exact device removal** (`Removal`), **artifact publication** (`Artifacts`), the **held-file worker**
(`HeldHash`, `HeldHandles`) and the **two-lane history** (`History`).

## Where the code does less than one might expect

Each of these comes with a concrete input or run that shows it and with what holds instead.

- A retried recovery request gets its earlier approval back exactly while that approval is still the head
  (`Freshness.RecoveryRetry`). After another request was approved in between, the device signs a second
  approval of the first request (`Example.RetryAfterAnotherHead`, a run). Transition approvals do not behave this
  way (`Agreement.RetryIsIdentical`).
- A device whose last checkpoint approval is over neither roster of a certificate it installs is stranded,
  exactly then (`Freshness.InstallStrands`, `Freshness.OnlyInstallStrands`), and never approves another
  checkpoint (`Freshness.StrandedForever`). For a device with a policy this means that its head lagged the
  policy (`Freshness.SkippedRosterStrands`; a run is `StrandedExample.StrandedReachable`). A device with an
  approval from before policies can be stranded by its very first installation
  (`StrandedExample.VeteranStranded`).
- Devices that installed certificates of one request with different approvals are on different lines for good:
  their anchors never agree again (`Splits.SplitForever`) and no later request gets both as old-roster voters
  (`Splits.SplitNeverVotesTogether`; two anchored voters are admitted together exactly when both hold the one
  anchor the request names, `Splits.AdmittedTogether`). If no line can still have a majority of a roster on it,
  counting the devices that have yet to reach the epoch, no transition from that roster and epoch is certified
  from then on (`Splits.NoQuorumNoTransition`, `Splits.NoQuorumByCount`). A run of three devices gets there and
  never changes its roster again (`SplitExample.SplitReachable`, `SplitExample.StuckForever`).
- A checkpoint that reached an old-roster majority can be ahead of the certified new package. It never is, if a
  device that approved both stays a voter (`Succession.OldMajoritySuperseded`). For a roster of n devices and a
  given number of leavers it never is exactly when fewer leave than two majorities of n must share
  (`LeaverExample.SupersededExactly`); otherwise `LeaverExample.LeaversRunAhead` is a run.
- The journal directory is removed entry by entry in the order the directory lists them. A crash in the middle
  can leave a store that the next open refuses. No crash does, exactly when the markers that retire the journal,
  or else the manifest and the backup, come after the prepared marker (`StateVault.SafeOrderExactly`);
  `StateVault.UnsafeOrderTears` has the tear for every other order. The committed records are never mixed.
- A trust write can report an error although its records are committed: exactly when every write before the
  database transaction was done, the transaction took effect, and it was itself unreported or one of the stated
  number of writes after it was not done. A failure before the transaction always leaves the old records
  (`StateVault.TrustStore.CommitTrust`; a batch that changes no record has no transaction).
- A removal stopped between the revocation and the refreshed list is repaired by an exact retry, as
  README.md:1990-1996 promises. The revocation has an earlier write of its own, the sequence file: a stop after
  that file was touched and before the revocation was written makes every exact retry fail
  (`Removal.AccountRoot.RemoveDevice`, which says exactly which fates of the writes lead there;
  `Removal.StoppedInGap` is such a removal).
- In sync, if one side has recorded a round's Complete and the other loses it, neither side can move again
  (`Sync.LostForever`, reachable by `Sync.LostReachable`; for the loops, `SyncLoops.ApartForever` and
  `SyncLoops.ComesApart`). A hand-off that is not lost can still be settled (`Sync.HandOffSettles`). If a Diff
  is lost and the responder's store grows so that the Diff is never planned again, no retry is ever answered
  (`SyncStall.StalledForever`, reachable by `SyncStall.StallReachable`); otherwise the Diff can still be
  delivered (`SyncStall.UnstalledDelivers`).
- Two of the four artifact writers report an error when they lose a race, exactly then
  (`Artifacts.ImpatientWriterErrs`), even a race against their own bytes (`Artifacts.LosesToItsOwnBytes`).

## Model

| member | source | states |
|---|---|---|
| `Identity.RosterSize` | crates/kilogram-identity/src/account.rs:2108-2147 | a valid (strictly sorted) roster has exactly as many voters as certificates, which is what the majority arithmetic divides |
| `Identity.PackageLeAntisymmetric` | crates/kilogram-identity/src/recovery_quorum.rs:473-561 | two packages over one device list, each at least the other, are the same package: the dominance order has no forks |
| `Identity.CertificateFor` | crates/kilogram-identity/src/account.rs:2099-2105 | the certificate found is listed and is that device's; none is found only if none is listed |
| `Basics.MajoritiesMeet` | crates/kilogram-identity/src/recovery_policy.rs:342-349 | two strict majorities of one roster share a device |
| `Voting.VerifyTransition` | crates/kilogram-identity/src/recovery_policy.rs:562-592 | the counting loop succeeds exactly for matching approvals from distinct devices, and reports satisfied exactly when both strict majorities are there, an overlap device counting in both |
| `Voting.SortedApprovals` | crates/kilogram-identity/src/recovery_policy.rs:607-623 | approvals of distinct devices come out in strict device order |
| `Voting.Certify` | apps/kilogram-bootstrap/src/recovery_policy.rs:848-876 | a certificate is issued exactly for a current request with both majorities; it is valid and holds exactly the given approvals |
| `Voting.CertificateCanonical` | crates/kilogram-identity/src/recovery_policy.rs:644-660 | a valid certificate is fixed by its request and its set of approvals |
| `Voting.SomeOldVoter` | crates/kilogram-identity/src/recovery_policy.rs:562-592 | every valid certificate carries the approval of an old-roster voter, so new-only approvals never suffice |
| `Voting.VerifyQuorum` | crates/kilogram-identity/src/recovery_quorum.rs:433-470 | majority, single-device and integrity-only claims each exactly when the distinct matching approvals justify them |
| `Voting.VerifyWithPolicyCertificate` | apps/kilogram-bootstrap/src/recovery_quorum.rs:963-988 | fork safety is reported exactly with a majority, and only for a candidate that extends the verified certificate |
| `DeviceTrust.Device.StagePackage` | apps/kilogram-bootstrap/src/recovery_policy.rs:1041-1050 | installing the authority and then each membership succeeds exactly when the whole package can be staged, with that result |
| `DeviceTrust.Device.Approve` | apps/kilogram-bootstrap/src/recovery_policy.rs:359-517 | the step-by-step approval commits and returns exactly what the specification function says, or changes nothing |
| `DeviceTrust.Device.InstallTransition` | apps/kilogram-bootstrap/src/recovery_policy.rs:888-970 | the step-by-step installation does what the specification function says, or changes nothing |
| `DeviceTrust.Device.ApproveCheckpoint` | apps/kilogram-bootstrap/src/recovery_quorum.rs:350-577 | the step-by-step checkpoint approval does what the specification function says, or changes nothing |
| `DeviceTrust.OverlayContents` | crates/kilogram-identity/src/account.rs:2503-2550 | after staging, each package membership is filed under its conversation and every other record is as it was |
| `DeviceTrust.DominatedStaging` | crates/kilogram-identity/src/recovery_quorum.rs:473-561 | a dominating package is refused by staging exactly when one of its conversations is filed under another owner |
| `DeviceTrust.ForeignRecordRefuses` | apps/kilogram-bootstrap/src/recovery_quorum.rs:990-1045 | a checkpoint, a vote or an installation that passes every other check is refused exactly for a conversation filed under another owner |
| `DeviceTrust.StageCovers` | crates/kilogram-identity/src/account.rs:2444-2460 | the device holds at least the package it adopted |
| `DeviceTrust.StageKeepsCoverage` | crates/kilogram-identity/src/account.rs:2579-2619 | staging never loses anything the device already held |
| `DeviceTrust.CoveredBelow` | crates/kilogram-identity/src/recovery_quorum.rs:473-561 | a package that dominates the device is at least every package the device holds |
| `Chain.ChainIsUnbroken` | crates/kilogram-identity/src/recovery_policy.rs:129-143 | an anchor at epoch e unfolds into exactly e certificates, each starting where the one before ended |
| `Network.OldVoterIsExact` | apps/kilogram-bootstrap/src/recovery_policy.rs:1135-1152 | a device the old roster counts holds exactly the certificate the old package lists |
| `Network.VoteEffect` | apps/kilogram-bootstrap/src/recovery_policy.rs:434-516 | what an approval leaves behind: it is the new head, linked to the old one, at a later old epoch, nothing else of the policy touched |
| `Network.VoteIsAnchored` | apps/kilogram-bootstrap/src/recovery_policy.rs:407-433 | an old-roster vote continues the anchor its device holds, or starts at epoch 0 |
| `Network.VoteAnchors` | apps/kilogram-bootstrap/src/recovery_policy.rs:485-497 | after a new old-roster vote the device is anchored exactly where the request starts |
| `Network.ConfirmAnchors` | apps/kilogram-bootstrap/src/recovery_quorum.rs:517-545 | after a new checkpoint approval the device has a policy over the checkpoint's roster |
| `Network.InstallEffect` | apps/kilogram-bootstrap/src/recovery_policy.rs:914-959 | installing sets policy and certificate together, from an anchored state, and leaves both heads alone |
| `Network.ConfirmEffect` | apps/kilogram-bootstrap/src/recovery_quorum.rs:404-545 | what a checkpoint approval leaves behind, and that its package dominated the device |
| `Network.VoteKeepsCoverage` | apps/kilogram-bootstrap/src/recovery_policy.rs:989-1009 | voting never lowers what the device holds |
| `Network.InstallKeepsCoverage` | apps/kilogram-bootstrap/src/recovery_policy.rs:1011-1026 | installing never lowers what the device holds |
| `Network.ConfirmKeepsCoverage` | apps/kilogram-bootstrap/src/recovery_quorum.rs:990-1045 | approving a checkpoint never lowers what the device holds |
| `Agreement.RunKeepsInvariant` | apps/kilogram-bootstrap/src/recovery_policy.rs:359-970 | in every run: every vote is its device's highest, no device votes twice at one old epoch, every old-roster vote and every policy rests on certified transitions, every policy past genesis is its stored certificate's |
| `Agreement.OneRequestPerEpoch` | apps/kilogram-bootstrap/src/recovery_policy.rs:434-472 | two certificates for one old epoch and old roster certify the same request |
| `Agreement.AnchorRestsOnChain` | apps/kilogram-bootstrap/src/recovery_policy.rs:914-944 | an anchor at epoch e on any device rests on exactly e joint-majority certificates back to an epoch-0 roster, even if the device had no anchor before |
| `Agreement.ChainsAgree` | README.md:1967-1980 | two certified chains of equal length from one genesis roster have the same rosters and requests throughout |
| `Agreement.OneRosterPerEpoch` | README.md:1967-1980 | devices at one epoch whose chains start from one genesis roster hold the same roster and the same certified request |
| `Agreement.EpochNeverDecreases` | apps/kilogram-bootstrap/src/recovery_policy.rs:914-959 | a device's policy never changes except to a higher epoch, and past genesis agrees with the stored certificate |
| `Agreement.VoterStaysAnchored` | apps/kilogram-bootstrap/src/recovery_policy.rs:485-497 | in every run a device that voted in the old roster has a policy at its vote's anchor or beyond for ever, and installs nothing that starts before its vote or beside it |
| `Agreement.ConfirmerStaysAnchored` | apps/kilogram-bootstrap/src/recovery_quorum.rs:517-545 | in every run a device that approved a new checkpoint keeps a policy over that roster until a later epoch |
| `Agreement.PublishedWasHead` | apps/kilogram-bootstrap/src/recovery_policy.rs:349-356 | every transition approval that left a device was its durable head at that moment or before |
| `Agreement.HeadsLinked` | crates/kilogram-identity/src/recovery_policy.rs:387-423 | a device's transition heads form one chain with strictly rising old epochs |
| `Agreement.RetryIsIdentical` | apps/kilogram-bootstrap/src/recovery_policy.rs:434-460 | after any crash a retried transition request is answered exactly while its approval is the head, with that approval and no change |
| `Splits.SplitForever` | apps/kilogram-bootstrap/src/recovery_policy.rs:407-433 | in every run, two devices whose anchors rest on lines neither of which continues the other hold different anchors at all later moments |
| `Splits.SplitNeverVotesTogether` | apps/kilogram-bootstrap/src/recovery_policy.rs:407-433 | after a split no request gets both devices as old-roster voters, unless both votes were cast before it |
| `Splits.AdmittedTogether` | crates/kilogram-identity/src/recovery_policy.rs:129-143 | two anchored, otherwise eligible old-roster voters are admitted together exactly when both hold the one anchor the request names |
| `Splits.RunVotesBehind` | apps/kilogram-bootstrap/src/recovery_policy.rs:407-433 | in every run every old-roster voter is still on the line it voted to continue |
| `Splits.NoQuorumNoTransition` | apps/kilogram-bootstrap/src/recovery_policy.rs:848-876 | if no single line can still have a majority of a roster on it, devices that have not reached the epoch or not entered included, no transition from that roster and epoch is certified at any later moment |
| `Splits.NoQuorumByCount` | apps/kilogram-bootstrap/src/recovery_policy.rs:848-876 | that is so when for every line its holders and the devices still below the epoch are together fewer than a majority |
| `SplitExample.SplitReachable` | crates/kilogram-identity/src/recovery_policy.rs:607-623 | a run in which three devices install three valid certificates of one request and are pairwise split |
| `SplitExample.StuckForever` | apps/kilogram-bootstrap/src/recovery_policy.rs:848-876 | no continuation of that run ever certifies another change of its roster, at any epoch |
| `Freshness.RunKeepsRecovery` | apps/kilogram-bootstrap/src/recovery_quorum.rs:404-545 | in every run: every committed checkpoint is still covered by its device, heads are the deepest, one device's checkpoints only move up, no head is over a newer roster than the policy |
| `Freshness.NextIsHighest` | apps/kilogram-bootstrap/src/recovery_quorum.rs:404-421 | a new checkpoint is at least every checkpoint its device approved before |
| `Freshness.MajoritiesOrdered` | apps/kilogram-bootstrap/src/recovery_quorum.rs:466-516 | packages that reach a strict majority of one roster are totally ordered in authority and every membership |
| `Freshness.MajorityForkFree` | apps/kilogram-bootstrap/src/recovery_quorum.rs:466-516 | two different majority packages over one roster are ordered one way and not the other |
| `Freshness.CrossRosterForkSafety` | apps/kilogram-bootstrap/src/recovery_quorum.rs:963-988 | candidates reported fork-safe against certificates of one epoch and old roster extend the one certified package and are comparable |
| `Freshness.RecoveryPublishedWasHead` | apps/kilogram-bootstrap/src/recovery_quorum.rs:340-348 | every recovery approval that left a device was its durable head at that moment or before |
| `Freshness.RecoveryRetry` | apps/kilogram-bootstrap/src/recovery_quorum.rs:437-464 | a retried recovery request gets the identical approval exactly when that approval is still the head |
| `Example.RetryAfterAnotherHead` | apps/kilogram-bootstrap/src/recovery_quorum.rs:437-464 | a run in which a device publishes two approvals of one request |
| `Freshness.HeadsBridged` | apps/kilogram-bootstrap/src/recovery_quorum.rs:466-516 | consecutive recovery heads are linked, ordered, and over one roster or joined by exactly one installed certified transition |
| `Freshness.StrandedRefuses` | apps/kilogram-bootstrap/src/recovery_quorum.rs:466-525 | a device whose head is two rosters behind refuses every other checkpoint |
| `Freshness.InstallStrands` | apps/kilogram-bootstrap/src/recovery_policy.rs:914-959 | an installation strands the device exactly when its head is over neither roster of the certificate, with or without an earlier policy |
| `Freshness.OnlyInstallStrands` | apps/kilogram-bootstrap/src/recovery_policy.rs:914-959 | no other step of any device strands a device |
| `Freshness.SkippedRosterStrands` | apps/kilogram-bootstrap/src/recovery_policy.rs:914-959 | for a device with a policy: exactly when its head already lagged the policy's roster |
| `Freshness.StrandedForever` | apps/kilogram-bootstrap/src/recovery_quorum.rs:466-525 | in every run a stranded device keeps the same head for ever |
| `StrandedExample.StrandedReachable` | apps/kilogram-bootstrap/src/recovery_policy.rs:914-959 | a run in which a device installs two roster changes with no checkpoint approval between them and is stranded |
| `StrandedExample.VeteranStranded` | apps/kilogram-bootstrap/src/recovery_policy.rs:914-944 | a run in which a device without a policy, with an approval from before policies, is stranded by its first installation |
| `Succession.OldMajoritySuperseded` | apps/kilogram-bootstrap/src/recovery_policy.rs:359-517 | an old-roster majority checkpoint is at most the certified new package when a device of both majorities stays a voter |
| `Succession.FewLeaversSuperseded` | apps/kilogram-bootstrap/src/recovery_policy.rs:359-517 | every old-roster majority checkpoint is at most the certified new package when fewer devices leave than two majorities must share |
| `LeaverExample.LeaversRunAhead` | apps/kilogram-bootstrap/src/recovery_policy.rs:481-499 | for every roster size and every number of leavers at least what two majorities must share, a run with a certified change and a majority checkpoint over the old roster that the new package does not contain |
| `LeaverExample.SupersededExactly` | apps/kilogram-bootstrap/src/recovery_policy.rs:359-517 | for every roster size and number of leavers: every majority checkpoint of every run is in the certified new package if and only if fewer leave than two majorities must share |
| `Example.EpochOneReachable` | apps/kilogram-bootstrap/src/recovery_policy.rs:1387-1480 | a concrete run enrols, confirms, votes, certifies and installs a one-to-two-device change |
| `StateVault.RecoveryExact` | crates/kilogram-state/src/lib.rs:959-990 | the next open settles the store on the primary it found exactly from a coherent disk |
| `StateVault.ErrorHidesCommit` | apps/kilogram-bootstrap/src/recovery_policy.rs:1329-1337 | once the database transaction took effect and while the journal is there, finishing must fail, and the next open settles on the new records |
| `StateVault.InterruptedRemoval` | crates/kilogram-state/src/lib.rs:1539-1549 | for every journal a removal can have started on, a removal cut short is settled by the next open exactly when the prepared marker is gone, another marker is left, or what a rollback reads is left and restores the primary |
| `StateVault.SafeOrderExactly` | crates/kilogram-state/src/lib.rs:1539-1549 | no removal, cut short anywhere, leaves a store the next open does not settle, exactly when the directory lists the retiring markers, or the manifest and backup, after the prepared marker |
| `StateVault.UnsafeOrderTears` | crates/kilogram-state/src/lib.rs:1539-1549 | for every other order a removal after which the store cannot be opened |
| `StateVault.TornRemoval` | crates/kilogram-state/src/lib.rs:471-475 | one such removal, for every old and new state |
| `StateVault.TrustStore.RemoveJournal` | crates/kilogram-state/src/lib.rs:1539-1549 | removing entry by entry in the listed order changes only the journal, succeeds exactly when every deletion is done, and in a safe order keeps the store recoverable wherever it stops |
| `StateVault.TrustStore.BeginDualWrite` | crates/kilogram-state/src/vault.rs:2135-2141 | writes an intent bound to the current generation, or refuses without change while anything is pending or drifted |
| `StateVault.TrustStore.BeginJournal` | crates/kilogram-state/src/lib.rs:443-469 | every prefix of the journal's creation is recoverable |
| `StateVault.TrustStore.PrepareWorkspace` | crates/kilogram-state/src/lib.rs:667-691 | at every point the next open restores the primary: the backup is complete before the flag, the flag before the tree |
| `StateVault.TrustStore.StageWrites` | apps/kilogram-bootstrap/src/recovery_policy.rs:1041-1050 | staging touches only the shadow tree and ends with every write applied |
| `StateVault.TrustStore.CommitPrimary` | crates/kilogram-state/src/vault.rs:1434-1632 | one transaction moves records, generation and both intents together, or nothing |
| `StateVault.TrustStore.CommitJournal` | crates/kilogram-state/src/lib.rs:471-475 | the committed marker, then removal |
| `StateVault.TrustStore.Rollback` | crates/kilogram-state/src/lib.rs:992-1118 | restores the backup exactly, and stays recoverable when cut short |
| `StateVault.TrustStore.ConfirmShadow` | crates/kilogram-state/src/vault.rs:1634-1654 | the shadow intent is cleared only with shadow equal to primary |
| `StateVault.TrustStore.RestoreShadow` | crates/kilogram-state/src/vault.rs:1686-1722 | rewriting what differs and removing what is stale makes the shadow equal to the records |
| `StateVault.TrustStore.RecoverPrimaryShadow` | crates/kilogram-state/src/vault.rs:1656-1684 | restores the shadow from the primary, or stays recoverable when cut short |
| `StateVault.TrustStore.FinishDualWrite` | crates/kilogram-state/src/vault.rs:1766-1823 | clears the mirror intent only with no trust difference left |
| `StateVault.TrustStore.StageBatch` | apps/kilogram-bootstrap/src/recovery_policy.rs:1028-1050 | everything before the transaction succeeds exactly when all its writes are done, and never touches the primary |
| `StateVault.TrustStore.CommitThroughJournal` | apps/kilogram-bootstrap/src/recovery_policy.rs:1028-1069 | the primary is new exactly if every write before the transaction was done and the transaction took effect, and old otherwise; success exactly when every write was done |
| `StateVault.TrustStore.CommitTrust` | apps/kilogram-bootstrap/src/recovery_policy.rs:481-499 | for every fate of every write: the primary ends all new exactly when the store was settled, all writes before the transaction were done and it took effect, and all old otherwise; success exactly when the stated number of writes are all done, and then settled; in a safe directory order the store stays recoverable |
| `StateVault.TrustStore.Open` | apps/kilogram-bootstrap/src/device_link.rs:634-641 | recovery never changes the primary, is what the recovery function says when it succeeds, and can be cut short and repeated |
| `StateVault.TrustStore.Serve` | README.md:1445-1452 | over any sequence of commands each batch takes effect entirely or not at all, in order, and in a safe directory order the store stays recoverable throughout |
| `Sync.TakeIsPrefix` | crates/kilogram-session/src/canonical_sync_v2_adapter.rs:2755-2778 | truncation keeps the least keys, as many as fit |
| `Sync.RunKeepsInvariant` | apps/kilogram-cli/src/canonical_sync_v2_runtime.rs:37-220 | every reachable pair of durable actions and every frame in flight is one the explicit invariant lists |
| `Sync.UnexpectedExactly` | apps/kilogram-cli/src/canonical_sync_v2_runtime.rs:146-148 | the responder meets an unexpected frame exactly in the Complete hand-off, or after it turned the requester away |
| `Sync.LostForever` | apps/kilogram-cli/src/canonical_sync_v2_runtime.rs:114-148 | a hand-off whose Complete is no longer on its way freezes both sides for ever |
| `Sync.HandOffSettles` | apps/kilogram-cli/src/canonical_sync_v2_runtime.rs:267-285 | from every hand-off whose Complete is still on its way the run can go on to settle it, also before the client has recorded its batch as sent |
| `Sync.LostReachable` | apps/kilogram-cli/src/canonical_sync_v2_runtime.rs:114-144 | a concrete run into a lost hand-off |
| `Sync.DiffWriteOnce` | apps/kilogram-cli/src/canonical_sync_v2_runtime.rs:67-113 | within a round every Diff ever sent is the one first journaled |
| `Sync.RetryAnswered` | apps/kilogram-cli/src/canonical_sync_v2_runtime.rs:87-113 | a retried inventory is answered with the journaled Diff exactly when the responder would still plan it, and refused otherwise |
| `Sync.CompleteAfterCommit` | crates/kilogram-session/src/canonical_sync_v2_adapter.rs:1231-1290 | Complete is never on its way before the batch is in the responder's store |
| `Sync.Converged` | crates/kilogram-session/src/canonical_sync_v2_adapter.rs:639-702 | when the client finishes, both stores hold everything either side held when it journaled its inventory |
| `Sync.ConvergedFromStart` | crates/kilogram-session/src/canonical_sync_v2_adapter.rs:639-702 | ... and so everything either side held before the session |
| `SyncStall.BlockedExactly` | crates/kilogram-session/src/canonical_sync_v2_adapter.rs:2755-2778 | the responder can plan a journaled Diff again exactly unless the stated difference between its store and the Diff has arisen |
| `SyncStall.StalledForever` | apps/kilogram-cli/src/canonical_sync_v2_runtime.rs:87-113 | a session whose Diff is lost and can never be planned again is refused at every retry, for ever |
| `SyncStall.UnstalledDelivers` | apps/kilogram-cli/src/canonical_sync_v2_runtime.rs:87-113 | a lost Diff that can be planned again can still be delivered |
| `SyncStall.StallReachable` | apps/kilogram-cli/src/canonical_sync_v2_runtime.rs:87-113 | a concrete run into such a stall |
| `SyncLoops.ResponderSession.ServeStream` | apps/kilogram-cli/src/canonical_sync_v2_runtime.rs:66-149 | the match on action and frame, for delivered and undelivered answers |
| `SyncLoops.ResponderSession.ServeConnection` | apps/kilogram-cli/src/canonical_sync_v2_runtime.rs:37-151 | against any frames: the store only grows, every Complete sent is for stored events, the round advances by exactly the continuing Completes sent, each round has one Diff |
| `SyncLoops.ServeAllKeeps` | apps/kilogram-cli/src/canonical_sync_v2_runtime.rs:37-151 | the same of the specification of the loop |
| `SyncLoops.DiffsOfOneRound` | apps/kilogram-cli/src/canonical_sync_v2_runtime.rs:67-113 | two Diffs sent with no Complete between them are equal |
| `SyncLoops.ClientSession.DriveConnection` | apps/kilogram-cli/src/canonical_sync_v2_runtime.rs:153-220 | against any answers: store and round only grow, and the client finishes only on a final Complete |
| `SyncLoops.DriveAllKeeps` | apps/kilogram-cli/src/canonical_sync_v2_runtime.rs:153-220 | every frame tried carries what the store holds, and the client finishes only on the final Complete of exactly the batch it sent |
| `SyncLoops.JointIsBothLoops` | apps/kilogram-cli/src/canonical_sync_v2_runtime.rs:37-220 | two loops talking to each other are each loop on its own, given what it saw, for answers confirmed, read, both or neither |
| `SyncLoops.JointIsRun` | apps/kilogram-cli/src/canonical_sync_v2_runtime.rs:37-220 | two loops on one connection, with any frame unsent or unread and any answer confirmed, read, both or neither, are a continuation of a run of the machine |
| `SyncLoops.MeetIsRun` | apps/kilogram-cli/src/canonical_sync_v2_runtime.rs:37-220 | ... and so are any number of connections with local events arriving between them |
| `SyncLoops.LoopsConverge` | apps/kilogram-cli/src/canonical_sync_v2_runtime.rs:37-220 | whatever was lost on however many connections, when the client loop reports finished, both stores hold everything either side held before the session |
| `SyncLoops.ApartForever` | apps/kilogram-cli/src/canonical_sync_v2_runtime.rs:267-285 | once connections leave one side with a Complete the other has not recorded, no later connection moves either side to another round or the client to the end |
| `SyncLoops.ComesApart` | apps/kilogram-cli/src/canonical_sync_v2_runtime.rs:267-285 | both ways it happens: a Complete confirmed and never read, and one read and never confirmed |
| `Removal.DevicesExact` | apps/kilogram-bootstrap/src/device_removal.rs:198-213 | by counting, the later list is the earlier one without the device, certificate for certificate, and the device was in it |
| `Removal.RevocationsExact` | apps/kilogram-bootstrap/src/device_removal.rs:218-233 | by counting, the revocations are the earlier ones plus exactly this one, which was not there before |
| `Removal.ExactRemovalMeaning` | apps/kilogram-bootstrap/src/device_removal.rs:182-235 | the verifier accepts exactly such a pair of packages |
| `Removal.VerifyExactRemoval` | apps/kilogram-bootstrap/src/device_removal.rs:182-235 | the verifier's loop decides that predicate |
| `Removal.NewPackageExact` | crates/kilogram-identity/src/account.rs:1093-1157 | the package a finished Root operation exports passes the verifier |
| `Removal.AccountRoot.WriteIdempotent` | apps/kilogram-bootstrap/src/device_removal.rs:297-319 | an existing artifact is kept and must match, a missing one is written |
| `Removal.AccountRoot.Revoke` | crates/kilogram-identity/src/account.rs:1125-1135 | truncation, sequence number, revocation: which phase is reached is exactly decided by the fates of the three writes |
| `Removal.AccountRoot.RevokeAndPublish` | crates/kilogram-identity/src/account.rs:1093-1157 | moves only forward along the path, and reuses an existing revocation instead of allocating another |
| `Removal.AccountRoot.PublishArtifacts` | apps/kilogram-bootstrap/src/device_removal.rs:151-156 | the four artifacts and the checkpoint record are resumed where they stopped |
| `Removal.AccountRoot.RemoveDevice` | apps/kilogram-bootstrap/src/device_removal.rs:42-180 | a call resumes an interrupted removal exactly unless it stopped in the gap, ends in the gap exactly for the stated fates, and is refused, without output, if another Root operation changed the checkpoint or the revision |
| `Removal.AccountRoot.Retry` | apps/kilogram-bootstrap/src/device_removal.rs:112-156 | any number of interrupted calls stay on one path and end in the one final state |
| `Removal.StoppedInGap` | crates/kilogram-identity/src/account.rs:1125-1135 | a removal from a two-device account that stops in the gap, after which no number of fault-free exact retries succeeds |
| `Removal.OneRevocation` | crates/kilogram-identity/src/account.rs:1125-1135 | at every phase at most one sequence number is spent and at most this one revocation added |
| `Artifacts.OneValueForever` | apps/kilogram-bootstrap/src/device_link.rs:827-865 | for any interleaving of writers the path holds at most one value, for ever |
| `Artifacts.SuccessIsTheValue` | apps/kilogram-bootstrap/src/recovery_quorum.rs:1150-1192 | every writer that ever reported success wrote or confirmed the value the path holds now |
| `Artifacts.ValueHasAWriter` | apps/kilogram-bootstrap/src/device_link.rs:827-865 | the value was there at the start or a writer brought it |
| `Artifacts.PatientWriterDecides` | apps/kilogram-bootstrap/src/device_link.rs:827-865 | in every run a re-reading writer that gets its turns ends in success exactly when the file holds its bytes |
| `Artifacts.ImpatientWriterErrs` | apps/kilogram-bootstrap/src/recovery_policy.rs:1292-1314 | in every run a writer that does not re-read ends with a lost race exactly when the file was there as it published |
| `Artifacts.LosesToItsOwnBytes` | apps/kilogram-bootstrap/src/recovery_policy.rs:1292-1314 | a run in which such a writer errs over its own bytes |
| `HeldHash.Core.Read` | scripts/migration-s53-cold-preservation.ps1:821-825 | a read fills the buffer's front with the next bytes, possibly fewer than asked |
| `HeldHash.Core.DirtyHeaderHistoricalHash` | scripts/migration-s53-held-continuation.cs:20-39 | for every buffer size and pattern of short reads the loop hashes exactly the content with the one bit cleared, and fails exactly on the listed conditions |
| `HeldHash.Core.HeldBaseline` | scripts/migration-s53-held-continuation.cs:40-60 | the baseline accepts exactly unchanged rows plus two databases that differ through the cleared bit, and keeps those two as entries |
| `HeldHash.SingleBit` | scripts/migration-s53-held-continuation.cs:47-49 | an accepted database is history with that single bit set, so the raw inequality test follows |
| `HeldHash.EntryViewIsActual` | scripts/migration-s53-held-continuation.cs:61-64 | after an accepted baseline the entry view of every row is what is on disk |
| `HeldHandles.Core.Acquire` | scripts/migration-s53-cold-preservation.ps1:777-795 | an acquisition that fails anywhere leaves no owner and no open handle behind |
| `HeldHandles.Core.AttachTypedLock` | scripts/migration-s53-held-preservation.cs:51-70 | attaching adds the ancestor directories in order and then the lock; on failure the ancestors acquired so far stay owned and the lock handle is closed |
| `HeldHandles.Core.CaptureHeldBaseline` | scripts/migration-s53-held-preservation.cs:71-95 | a finished capture holds the four slots the inventory names, by identity; one that fails part way keeps every open handle owned |
| `HeldHandles.Core.HeldDatabaseGuard` | scripts/migration-s53-held-preservation.cs:96-107 | a guard joins the guard list, or no handle is left open |
| `HeldHandles.Core.ReleaseHeldSlots` | scripts/migration-s53-held-preservation.cs:108-124 | a finished release has given up exactly the four slots behind two new guards; one stopped after any slot keeps every open handle owned |
| `HeldHandles.Core.AuditHeldFinal` | scripts/migration-s53-held-preservation.cs:152-198 | a finished audit holds the four slots again by identity; a recapture stopped after any slot keeps every open handle owned |
| `HeldHandles.Core.CloseInputs` | scripts/migration-s53-cold-preservation.ps1:1036-1045 | every live item is given up exactly once |
| `HeldHandles.Core.HeldDispose` | scripts/migration-s53-held-preservation.cs:250-257 | every handle opened before the first disposal has been closed exactly once and the budget is zero unless the cleanup is flagged |
| `HeldHandles.Core.Session` | scripts/migration-s53-held-preservation.cs:50-257 | the same after any sequence of calls with any failures |
| `History.Frontiers` | ai-docs/tasks/long-lived-dialog-a3-history-s2-evidence-4/history_scale_before.rs:41-67 | after n rows the frontiers are 1 + ceil(n/16) and 1 + n - ceil(n/16), and the count is n |
| `History.SixteenMore` | ai-docs/tasks/long-lived-dialog-a3-history-s2-evidence-4/history_scale_before.rs:504-507 | any sixteen further rows add exactly 1 and 15 |
| `History.LaneChain` | ai-docs/tasks/long-lived-dialog-a3-history-s2-evidence-4/history_scale_before.rs:41-67 | a row's ordinal, sequence and predecessor in closed form |
| `History.SequencesDistinct` | ai-docs/tasks/long-lived-dialog-a3-history-s2-evidence-4/source-before-run/crates/kilogram-state/src/vault/indexed_dialog/history_tests.rs:58-87 | no two rows share a sequence number |
| `History.ParentClosure` | ai-docs/tasks/long-lived-dialog-a3-history-s2-evidence-4/history_scale_before.rs:43-52 | every row's parent closure is exactly all earlier rows |
| `History.OnlyOneOrder` | ai-docs/tasks/long-lived-dialog-a3-history-s2-evidence-4/history_scale_before.rs:43-52 | stream order is the only order that puts every row after its parents |
| `History.Expectation.NextRow` | ai-docs/tasks/long-lived-dialog-a3-history-s2-evidence-4/history_scale_before.rs:41-67 | the in-place update makes the row and heads the specification says |
| `History.Expectation.ValidateItems` | ai-docs/tasks/long-lived-dialog-a3-history-s2-evidence-4/history_scale_before.rs:78-97 | a page is accepted exactly when it is the generated stream from its index |
| `History.Expectation.ValidatePages` | ai-docs/tasks/long-lived-dialog-a3-history-s2-evidence-4/history_scale_before.rs:391-424 | for every split into pages the joined pages are accepted exactly when they are the stream, and every saved expectation is a function of its index |
| `History.Resume` | ai-docs/tasks/long-lived-dialog-a3-history-s2-evidence-4/history_scale_before.rs:498-523 | resuming at a checkpoint accepts exactly the stream from its index |

## Left out

- Iroh endpoints, listeners, tickets, relay waits and timeouts: delivery is a step that may or may not happen.
- Signatures, HPKE, BLAKE3, SHA-256, Postcard and JSON: a digest stands for its value and a device signature cannot be forged.
- Path canonicalisation, symlink and size checks, output structs and status strings.
- The collect loop's own duplicate-ticket check: the verifier behind it refuses repeated approvers again.
- Recovery approvals that a device signed before policies existed and before its then head: only that head enters the model.
- Records other than trust in the vault (ratchet, sequence, events): they follow the same journal and are not mixed with trust.
- The vault's ordered-writer and schema-upgrade branches: they refuse or convert before this sequence starts.
- Sync sessions that are paused, and the signatures and bindings inside frames.
- The held worker's scans, timestamps and digests of directory trees: they only decide whether a step fails, which is arbitrary here.
- `publish_device_list_file` in device_link.rs and the desktop's orchestration of the commands.
- StateVault.TrustStore.CommitTrust: the records written are given as a list of path and content pairs; that they are the encoding of the device's new trust records is not modelled.
- Removal.AccountRoot.RemoveDevice: the before and after witnesses are not separate values, because a witness is issued deterministically from its package.
