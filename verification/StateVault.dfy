/**
 The commit sequence under every trust write: mirror intent, filesystem journal, staged trust tree,
 primary vault commit, shadow confirmation, and the recovery that runs at the next open.

 `Disk` holds what survives a crash. Every durable write goes through `TrustStore.Put` or
 `TrustStore.PutShadow`, and its fate is arbitrary: it may happen, be lost, happen without being
 reported, or leave a damaged file. A crash is a point after which every write is lost, so what is
 proved for every sequence of fates is proved for a crash between any two writes, for I/O errors, and
 for both together. Only trust records are modelled; a snapshot digest stands for the records it
 digests.
 */
module StateVault {
  import opened Basics

  type Tree = map<nat, nat>

  datatype Intent = Intent(generation: nat, snapshot: Tree)

  /** The active journal directory. `manifest` carries its `trust_primary_prepared` flag. */
  datatype Journal = Journal(manifest: Option<bool>, prepared: bool, committed: bool, rolledBack: bool,
                             backup: Option<Tree>)

  datatype Disk = Disk(
    primary: Tree, generation: nat, mirror: Option<Intent>, shadowIntent: Option<Intent>,
    shadow: Tree, journal: Option<Journal>)

  datatype Entry = PreparedMarker | CommittedMarker | RolledBackMarker | ManifestFile | BackupRecord(path: nat)
      | BackupDirectory

  // ----- what a disk means -----

  function CurrentIntent(d: Disk): Intent {
    Intent(d.generation, d.primary)
  }

  /** Intents are only ever written for the generation they are stored with. */
  predicate Bound(d: Disk) {
    && (d.mirror.Some? ==> d.mirror.value == CurrentIntent(d))
    && (d.shadowIntent.Some? ==> d.mirror.Some? && d.shadowIntent.value == CurrentIntent(d))
  }

  /** Nothing pending, and the retained shadow equal to the primary. */
  predicate Settled(d: Disk) {
    d.mirror.None? && d.shadowIntent.None? && d.journal.None? && d.shadow == d.primary
  }

  /** Prepared and neither committed nor rolled back: the next open rolls it back. */
  predicate Active(j: Option<Journal>) {
    j.Some? && j.value.prepared && !j.value.committed && !j.value.rolledBack
  }

  /** Whatever the next open restores is the primary, or a shadow intent restores it afterwards. */
  predicate Coherent(d: Disk) {
    if Active(d.journal) then
      && d.journal.value.manifest.Some?
      && (d.journal.value.manifest.value ==> d.journal.value.backup.Some?)
      && (d.shadowIntent.Some? ||
          (if d.journal.value.manifest.value then d.journal.value.backup.value == d.primary else d.shadow == d.primary))
    else
      d.shadowIntent.Some? || d.shadow == d.primary
  }

  // ----- uninterrupted recovery -----

  /** `recover`: discard a marked or unprepared journal, roll back an active one. */
  function RecoverJournal(d: Disk): Option<Disk> {
    if !Active(d.journal) then Some(d.(journal := None))
    else if d.journal.value.manifest.None? then None
    else if !d.journal.value.manifest.value then Some(d.(journal := None))
    else if d.journal.value.backup.None? then None
    else Some(d.(shadow := d.journal.value.backup.value, journal := None))
  }

  /** `recover_primary_shadow`. */
  function RecoverShadow(d: Disk): Option<Disk> {
    if d.shadowIntent.None? then Some(d)
    else if d.journal.Some? || d.shadowIntent.value != CurrentIntent(d) || d.mirror != Some(CurrentIntent(d)) then None
    else Some(d.(shadow := d.primary, shadowIntent := None))
  }

  /** `finish_dual_write`: an unexplained trust difference is refused. */
  function Finish(d: Disk): Option<Disk> {
    var r := RecoverShadow(d);
    if r.None? || r.value.mirror != Some(CurrentIntent(d)) || r.value.shadow != r.value.primary then None
    else Some(r.value.(mirror := None))
  }

  /** Everything a device does to its store at the next open. */
  function Recover(d: Disk): Option<Disk> {
    var journal := RecoverJournal(d);
    if journal.None? then None
    else
      var shadow := RecoverShadow(journal.value);
      if shadow.None? then None
      else if shadow.value.mirror.None? && shadow.value.shadowIntent.None? then shadow
      else Finish(shadow.value)
  }

  /** Recovery settles the store, on the primary it found, exactly from a coherent disk. */
  lemma RecoveryExact(d: Disk)
    requires Bound(d)
    ensures Recover(d).Some? && Settled(Recover(d).value) <==> Coherent(d)
    ensures Recover(d).Some? ==> Recover(d).value.primary == d.primary && Recover(d).value.generation == d.generation
    ensures Coherent(d) ==> Recover(d) == Some(Disk(d.primary, d.generation, None, None, d.primary, None))
  {
  }

  /**
   A failure after the database transaction and before the journal is gone: the operation must report
   an error, and the next open still settles on the new records.
   */
  lemma ErrorHidesCommit(d: Disk)
    requires Bound(d) && Coherent(d) && d.journal.Some? && d.shadowIntent.Some?
    ensures Finish(d).None?
    ensures Recover(d) == Some(Disk(d.primary, d.generation, None, None, d.primary, None))
  {
    RecoveryExact(d);
  }

  // ----- removing the journal directory -----

  predicate Has(j: Journal, e: Entry) {
    match e
    case PreparedMarker => j.prepared
    case CommittedMarker => j.committed
    case RolledBackMarker => j.rolledBack
    case ManifestFile => j.manifest.Some?
    case BackupRecord(p) => j.backup.Some? && p in j.backup.value
    case BackupDirectory => j.backup == Some(map[])
  }

  function Without(j: Journal, e: Entry): Journal
    requires Has(j, e)
  {
    match e
    case PreparedMarker => j.(prepared := false)
    case CommittedMarker => j.(committed := false)
    case RolledBackMarker => j.(rolledBack := false)
    case ManifestFile => j.(manifest := None)
    case BackupRecord(p) => j.(backup := Some(j.backup.value - {p}))
    case BackupDirectory => j.(backup := None)
  }

  function BackupEntries(backup: Option<Tree>): set<Entry> {
    if backup.None? then {}
    else if backup.value == map[] then {BackupDirectory}
    else set p | p in backup.value :: BackupRecord(p)
  }

  /** What a directory listing shows. */
  function Entries(j: Journal): (r: set<Entry>)
    ensures forall e :: e in r ==> Has(j, e)
  {
    (set e | e in {PreparedMarker, CommittedMarker, RolledBackMarker, ManifestFile} && Has(j, e))
        + BackupEntries(j.backup)
  }

  function BackupSize(backup: Option<Tree>): nat {
    if backup.None? then 0 else |backup.value| + 1
  }

  /** How many deletions are left. */
  function Size(j: Journal): nat {
    (if j.prepared then 1 else 0) + (if j.committed then 1 else 0) + (if j.rolledBack then 1 else 0)
    + (if j.manifest.Some? then 1 else 0) + BackupSize(j.backup)
  }

  lemma WithoutShrinks(j: Journal, e: Entry)
    requires Has(j, e)
    ensures Size(Without(j, e)) == Size(j) - 1
  {
    if e.BackupRecord? {
      assert j.backup.value.Keys == (j.backup.value - {e.path}).Keys + {e.path};
    }
  }

  lemma NothingListed(j: Journal)
    requires Entries(j) == {}
    ensures Size(j) == 0
  {
    assert PreparedMarker !in Entries(j) && CommittedMarker !in Entries(j) && RolledBackMarker !in Entries(j)
           && ManifestFile !in Entries(j);
    assert BackupEntries(j.backup) <= Entries(j);
    NoBackupListed(j.backup);
  }

  lemma NoBackupListed(backup: Option<Tree>)
    ensures BackupEntries(backup) == {} ==> backup == None
  {
    if backup.Some? && backup.value != map[] {
      var p :| p in backup.value;
      assert BackupRecord(p) in BackupEntries(backup);
    }
  }

  predicate Holds(shadow: Tree, tree: Tree) {
    forall p :: p in tree ==> p in shadow && shadow[p] == tree[p]
  }

  /** Part of a journal is left: removal was cut short. */
  predicate PartOf(left: Journal, j: Journal) {
    && (left.prepared ==> j.prepared) && (left.committed ==> j.committed) && (left.rolledBack ==> j.rolledBack)
    && (left.manifest.Some? ==> left.manifest == j.manifest)
    && (left.backup.Some? ==> j.backup.Some? && Holds(j.backup.value, left.backup.value))
  }

  /**
   Removal cut short, after whatever commit or rollback, leaves a disk that the next open settles exactly
   when the prepared marker is gone, another marker is left, or everything a rollback reads is left and
   restores the primary. Otherwise the store is not settled, and the primary stays as it was.
   */
  lemma InterruptedRemoval(d: Disk, j: Journal, left: Journal)
    requires Bound(d) && d.journal == Some(j) && PartOf(left, j) && (d.shadowIntent.Some? || d.shadow == d.primary)
    ensures var r := Recover(d.(journal := Some(left)));
            && (r.Some? && Settled(r.value) <==>
                || !left.prepared || left.committed || left.rolledBack
                || (left.manifest.Some? && (left.manifest.value ==>
                      left.backup.Some? && (d.shadowIntent.Some? || left.backup == Some(d.primary)))))
            && (r.Some? ==> r.value.primary == d.primary)
  {
    RecoveryExact(d.(journal := Some(left)));
  }

  // ----- the order of removal -----

  /** What the directory holds besides the prepared marker. */
  datatype Item = Committed | RolledBack | Manifest | Backup

  predicate Early(early: set<Item>, e: Entry) {
    match e
    case PreparedMarker => false
    case CommittedMarker => Committed in early
    case RolledBackMarker => RolledBack in early
    case ManifestFile => Manifest in early
    case BackupRecord(_) => Backup in early
    case BackupDirectory => Backup in early
  }

  /**
   What can be deleted next when the directory lists the early items before the prepared marker, and the
   others after it.
   */
  function Deletable(early: set<Item>, j: Journal): (r: set<Entry>)
    ensures forall e :: e in r ==> Has(j, e)
    ensures r == {} ==> Entries(j) == {}
  {
    var before := set e | e in Entries(j) && Early(early, e);
    if !j.prepared then Entries(j) else if before == {} then {PreparedMarker} else before
  }

  lemma DeletableListed(early: set<Item>, j: Journal)
    ensures forall e :: e in Deletable(early, j) ==> Has(j, e)
    ensures Entries(j) != {} ==> exists e :: e in Deletable(early, j)
  {
    assert Deletable(early, j) != {} ==> exists e :: e in Deletable(early, j);
  }

  /** These entries, deleted one after the other, leave that much of the journal. */
  predicate Removes(early: set<Item>, j: Journal, entries: seq<Entry>, left: Journal)
    decreases |entries|
  {
    if entries == [] then left == j
    else entries[0] in Deletable(early, j) && Removes(early, Without(j, entries[0]), entries[1..], left)
  }

  /** As long as the prepared marker is there, only early items can be gone. */
  predicate Left(early: set<Item>, j: Journal, left: Journal) {
    && PartOf(left, j)
    && (left.prepared ==>
          && (Committed !in early ==> left.committed == j.committed)
          && (RolledBack !in early ==> left.rolledBack == j.rolledBack)
          && (Manifest !in early ==> left.manifest == j.manifest)
          && (Backup !in early ==> left.backup == j.backup))
  }

  lemma LeftShrinks(early: set<Item>, j: Journal, left: Journal, e: Entry)
    requires Left(early, j, left) && e in Deletable(early, left)
    ensures Left(early, j, Without(left, e))
  {
  }

  lemma {:induction false} RemovesLeft(early: set<Item>, j: Journal, now: Journal, entries: seq<Entry>, left: Journal)
    requires Left(early, j, now) && Removes(early, now, entries, left)
    ensures Left(early, j, left)
    decreases |entries|
  {
    hide Left, Deletable;
    if entries != [] {
      LeftShrinks(early, j, now, entries[0]);
      RemovesLeft(early, j, Without(now, entries[0]), entries[1..], left);
    }
  }

  /** The markers that retire a journal, or everything a rollback would read, are deleted after the prepared marker. */
  predicate SafeOrder(early: set<Item>) {
    (Committed !in early && RolledBack !in early) || (Manifest !in early && Backup !in early)
  }

  function Unmarked(d: Disk): Disk
    requires d.journal.Some?
  {
    d.(journal := Some(d.journal.value.(committed := false, rolledBack := false)))
  }

  /** Coherent, and still so if a marker that goes early were gone. */
  predicate Sound(early: set<Item>, d: Disk) {
    && Coherent(d)
    && (d.journal.Some? && d.journal.value.prepared && (Committed in early || RolledBack in early) ==>
        Coherent(Unmarked(d)))
  }

  lemma LeftSound(early: set<Item>, d: Disk, left: Journal)
    requires SafeOrder(early) && Sound(early, d) && d.journal.Some? && !Active(d.journal)
             && Left(early, d.journal.value, left)
    ensures Sound(early, d.(journal := Some(left)))
  {
  }

  /** The next open settles the store. */
  predicate Reopens(d: Disk) {
    Recover(d).Some? && Settled(Recover(d).value)
  }

  /** A journal just marked committed or rolled back, about to be removed. */
  predicate Retired(d: Disk) {
    && Bound(d) && d.journal.Some? && d.journal.value.prepared && !Active(d.journal)
    && Coherent(d) && Coherent(Unmarked(d))
  }

  ghost predicate NeverTorn(early: set<Item>) {
    forall d, entries, left :: Retired(d) && Removes(early, d.journal.value, entries, left) ==>
        Reopens(d.(journal := Some(left)))
  }

  /**
   A directory order is safe, whatever is removed and wherever removal is cut short, exactly when it is a
   safe order.
   */
  lemma SafeOrderExactly(early: set<Item>)
    ensures NeverTorn(early) <==> SafeOrder(early)
  {
    assert map[0 := 0][0] == 0;
    assert map[0 := 0] != map[];
    if SafeOrder(early) {
      forall d, entries, left | Retired(d) && Removes(early, d.journal.value, entries, left)
        ensures Reopens(d.(journal := Some(left)))
      {
        RemovesLeft(early, d.journal.value, d.journal.value, entries, left);
        hide Removes;
        LeftSound(early, d, left);
        hide Left, Coherent;
        RecoveryExact(d.(journal := Some(left)));
      }
    } else {
      var d, entries, left := UnsafeOrderTears(early, map[0 := 0]);
    }
  }

  /** For every other order, the removal that tears the store: the marker, then what the rollback would have read. */
  lemma UnsafeOrderTears(early: set<Item>, next: Tree) returns (d: Disk, entries: seq<Entry>, left: Journal)
    requires !SafeOrder(early) && next != map[]
    ensures Retired(d) && d.primary == next && Removes(early, d.journal.value, entries, left)
    ensures Recover(d.(journal := Some(left))) == None && !Reopens(d.(journal := Some(left)))
  {
    var committed := Committed in early;
    var j := Journal(Some(true), true, committed, !committed, Some(map[]));
    var intent := Intent(1, next);
    d := Disk(next, 1, Some(intent), Some(intent), next, Some(j));
    var marker := if committed then CommittedMarker else RolledBackMarker;
    var item := if Manifest in early then ManifestFile else BackupDirectory;
    entries := [marker, item];
    assert Without(j, marker) == Journal(Some(true), true, false, false, Some(map[]));
    left := Without(Without(j, marker), item);
    FirstDeleted(early, j, marker);
    FirstDeleted(early, Without(j, marker), item);
    assert entries[1..] == [item] && [item][1..] == [];
  }

  lemma FirstDeleted(early: set<Item>, j: Journal, e: Entry)
    requires Early(early, e) && Has(j, e) && !e.BackupRecord?
    ensures e in Deletable(early, j)
  {
    if e.BackupDirectory? {
      assert e in BackupEntries(j.backup);
    }
    assert e in Entries(j);
  }

  /** One of them: the committed marker, then the manifest. */
  lemma TornRemoval(tree: Tree, next: Tree)
    requires tree != next
    ensures var intent := Intent(1, next);
            var j := Journal(Some(true), true, true, false, Some(tree));
            var d := Disk(next, 1, Some(intent), Some(intent), next, Some(j));
            && Coherent(d) && Has(j, CommittedMarker) && Has(Without(j, CommittedMarker), ManifestFile)
            && Recover(d.(journal := Some(Without(Without(j, CommittedMarker), ManifestFile)))) == None
  {
  }

  // ----- the store -----

  function Applied(tree: Tree, writes: seq<(nat, nat)>): Tree {
    if writes == [] then tree
    else
      var last := |writes| - 1;
      Applied(tree, writes[..last])[writes[last].0 := writes[last].1]
  }

  function Stale(shadow: Tree, tree: Tree): set<nat> {
    shadow.Keys - tree.Keys
  }

  lemma StaleRemoved(shadow: Tree, tree: Tree, p: nat)
    requires Holds(shadow, tree) && p in Stale(shadow, tree)
    ensures Holds(shadow - {p}, tree) && Stale(shadow - {p}, tree) == Stale(shadow, tree) - {p}
  {
  }

  lemma NoneStale(shadow: Tree, tree: Tree)
    requires Holds(shadow, tree) && Stale(shadow, tree) == {}
    ensures shadow == tree
  {
    forall p | p in shadow
      ensures p in tree
    {
      assert p in tree || p in Stale(shadow, tree);
    }
  }

  /** Where the journal stands while the trust tree is being changed: backed up, and the flag set once it was. */
  predicate Staging(d: Disk) {
    Active(d.journal) && Coherent(d) && d.shadowIntent.None? && d.mirror == Some(CurrentIntent(d))
  }

  function WithBackup(d: Disk, backup: Tree): Disk
    requires d.journal.Some?
  {
    d.(journal := Some(d.journal.value.(backup := Some(backup))))
  }

  /** Before the flag is set, any partial backup is as good as none. */
  lemma PartialBackup(d: Disk, backup: Tree)
    requires Staging(d) && d.journal.value.manifest == Some(false)
    ensures var u := WithBackup(d, backup);
            && Staging(u) && u == d.(journal := u.journal) && u.journal.value.manifest == Some(false)
            && u.journal.value.backup == Some(backup) && u.primary == d.primary
  {
  }

  lemma BackupReplaced(d: Disk, first: Tree, second: Tree)
    requires d.journal.Some?
    ensures WithBackup(d, first).journal.Some? && WithBackup(WithBackup(d, first), second) == WithBackup(d, second)
  {
  }

  /** A copy of a tree with some records still to come. */
  predicate Filled(copy: Tree, tree: Tree, left: set<nat>) {
    && left <= tree.Keys && copy.Keys == tree.Keys - left
    && forall p :: p in copy ==> copy[p] == tree[p]
  }

  lemma FilledFirst(tree: Tree)
    ensures Filled(map[], tree, tree.Keys) && |tree.Keys| == |tree|
  {
  }

  lemma FilledNext(copy: Tree, tree: Tree, left: set<nat>, p: nat)
    requires Filled(copy, tree, left) && p in left
    ensures Filled(copy[p := tree[p]], tree, left - {p}) && |left - {p}| == |left| - 1
  {
  }

  lemma FilledKeys(copy: Tree, tree: Tree, left: set<nat>)
    requires Filled(copy, tree, left)
    ensures left <= tree.Keys
  {
  }

  lemma FilledLast(copy: Tree, tree: Tree)
    requires Filled(copy, tree, {})
    ensures copy == tree
  {
  }

  /** The batches marked committed, applied in order and in full. */
  function Replay(tree: Tree, batches: seq<seq<(nat, nat)>>, log: seq<bool>): Tree
    requires |batches| == |log|
  {
    if batches == [] then tree
    else
      var last := |batches| - 1;
      var before := Replay(tree, batches[..last], log[..last]);
      if log[last] then Applied(before, batches[last]) else before
  }

  /** How many writes backing up, flagging and resetting the trust tree takes. */
  function PrepareWrites(d: Disk): nat {
    2 + |d.primary| + |d.shadow| + |d.primary|
  }

  /** ... and how many the journaled part of a trust write makes before the database transaction. */
  function JournalWrites(d: Disk, writes: seq<(nat, nat)>): nat {
    3 + PrepareWrites(d) + |writes|
  }

  /** Retiring the journal: the committed marker, every entry, the directory. */
  function CloseWrites(d: Disk): nat {
    1 + (|d.primary| + 4) + 1
  }

  predicate Changes(d: Disk, writes: seq<(nat, nat)>) {
    Applied(d.primary, writes) != d.primary
  }

  /** The number of writes before the database transaction of a trust write, the mirror intent being the first. */
  function WritesBefore(d: Disk, writes: seq<(nat, nat)>): nat {
    1 + JournalWrites(d, writes)
  }

  /** All the writes of the journaled part: a batch that changes nothing has no transaction and no shadow to confirm. */
  function JournaledWrites(d: Disk, writes: seq<(nat, nat)>): nat {
    JournalWrites(d, writes) + CloseWrites(d) + if Changes(d, writes) then 2 else 0
  }

  /** All the writes of a trust write, the first and the last for the mirror intent. */
  function AllWrites(d: Disk, writes: seq<(nat, nat)>): nat {
    1 + JournaledWrites(d, writes) + 1
  }

  predicate TakesEffect(f: Fate) {
    f.Done? || f.Unreported?
  }

  lemma PrepareStretches(fates: seq<Fate>, d: Disk)
    ensures var copied := Drop(fates, 1 + |d.primary|);
            && (Clean(fates, PrepareWrites(d)) <==>
                  && Clean(fates, 1 + |d.primary|) && FateAt(copied, 0) == Done
                  && Clean(Drop(copied, 1), |d.shadow| + |d.primary|))
            && Drop(Drop(copied, 1), |d.shadow| + |d.primary|) == Drop(fates, PrepareWrites(d))
  {
    hide Clean, Drop, FateAt;
    var copied := Drop(fates, 1 + |d.primary|);
    DropSome(fates, 1 + |d.primary|, 1 + |d.shadow| + |d.primary|);
    DropSome(copied, 1, |d.shadow| + |d.primary|);
    CleanNext(copied, 0, 1);
  }

  /** The writes before the database transaction, cut into the stretches the steps use up. */
  lemma StretchesBefore(fates: seq<Fate>, d: Disk, writes: seq<(nat, nat)>)
    ensures var begun := Drop(fates, 3);
            var prepared := Drop(begun, PrepareWrites(d));
            && (Clean(fates, JournalWrites(d, writes)) <==>
                  Clean(fates, 3) && Clean(begun, PrepareWrites(d)) && Clean(prepared, |writes|))
            && Drop(prepared, |writes|) == Drop(fates, JournalWrites(d, writes))
            && FateAt(Drop(prepared, |writes|), 0) == FateAt(fates, JournalWrites(d, writes))
  {
    hide Clean, Drop, FateAt, PrepareWrites;
    var begun := Drop(fates, 3);
    DropSome(fates, 3, PrepareWrites(d) + |writes|);
    DropSome(begun, PrepareWrites(d), |writes|);
    DropSome(fates, JournalWrites(d, writes), 0);
  }

  /** The writes from the transaction on are all done. */
  predicate Concludes(fates: seq<Fate>, changes: bool, close: nat) {
    if changes then
      FateAt(fates, 0) == Done && Clean(Drop(fates, 1), close) && FateAt(Drop(Drop(fates, 1), close), 0) == Done
    else
      Clean(fates, close)
  }

  function Rest(fates: seq<Fate>, changes: bool, close: nat): seq<Fate> {
    if changes then Drop(Drop(Drop(fates, 1), close), 1) else Drop(fates, close)
  }

  lemma StretchesAfter(fates: seq<Fate>, d: Disk, writes: seq<(nat, nat)>)
    ensures var (n, all) := (JournalWrites(d, writes), JournaledWrites(d, writes));
            && (Clean(fates, all) <==> Clean(fates, n) && Concludes(Drop(fates, n), Changes(d, writes), CloseWrites(d)))
            && Drop(fates, all) == Rest(Drop(fates, n), Changes(d, writes), CloseWrites(d))
  {
    hide Clean, Drop, FateAt, JournalWrites, CloseWrites, Changes;
    var (n, close) := (JournalWrites(d, writes), CloseWrites(d));
    var staged := Drop(fates, n);
    if Changes(d, writes) {
      DropSome(fates, n, 1 + (close + 1));
      DropSome(staged, 1, close + 1);
      CleanNext(staged, 0, 1);
      DropSome(Drop(staged, 1), close, 1);
      CleanNext(Drop(Drop(staged, 1), close), 0, 1);
    } else {
      DropSome(fates, n, close);
    }
  }

  lemma SamePreparation(d: Disk, u: Disk)
    requires d.primary == u.primary && d.shadow == u.shadow
    ensures PrepareWrites(d) == PrepareWrites(u)
  {
  }

  lemma SameWrites(d: Disk, u: Disk, writes: seq<(nat, nat)>)
    requires d.primary == u.primary && d.shadow == u.shadow
    ensures JournalWrites(d, writes) == JournalWrites(u, writes)
            && JournaledWrites(d, writes) == JournaledWrites(u, writes)
    ensures Changes(d, writes) == Changes(u, writes)
  {
  }

  lemma StretchesAround(fates: seq<Fate>, d: Disk, writes: seq<(nat, nat)>)
    ensures var mirrored := Drop(fates, 1);
            var last := Drop(mirrored, JournaledWrites(d, writes));
            && (Clean(fates, WritesBefore(d, writes)) <==>
                FateAt(fates, 0) == Done && Clean(mirrored, JournalWrites(d, writes)))
            && FateAt(fates, WritesBefore(d, writes)) == FateAt(mirrored, JournalWrites(d, writes))
            && FateAt(fates, WritesBefore(d, writes) + 1) == FateAt(mirrored, JournalWrites(d, writes) + 1)
            && (Clean(fates, AllWrites(d, writes)) <==>
                  FateAt(fates, 0) == Done && Clean(mirrored, JournaledWrites(d, writes)) && FateAt(last, 0) == Done)
            && Drop(last, 1) == Drop(fates, AllWrites(d, writes))
  {
    hide Clean, Drop, FateAt, JournalWrites, JournaledWrites;
    CleanNext(fates, 0, 1);
    DropSome(fates, 1, JournalWrites(d, writes));
    DropSome(fates, 1, JournalWrites(d, writes) + 1);
    DropSome(fates, 1, JournaledWrites(d, writes) + 1);
    DropSome(Drop(fates, 1), JournaledWrites(d, writes), 1);
    CleanNext(Drop(Drop(fates, 1), JournaledWrites(d, writes)), 0, 1);
  }

  class TrustStore {
    var disk: Disk
    var fates: seq<Fate>
    const early: set<Item>   // what the journal directory lists before the prepared marker

    constructor (d: Disk, fs: seq<Fate>, order: set<Item>)
      ensures disk == d && fates == fs && early == order
    {
      disk, fates, early := d, fs, order;
    }

    method Attempt() returns (f: Fate)
      modifies this`fates
      ensures f == FateAt(old(fates), 0) && fates == Drop(old(fates), 1)
    {
      if fates == [] {
        return Done;
      }
      f, fates := fates[0], fates[1..];
    }

    /** One atomic durable write. */
    method Put(next: Disk) returns (ok: bool)
      modifies this
      ensures disk == if TakesEffect(FateAt(old(fates), 0)) then next else old(disk)
      ensures ok <==> FateAt(old(fates), 0) == Done
      ensures fates == Drop(old(fates), 1)
    {
      var f := Attempt();
      if TakesEffect(f) {
        disk := next;
      }
      ok := f.Done?;
    }

    /** One write or removal in the shadow tree; a failed one may leave any content behind. */
    method PutShadow(path: nat, content: Option<nat>) returns (ok: bool)
      modifies this
      ensures disk == old(disk).(shadow := disk.shadow)
      ensures ok ==> disk.shadow == if content.Some? then old(disk.shadow)[path := content.value]
              else old(disk.shadow) - {path}
      ensures ok <==> FateAt(old(fates), 0) == Done
      ensures fates == Drop(old(fates), 1)
    {
      var f := Attempt();
      var shadow := if content.Some? then disk.shadow[path := content.value] else disk.shadow - {path};
      match f {
        case Done => disk := disk.(shadow := shadow);
        case Lost =>
        case Unreported => disk := disk.(shadow := shadow);
        case Garbled(debris) => disk := disk.(shadow := disk.shadow[path := debris]);
      }
      ok := f.Done?;
    }

    /** `clear_trust_contents`. */
    method ClearShadow() returns (ok: bool)
      modifies this
      ensures disk == old(disk).(shadow := disk.shadow)
      ensures ok ==> disk.shadow == map[]
      ensures ok <==> Clean(old(fates), |old(disk.shadow)|)
      ensures ok ==> fates == Drop(old(fates), |old(disk.shadow)|)
    {
      hide Clean, Drop, FateAt;
      CleanNext(fates, 0, 1);
      ghost var (start, n, k) := (fates, |disk.shadow|, 0);
      var left := disk.shadow.Keys;
      while left != {}
        invariant disk == old(disk).(shadow := disk.shadow) && disk.shadow.Keys == left && k + |left| == n
        invariant Clean(start, k) && fates == Drop(start, k)
        decreases |left|
      {
        var p :| p in left;
        CleanNext(start, k, n);
        var cleared := PutShadow(p, None);
        if !cleared {
          return false;
        }
        left, k := left - {p}, k + 1;
      }
      ok := true;
    }

    method FillOne(tree: Tree, p: nat, ghost left: set<nat>) returns (ok: bool)
      requires Filled(disk.shadow, tree, left) && p in left
      modifies this
      ensures disk == old(disk).(shadow := disk.shadow)
      ensures ok ==> Filled(disk.shadow, tree, left - {p}) && |left - {p}| == |left| - 1
      ensures ok <==> FateAt(old(fates), 0) == Done
      ensures fates == Drop(old(fates), 1)
    {
      FilledNext(disk.shadow, tree, left, p);
      FilledKeys(disk.shadow, tree, left);
      hide Filled, FateAt, Drop;
      ok := PutShadow(p, Some(tree[p]));
    }

    method FillShadow(tree: Tree) returns (ok: bool)
      requires disk.shadow == map[]
      modifies this
      ensures disk == old(disk).(shadow := disk.shadow)
      ensures ok ==> disk.shadow == tree
      ensures ok <==> Clean(old(fates), |tree|)
      ensures ok ==> fates == Drop(old(fates), |tree|)
    {
      CleanNext(fates, 0, 1);
      FilledFirst(tree);
      ghost var (start, n, k) := (fates, |tree|, 0);
      var left := tree.Keys;
      assert Filled(disk.shadow, tree, left) && |left| == n;
      hide *;
      while left != {}
        invariant disk == old(disk).(shadow := disk.shadow) && Filled(disk.shadow, tree, left) && k + |left| == n
        invariant Clean(start, k) && fates == Drop(start, k)
        decreases |left|
      {
        var p :| p in left;
        CleanNext(start, k, n);
        var written := FillOne(tree, p, left);
        if !written {
          return false;
        }
        left, k := left - {p}, k + 1;
      }
      FilledLast(disk.shadow, tree);
      ok := true;
    }

    /** Clears the trust tree, then writes every record. */
    method ResetShadow(tree: Tree) returns (ok: bool)
      modifies this
      ensures disk == old(disk).(shadow := disk.shadow)
      ensures ok ==> disk.shadow == tree
      ensures ok <==> Clean(old(fates), |old(disk.shadow)| + |tree|)
      ensures ok ==> fates == Drop(old(fates), |old(disk.shadow)| + |tree|)
      ensures old(fates) == [] ==> ok && fates == []
    {
      DropSome(fates, |disk.shadow|, |tree|);
      ok := ClearShadow();
      if ok {
        ok := FillShadow(tree);
      }
    }

    /** `restore_legacy_shadow`: rewrites the records that differ, then removes the ones that should not be there. */
    method RestoreShadow(tree: Tree) returns (ok: bool)
      modifies this
      ensures disk == old(disk).(shadow := disk.shadow)
      ensures ok ==> disk.shadow == tree
      ensures old(fates) == [] ==> ok && fates == []
    {
      ok := RewriteDiffering(tree);
      if ok {
        ok := RemoveStale(tree);
      }
    }

    method RewriteDiffering(tree: Tree) returns (ok: bool)
      modifies this
      ensures disk == old(disk).(shadow := disk.shadow)
      ensures ok ==> Holds(disk.shadow, tree)
      ensures old(fates) == [] ==> ok && fates == []
    {
      var left := tree.Keys;
      while left != {}
        invariant left <= tree.Keys
        invariant disk == old(disk).(shadow := disk.shadow)
        invariant forall p :: p in tree && p !in left ==> p in disk.shadow && disk.shadow[p] == tree[p]
        invariant old(fates) == [] ==> fates == []
        decreases |left|
      {
        var p :| p in left;
        if p !in disk.shadow || disk.shadow[p] != tree[p] {
          var written := PutShadow(p, Some(tree[p]));
          if !written {
            return false;
          }
        }
        left := left - {p};
      }
      ok := true;
    }

    method RemoveStale(tree: Tree) returns (ok: bool)
      requires Holds(disk.shadow, tree)
      modifies this
      ensures disk == old(disk).(shadow := disk.shadow)
      ensures ok ==> disk.shadow == tree
      ensures old(fates) == [] ==> ok && fates == []
    {
      hide Holds, Stale;
      var left := Stale(disk.shadow, tree);
      while left != {}
        invariant disk == old(disk).(shadow := disk.shadow)
        invariant left == Stale(disk.shadow, tree) && Holds(disk.shadow, tree)
        invariant old(fates) == [] ==> fates == []
        decreases |left|
      {
        var p :| p in left;
        StaleRemoved(disk.shadow, tree, p);
        var removed := PutShadow(p, None);
        if !removed {
          return false;
        }
        left := left - {p};
      }
      NoneStale(disk.shadow, tree);
      ok := true;
    }

    /** Deletes one entry after another, in any order the directory allows. */
    method RemoveEntries() returns (ok: bool)
      requires disk.journal.Some?
      modifies this
      ensures disk == old(disk).(journal := disk.journal)
      ensures disk.journal.Some? && Left(early, old(disk.journal).value, disk.journal.value)
      ensures ok <==> Clean(old(fates), Size(old(disk.journal).value))
      ensures ok ==> fates == Drop(old(fates), Size(old(disk.journal).value))
    {
      ghost var (start, first) := (fates, disk.journal.value);
      CleanNext(fates, 0, 1);
      assert Left(early, first, first);
      hide Clean, Drop, FateAt, Left, Entries, Deletable, Size, Without;
      while Entries(disk.journal.value) != {}
        invariant disk == old(disk).(journal := disk.journal) && disk.journal.Some?
        invariant Left(early, first, disk.journal.value) && Size(disk.journal.value) <= Size(first)
        invariant Clean(start, Size(first) - Size(disk.journal.value))
                  && fates == Drop(start, Size(first) - Size(disk.journal.value))
        decreases Size(disk.journal.value)
      {
        var j := disk.journal.value;
        DeletableListed(early, j);
        var e :| e in Deletable(early, j);
        WithoutShrinks(j, e);
        LeftShrinks(early, first, j, e);
        CleanNext(start, Size(first) - Size(j), Size(first));
        var removed := Put(disk.(journal := Some(Without(j, e))));
        if !removed {
          return false;
        }
      }
      NothingListed(disk.journal.value);
      ok := true;
    }

    /** `remove_dir_all`: the entries, then the directory. */
    method RemoveJournal() returns (ok: bool)
      modifies this
      ensures disk == old(disk).(journal := disk.journal)
      ensures ok ==> disk.journal.None?
      ensures disk.journal.Some? ==> old(disk.journal).Some? && Left(early, old(disk.journal).value, disk.journal.value)
      ensures SafeOrder(early) && old(Sound(early, disk)) && !old(Active(disk.journal)) ==> Sound(early, disk)
      ensures var n := if old(disk.journal).Some? then Size(old(disk.journal).value) + 1 else 0;
              (ok <==> Clean(old(fates), n)) && (ok ==> fates == Drop(old(fates), n))
      ensures old(fates) == [] ==> ok && fates == []
    {
      if disk.journal.None? {
        CleanNext(fates, 0, 1);
        return true;
      }
      ghost var first := disk.journal.value;
      DropSome(fates, Size(first), 1);
      CleanNext(Drop(fates, Size(first)), 0, 1);
      ok := RemoveEntries();
      if ok {
        ok := Put(disk.(journal := None));
      }
      hide Clean, Drop, FateAt, Left, Size;
      if disk.journal.Some? && SafeOrder(early) && old(Sound(early, disk)) && !old(Active(disk.journal)) {
        LeftSound(early, old(disk), disk.journal.value);
      }
    }

    // ----- the steps of one trust write -----

    /** `begin_dual_write`: refused while anything is pending or the shadow has drifted. */
    method BeginDualWrite() returns (ok: bool)
      requires Bound(disk)
      modifies this
      ensures Bound(disk)
      ensures disk == old(disk)
              || (old(disk.mirror).None? && old(disk.shadowIntent).None? && old(disk.shadow) == disk.primary
                  && disk == old(disk).(mirror := Some(CurrentIntent(disk))))
      ensures ok ==> disk.mirror.Some? && disk.shadowIntent.None? && disk.shadow == disk.primary
      ensures ok <==> && old(disk.mirror).None? && old(disk.shadowIntent).None? && old(disk.shadow) == old(disk.primary)
                      && FateAt(old(fates), 0) == Done
      ensures ok ==> fates == Drop(old(fates), 1)
    {
      if disk.shadowIntent.Some? || disk.mirror.Some? || disk.shadow != disk.primary {
        return false;
      }
      ok := Put(disk.(mirror := Some(CurrentIntent(disk))));
    }

    /** `StateTransaction::begin`: the prepared marker is written last. */
    method BeginJournal() returns (ok: bool)
      requires Bound(disk) && disk.shadow == disk.primary && disk.shadowIntent.None?
      modifies this
      ensures disk == old(disk).(journal := disk.journal)
      ensures old(disk.journal).Some? ==> !ok && disk == old(disk)
      ensures old(disk.journal).None? ==> Sound(early, disk)
      ensures ok ==> disk.journal == Some(Journal(Some(false), true, false, false, None))
      ensures old(disk.journal).None? ==> (ok <==> Clean(old(fates), 3)) && (ok ==> fates == Drop(old(fates), 3))
    {
      if disk.journal.Some? {
        return false;
      }
      CleanNext(fates, 0, 3);
      CleanNext(fates, 1, 3);
      CleanNext(fates, 2, 3);
      hide Clean, Drop, FateAt;
      ok := Put(disk.(journal := Some(Journal(None, false, false, false, None))));
      if ok {
        ok := Put(disk.(journal := Some(disk.journal.value.(manifest := Some(false)))));
      }
      if ok {
        ok := Put(disk.(journal := Some(disk.journal.value.(prepared := true))));
      }
    }

    /** One record added to the backup directory. */
    method PutBackup(current: Tree, next: Tree, ghost before: Disk) returns (ok: bool, now: Tree)
      requires before.journal.Some? && disk == WithBackup(before, current)
      modifies this
      ensures disk == WithBackup(before, now) && (now == next || (now == current && !ok))
      ensures (ok <==> FateAt(old(fates), 0) == Done) && fates == Drop(old(fates), 1)
    {
      BackupReplaced(before, current, next);
      ok := Put(WithBackup(disk, next));
      now := disk.journal.value.backup.value;
    }

    /** Copies the primary into the backup directory, record by record. */
    method CopyRecords() returns (ok: bool, backup: Tree)
      requires disk.journal.Some? && disk.journal.value.backup == Some(map[])
      modifies this
      ensures disk == WithBackup(old(disk), backup)
      ensures ok ==> backup == old(disk.primary)
      ensures ok <==> Clean(old(fates), |old(disk.primary)|)
      ensures ok ==> fates == Drop(old(fates), |old(disk.primary)|)
    {
      ghost var (before, start, n, k) := (disk, fates, |disk.primary|, 0);
      var tree := disk.primary;
      var left: set<nat> := tree.Keys;
      backup := map[];
      CleanNext(start, 0, 1);
      FilledFirst(tree);
      BackupReplaced(before, backup, backup);
      assert disk == WithBackup(before, backup);
      hide Clean, Drop, FateAt, Filled, WithBackup;
      while left != {}
        invariant disk == WithBackup(before, backup)
        invariant Filled(backup, tree, left) && k + |left| == n
        invariant Clean(start, k) && fates == Drop(start, k)
        decreases |left|
      {
        var p :| p in left;
        CleanNext(start, k, n);
        FilledNext(backup, tree, left, p);
        FilledKeys(backup, tree, left);
        ok, backup := PutBackup(backup, backup[p := tree[p]], before);
        if !ok {
          return;
        }
        left, k := left - {p}, k + 1;
      }
      FilledLast(backup, tree);
      ok := true;
    }

    /** The complete copy of the primary that a rollback restores. */
    method WriteBackup() returns (ok: bool)
      requires Staging(disk) && disk.journal.value.manifest == Some(false)
      modifies this
      ensures Staging(disk) && disk == old(disk).(journal := disk.journal) && disk.journal.value.manifest == Some(false)
      ensures ok ==> disk.journal.value.backup == Some(disk.primary)
      ensures ok <==> Clean(old(fates), 1 + |disk.primary|)
      ensures ok ==> fates == Drop(old(fates), 1 + |disk.primary|)
    {
      DropSome(fates, 1, |disk.primary|);
      CleanNext(fates, 0, 1);
      hide Clean, Drop, FateAt, Coherent;
      PartialBackup(disk, map[]);
      ok := Put(WithBackup(disk, map[]));
      if !ok {
        return;
      }
      var backup;
      ok, backup := CopyRecords();
      BackupReplaced(old(disk), map[], backup);
      PartialBackup(old(disk), backup);
    }

    /** `prepare_trust_workspace`: complete backup, then the flag, and only then the tree itself. */
    method PrepareWorkspace() returns (ok: bool)
      requires Staging(disk) && disk.journal.value.manifest == Some(false)
      modifies this
      ensures Staging(disk)
      ensures disk == old(disk).(journal := disk.journal, shadow := disk.shadow)
      ensures ok ==> disk.shadow == disk.primary
                     && disk.journal == Some(Journal(Some(true), true, false, false, Some(disk.primary)))
      ensures ok <==> Clean(old(fates), PrepareWrites(old(disk)))
      ensures ok ==> fates == Drop(old(fates), PrepareWrites(old(disk)))
    {
      PrepareStretches(fates, disk);
      hide Clean, Drop, FateAt, PrepareWrites;
      ok := WriteBackup();
      if ok {
        ok := Put(disk.(journal := Some(disk.journal.value.(manifest := Some(true)))));
      }
      if ok {
        ok := ResetShadow(disk.primary);
      }
    }

    /** The operation's own record writes. */
    method StageWrites(writes: seq<(nat, nat)>) returns (ok: bool)
      requires Staging(disk) && disk.journal.value.manifest == Some(true) && disk.shadow == disk.primary
      modifies this
      ensures Staging(disk) && disk == old(disk).(shadow := disk.shadow)
      ensures ok ==> disk.shadow == Applied(disk.primary, writes)
      ensures ok <==> Clean(old(fates), |writes|)
      ensures ok ==> fates == Drop(old(fates), |writes|)
    {
      hide Clean, Drop, FateAt;
      CleanNext(fates, 0, 1);
      for i := 0 to |writes|
        invariant Staging(disk) && disk == old(disk).(shadow := disk.shadow)
        invariant disk.shadow == Applied(disk.primary, writes[..i])
        invariant Clean(old(fates), i) && fates == Drop(old(fates), i)
      {
        CleanNext(old(fates), i, |writes|);
        assert writes[..i + 1][..i] == writes[..i];
        var written := PutShadow(writes[i].0, Some(writes[i].1));
        if !written {
          return false;
        }
      }
      assert writes[..|writes|] == writes;
      ok := true;
    }

    /** `commit_primary_transaction`: records, generation and both intents in one database transaction. */
    method CommitPrimary() returns (ok: bool, committed: bool)
      requires Staging(disk) && disk.journal.value.manifest == Some(true)
      modifies this
      ensures Bound(disk) && Active(disk.journal) && Coherent(disk) && disk.mirror.Some?
      ensures ok ==> committed
      ensures disk == if committed && old(disk.shadow) != old(disk.primary)
                      then var next := Intent(old(disk.generation) + 1, old(disk.shadow));
                           old(disk).(primary := old(disk.shadow), generation := next.generation,
                                      mirror := Some(next), shadowIntent := Some(next))
                      else old(disk)
      ensures if old(disk.shadow) == old(disk.primary) then ok && fates == old(fates)
              else (ok <==> FateAt(old(fates), 0) == Done) && (committed <==> TakesEffect(FateAt(old(fates), 0)))
                   && fates == Drop(old(fates), 1)
    {
      if disk.shadow == disk.primary {
        return true, true;
      }
      var next := Intent(disk.generation + 1, disk.shadow);
      ok := Put(disk.(primary := disk.shadow, generation := next.generation, mirror := Some(next),
                      shadowIntent := Some(next)));
      committed := disk.shadowIntent.Some?;
    }

    /** `StateTransaction::commit`. */
    method CommitJournal() returns (ok: bool)
      requires Bound(disk) && Active(disk.journal) && Coherent(disk) && disk.shadow == disk.primary
      modifies this
      ensures disk == old(disk).(journal := disk.journal)
      ensures ok ==> disk.journal.None?
      ensures SafeOrder(early) ==> Sound(early, disk)
      ensures FateAt(old(fates), 0) == Lost ==> !ok && disk == old(disk)
      ensures var n := 1 + (Size(old(disk.journal).value) + 1) + 1;
              (ok <==> Clean(old(fates), n)) && (ok ==> fates == Drop(old(fates), n))
    {
      var n := Size(disk.journal.value) + 1;
      assert Size(disk.journal.value.(committed := true)) == n;
      DropSome(fates, 1, n + 1);
      CleanNext(fates, 0, 1);
      hide Clean, Drop, FateAt, Size;
      ok := Put(disk.(journal := Some(disk.journal.value.(committed := true))));
      if ok {
        ok := RemoveJournal();
      }
    }

    /** `rollback_active`. */
    method Rollback() returns (ok: bool)
      requires Active(disk.journal)
      modifies this
      ensures disk == old(disk).(journal := disk.journal, shadow := disk.shadow)
      ensures ok ==> RecoverJournal(old(disk)) == Some(disk)
      ensures SafeOrder(early) && old(Coherent(disk)) ==> Sound(early, disk)
      ensures old(fates) == [] ==> fates == [] && (ok <==> RecoverJournal(old(disk)).Some?)
    {
      if disk.journal.value.manifest.None? {
        return false;
      }
      if disk.journal.value.manifest.value {
        if disk.journal.value.backup.None? {
          return false;
        }
        ok := ResetShadow(disk.journal.value.backup.value);
        if !ok {
          return;
        }
      }
      ok := Put(disk.(journal := Some(disk.journal.value.(rolledBack := true))));
      if ok {
        ok := RemoveJournal();
      }
    }

    /** `confirm_primary_shadow`. */
    method ConfirmShadow() returns (ok: bool)
      requires Bound(disk)
      modifies this
      ensures disk == old(disk) || (disk == old(disk).(shadowIntent := None) && disk.shadow == disk.primary)
      ensures ok ==> disk.shadowIntent.None? && disk.shadow == disk.primary
      ensures old(disk.mirror).Some? && old(disk.shadow) == old(disk.primary) ==>
                if old(disk.shadowIntent).None? then ok && fates == old(fates)
                else (ok <==> FateAt(old(fates), 0) == Done) && fates == Drop(old(fates), 1)
    {
      if disk.shadow != disk.primary || disk.mirror.None? {
        return false;
      }
      if disk.shadowIntent.None? {
        return true;
      }
      ok := Put(disk.(shadowIntent := None));
    }

    /** `recover_primary_shadow`: blocked while a journal is present. */
    method RecoverPrimaryShadow() returns (ok: bool)
      requires Bound(disk)
      modifies this
      ensures Bound(disk)
      ensures disk == old(disk).(shadow := disk.shadow, shadowIntent := disk.shadowIntent)
      ensures ok ==> RecoverShadow(old(disk)) == Some(disk)
      ensures old(Coherent(disk)) ==> Coherent(disk)
      ensures old(Sound(early, disk)) ==> Sound(early, disk)
      ensures old(disk.shadowIntent).None? ==> ok && fates == old(fates)
      ensures old(fates) == [] ==> fates == [] && (ok <==> RecoverShadow(old(disk)).Some?)
    {
      if disk.shadowIntent.None? {
        return true;
      }
      if disk.journal.Some? {
        return false;
      }
      ok := RestoreShadow(disk.primary);
      if ok {
        ok := Put(disk.(shadowIntent := None));
      }
    }

    /** `finish_dual_write`. */
    method FinishDualWrite() returns (ok: bool)
      requires Bound(disk)
      modifies this
      ensures Bound(disk)
      ensures disk == old(disk).(shadow := disk.shadow, shadowIntent := disk.shadowIntent, mirror := disk.mirror)
      ensures ok ==> Finish(old(disk)) == Some(disk)
      ensures old(Coherent(disk)) ==> Coherent(disk)
      ensures old(Sound(early, disk)) ==> Sound(early, disk)
      ensures old(disk.shadowIntent).None? && old(disk.mirror).Some? && old(disk.shadow) == old(disk.primary) ==>
                (ok <==> FateAt(old(fates), 0) == Done) && fates == Drop(old(fates), 1)
      ensures old(fates) == [] ==> fates == [] && (ok <==> Finish(old(disk)).Some?)
    {
      ok := RecoverPrimaryShadow();
      if !ok {
        return;
      }
      if disk.mirror.None? || disk.shadow != disk.primary {
        return false;
      }
      ok := Put(disk.(mirror := None));
    }

    // ----- one trust write, and the next open -----

    /** Everything up to the database transaction, rolled back if a step fails. */
    method StageBatch(writes: seq<(nat, nat)>) returns (ok: bool)
      requires Bound(disk) && disk.shadow == disk.primary && disk.shadowIntent.None? && disk.mirror.Some?
      modifies this
      ensures disk == old(disk).(journal := disk.journal, shadow := disk.shadow)
      ensures ok ==> Staging(disk) && disk.shadow == Applied(disk.primary, writes)
                     && disk.journal == Some(Journal(Some(true), true, false, false, Some(disk.primary)))
      ensures SafeOrder(early) && old(Sound(early, disk)) ==> Sound(early, disk)
      ensures ok <==> old(disk.journal).None? && Clean(old(fates), JournalWrites(old(disk), writes))
      ensures ok ==> fates == Drop(old(fates), JournalWrites(old(disk), writes))
    {
      StretchesBefore(fates, disk, writes);
      hide Clean, Drop, FateAt, JournalWrites, PrepareWrites;
      ok := BeginJournal();
      if !ok {
        return;
      }
      SamePreparation(old(disk), disk);
      ok := PrepareWorkspace();
      if ok {
        ok := StageWrites(writes);
      }
      if !ok {
        var _ := Rollback();
      }
    }

    /** Everything after the database transaction. */
    method Conclude(ghost backup: Tree) returns (ok: bool)
      requires Bound(disk) && Coherent(disk) && disk.shadow == disk.primary && disk.mirror.Some?
      requires disk.journal == Some(Journal(Some(true), true, false, false, Some(backup)))
      modifies this
      ensures disk == old(disk).(journal := disk.journal, shadowIntent := disk.shadowIntent) && Bound(disk)
      ensures ok ==> disk.journal.None? && disk.shadowIntent.None?
      ensures SafeOrder(early) ==> Sound(early, disk)
      ensures var closed := Drop(old(fates), |backup| + 6);
              var pending := old(disk.shadowIntent).Some?;
              && (ok <==> Clean(old(fates), |backup| + 6) && (pending ==> FateAt(closed, 0) == Done))
              && (ok ==> fates == if pending then Drop(closed, 1) else closed)
      ensures FateAt(old(fates), 0) == Lost ==> !ok && disk == old(disk)
    {
      assert Size(disk.journal.value) == |backup| + 3;
      hide Clean, Drop, FateAt, Size;
      ok := CommitJournal();
      if ok {
        ok := ConfirmShadow();
      }
    }

    /** The database transaction and everything after it. */
    method CommitStaged() returns (ok: bool, committed: bool)
      requires Staging(disk) && disk.journal == Some(Journal(Some(true), true, false, false, Some(disk.primary)))
      modifies this
      ensures Bound(disk) && disk.primary == if committed then old(disk.shadow) else old(disk.primary)
      ensures ok ==> committed && disk.journal.None? && disk.shadowIntent.None? && disk.shadow == disk.primary
                     && disk.mirror.Some?
      ensures SafeOrder(early) ==> Sound(early, disk)
      ensures var changes := old(disk.shadow) != old(disk.primary);
              var close := CloseWrites(old(disk));
              && (committed <==> (changes ==> TakesEffect(FateAt(old(fates), 0))))
              && (ok <==> Concludes(old(fates), changes, close)) && (ok ==> fates == Rest(old(fates), changes, close))
              && (changes && FateAt(old(fates), 0) == Done && FateAt(Drop(old(fates), 1), 0) == Lost ==>
                    !ok && Coherent(disk) && disk.journal.Some? && disk.shadowIntent.Some?)
    {
      hide Clean, Drop, FateAt, Coherent, Sound, SafeOrder;
      ok, committed := CommitPrimary();
      if ok {
        ok := Conclude(old(disk.primary));
      } else {
        var _ := Rollback();
      }
    }

    /** The journaled part of a trust write: `commit_policy_trust_primary`, `commit_approval_head_primary`. */
    method CommitThroughJournal(writes: seq<(nat, nat)>) returns (ok: bool, committed: bool)
      requires Bound(disk)
      requires disk.shadow == disk.primary && disk.shadowIntent.None? && disk.mirror.Some?
      modifies this
      ensures Bound(disk)
      ensures disk.primary == if committed then Applied(old(disk.primary), writes) else old(disk.primary)
      ensures ok ==> committed && disk.journal.None? && disk.shadowIntent.None? && disk.shadow == disk.primary
                     && disk.mirror.Some?
      ensures SafeOrder(early) && old(Sound(early, disk)) ==> Sound(early, disk)
      ensures committed <==> && old(disk.journal).None? && Clean(old(fates), JournalWrites(old(disk), writes))
                             && (Changes(old(disk), writes) ==>
                                 TakesEffect(FateAt(old(fates), JournalWrites(old(disk), writes))))
      ensures ok <==> old(disk.journal).None? && Clean(old(fates), JournaledWrites(old(disk), writes))
      ensures ok ==> fates == Drop(old(fates), JournaledWrites(old(disk), writes))
      ensures committed && Changes(old(disk), writes) && FateAt(old(fates), JournalWrites(old(disk), writes)) == Done
              && FateAt(old(fates), JournalWrites(old(disk), writes) + 1) == Lost ==>
                !ok && Coherent(disk) && disk.journal.Some? && disk.shadowIntent.Some?
    {
      StretchesAfter(fates, disk, writes);
      DropSome(fates, JournalWrites(disk, writes), 0);
      DropSome(fates, JournalWrites(disk, writes), 1);
      DropSome(Drop(fates, JournalWrites(disk, writes)), 1, 0);
      hide Clean, Drop, FateAt, JournalWrites, JournaledWrites, Concludes, Rest, Applied, Coherent, Sound, Staging,
           SafeOrder;
      committed := false;
      ok := StageBatch(writes);
      if ok {
        ok, committed := CommitStaged();
      }
    }

    /**
     One trust write. Whatever happens to its writes, the primary ends up all old or all new: new exactly
     when the database transaction took effect, even if an error is reported.
     */
    method CommitTrust(writes: seq<(nat, nat)>) returns (ok: bool, committed: bool)
      requires Bound(disk)
      modifies this
      ensures Bound(disk)
      ensures disk.primary == if committed then Applied(old(disk.primary), writes) else old(disk.primary)
      ensures ok ==> committed && Settled(disk)
      ensures SafeOrder(early) && old(Sound(early, disk)) ==> Sound(early, disk)
      ensures committed <==> && old(Settled(disk)) && Clean(old(fates), WritesBefore(old(disk), writes))
                             && (Changes(old(disk), writes) ==>
                                 TakesEffect(FateAt(old(fates), WritesBefore(old(disk), writes))))
      ensures ok <==> old(Settled(disk)) && Clean(old(fates), AllWrites(old(disk), writes))
      ensures ok ==> fates == Drop(old(fates), AllWrites(old(disk), writes))
      ensures committed && Changes(old(disk), writes) && FateAt(old(fates), WritesBefore(old(disk), writes)) == Done
              && FateAt(old(fates), WritesBefore(old(disk), writes) + 1) == Lost ==>
                !ok && Recover(disk) == Some(Disk(disk.primary, disk.generation, None, None, disk.primary, None))
    {
      StretchesAround(fates, disk, writes);
      hide Clean, Drop, FateAt, JournalWrites, JournaledWrites, WritesBefore, AllWrites, Changes;
      committed := false;
      ok := BeginDualWrite();
      if !ok {
        return;
      }
      SameWrites(old(disk), disk, writes);
      ok, committed := CommitThroughJournal(writes);
      if Coherent(disk) && disk.journal.Some? && disk.shadowIntent.Some? {
        ErrorHidesCommit(disk);
      }
      var mirrored := FinishDualWrite();
      ok := ok && mirrored;
    }

    /** The next open: the journal, then the shadow, then the pending mirror. */
    method Open() returns (ok: bool)
      requires Bound(disk)
      modifies this
      ensures Bound(disk) && disk.primary == old(disk.primary) && disk.generation == old(disk.generation)
      ensures ok ==> Recover(old(disk)) == Some(disk)
      ensures SafeOrder(early) && old(Sound(early, disk)) ==> Sound(early, disk)
      ensures old(fates) == [] ==> fates == [] && (ok <==> Recover(old(disk)).Some?)
    {
      if disk.journal.None? {
        ok := true;
      } else if Active(disk.journal) {
        ok := Rollback();
      } else {
        ok := RemoveJournal();
      }
      if ok {
        ok := RecoverPrimaryShadow();
      }
      if ok && disk.mirror.Some? {
        ok := FinishDualWrite();
      }
    }

    /**
     A device's life: each command opens the store and writes one batch, and any of their writes may
     fail or be cut short. Every batch takes effect entirely or not at all.
     */
    method Serve(batches: seq<seq<(nat, nat)>>) returns (log: seq<bool>)
      requires Bound(disk)
      modifies this
      ensures Bound(disk) && |log| == |batches|
      ensures disk.primary == Replay(old(disk.primary), batches, log)
      ensures SafeOrder(early) && old(Sound(early, disk)) ==> Sound(early, disk)
      ensures old(fates) == [] && old(Coherent(disk)) && batches != [] ==> Settled(disk) && false !in log
    {
      log := [];
      for i := 0 to |batches|
        invariant Bound(disk) && |log| == i
        invariant disk.primary == Replay(old(disk.primary), batches[..i], log)
        invariant SafeOrder(early) && old(Sound(early, disk)) ==> Sound(early, disk)
        invariant old(fates) == [] && old(Coherent(disk)) ==>
                  fates == [] && Coherent(disk) && false !in log && (i > 0 ==> Settled(disk))
      {
        RecoveryExact(disk);
        var ready := Open();
        var committed := false;
        if ready {
          var _, done := CommitTrust(batches[i]);
          committed := done;
        }
        assert batches[..i + 1][..i] == batches[..i] && (log + [committed])[..i] == log;
        log := log + [committed];
      }
      assert batches[..|batches|] == batches;
    }
  }
}
