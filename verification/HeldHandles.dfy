/**
 The held-file worker's handle ownership: attach, capture, selective release, recapture, audit and
 dispose, with a failure possible at every step.

 A handle is the identity of one successful open, so a recycled handle value is a different handle.
 `faults` decides every native call and check that can fail; it is arbitrary.
 */
module HeldHandles {
  import opened Basics

  type Handle = nat
  type FileId = nat

  const HELD_SLOTS: nat := 4
  const TYPED_LOCKS: nat := 2

  datatype Owned = Owned(handle: Handle, id: FileId, closeAttempted: bool)

  /**
   The handle tables. `held`, `closed` and `leaked` are history: the handles open and owned, the native
   close calls made, and the budget units whose close failed. Handles below `issued` have been opened.
   */
  datatype Table = Table(
    budget: nat, live: seq<Owned>, guards: seq<Handle>, identities: set<FileId>, cleanupUnknown: bool,
    issued: nat, held: set<Handle>, closed: multiset<Handle>, leaked: nat)

  // ----- what the tables promise -----

  predicate Accounted(t: Table) {
    && t.budget == |t.held| + t.leaked && (t.leaked > 0 ==> t.cleanupUnknown)
    && (forall h :: h in t.held ==> h < t.issued && h !in t.closed)
    && (forall h :: h in t.closed ==> h < t.issued && t.closed[h] == 1)
    && (forall h :: 0 <= h < t.issued ==> h in t.held || h in t.closed)
  }

  /** The item at `i` is owned and not yet given up. */
  predicate Holds(t: Table, i: int) {
    0 <= i < |t.live| && !t.live[i].closeAttempted
  }

  predicate HeldAs(t: Table, i: int, id: FileId) {
    Holds(t, i) && t.live[i].id == id
  }

  /** The first `n` slots are held, with these identities. */
  predicate SlotsHeld(t: Table, slots: seq<nat>, ids: seq<FileId>, n: nat) {
    n <= |slots| && n <= |ids| && forall k :: 0 <= k < n ==> HeldAs(t, slots[k], ids[k])
  }

  /** Somebody owns this handle. */
  ghost predicate Keeps(t: Table, h: Handle) {
    h in t.guards || exists i :: Holds(t, i) && t.live[i].handle == h
  }

  /** What owners hold is open, and nobody else's. */
  ghost predicate Owners(t: Table, loose: set<Handle>) {
    && (forall i :: Holds(t, i) ==> t.live[i].handle in t.held - loose && t.live[i].handle !in t.guards
                                    && t.live[i].id in t.identities)
    && (forall g :: g in t.guards ==> g in t.held - loose)
    && (forall i, j :: Holds(t, i) && Holds(t, j) && i != j ==>
          t.live[i].handle != t.live[j].handle && t.live[i].id != t.live[j].id)
    && Distinct(t.guards)
  }

  /** What is open is owned, except what is in somebody's hands. */
  ghost predicate AllKept(t: Table, loose: set<Handle>) {
    loose <= t.held && forall h :: h in t.held - loose ==> Keeps(t, h)
  }

  ghost predicate Sound(t: Table, loose: set<Handle>) {
    Accounted(t) && Owners(t, loose) && AllKept(t, loose)
  }

  // ----- the primitive changes -----

  /** A budget unit taken and a handle opened. */
  function Open(t: Table): Table {
    t.(budget := t.budget + 1, issued := t.issued + 1, held := t.held + {t.issued})
  }

  /** One native close. A failed one keeps its budget unit and flags the cleanup. */
  function Closed(t: Table, h: Handle, ok: bool): Table
    requires t.budget > 0
  {
    var u := t.(held := t.held - {h}, closed := t.closed + multiset{h});
    if ok then u.(budget := t.budget - 1) else u.(leaked := t.leaked + 1, cleanupUnknown := true)
  }

  function AttachLive(t: Table, h: Handle, id: FileId): Table {
    t.(live := t.live + [Owned(h, id, false)], identities := t.identities + {id})
  }

  function GiveUp(t: Table, i: nat): Table
    requires i < |t.live|
  {
    t.(live := t.live[i := t.live[i].(closeAttempted := true)])
  }

  /** Ownership depends on the live items and the guards only. */
  lemma SameKeepers(t: Table, u: Table)
    requires t.live == u.live && t.guards == u.guards
    ensures forall h :: Keeps(t, h) <==> Keeps(u, h)
  {
    assert forall i :: Holds(t, i) <==> Holds(u, i);
    forall h
      ensures Keeps(t, h) <==> Keeps(u, h)
    {
    }
  }

  lemma OpenSound(t: Table, loose: set<Handle>)
    requires Sound(t, loose)
    ensures Sound(Open(t), loose + {t.issued}) && t.issued !in t.held
  {
    var u := Open(t);
    SameKeepers(t, u);
    assert Accounted(u) && t.issued !in t.held;
    hide Accounted, Keeps;
    assert u.held - (loose + {t.issued}) == t.held - loose;
    assert forall i :: Holds(u, i) <==> Holds(t, i);
  }

  lemma ClosedSound(t: Table, loose: set<Handle>, h: Handle, ok: bool)
    requires Sound(t, loose) && h in loose
    ensures t.budget > 0 && Sound(Closed(t, h, ok), loose - {h})
  {
    assert |t.held - {h}| == |t.held| - 1;
    var u := Closed(t, h, ok);
    SameKeepers(t, u);
    assert Accounted(u);
    hide Accounted, Keeps;
    assert u.held - (loose - {h}) == t.held - loose;
    assert forall i :: Holds(u, i) <==> Holds(t, i);
  }

  lemma AttachLiveSound(t: Table, loose: set<Handle>, h: Handle, id: FileId)
    requires Sound(t, loose) && h in loose && id !in t.identities
    ensures Sound(AttachLive(t, h, id), loose - {h})
  {
    var u := AttachLive(t, h, id);
    assert forall i :: Holds(u, i) ==> i == |t.live| || (Holds(t, i) && u.live[i] == t.live[i]);
    forall x | x in u.held - (loose - {h})
      ensures Keeps(u, x)
    {
      if x == h {
        assert Holds(u, |t.live|) && u.live[|t.live|].handle == h;
      } else if x !in t.guards {
        assert Keeps(t, x);
        var i :| Holds(t, i) && t.live[i].handle == x;
        assert Holds(u, i) && u.live[i] == t.live[i];
      }
    }
  }

  lemma AttachGuardSound(t: Table, h: Handle)
    requires Sound(t, {h})
    ensures Sound(t.(guards := t.guards + [h]), {})
  {
    var u := t.(guards := t.guards + [h]);
    assert forall i :: Holds(u, i) <==> Holds(t, i);
    assert forall x :: x in t.held - {h} ==> Keeps(t, x) && Keeps(u, x);
    assert h in u.guards;
  }

  lemma GiveUpSound(t: Table, i: nat)
    requires Sound(t, {}) && Holds(t, i)
    ensures Sound(GiveUp(t, i), {t.live[i].handle})
    ensures forall j :: Holds(GiveUp(t, i), j) ==> t.live[j].id != t.live[i].id
  {
    var (u, h) := (GiveUp(t, i), t.live[i].handle);
    assert forall j :: Holds(u, j) ==> j != i && Holds(t, j) && u.live[j] == t.live[j];
    forall x | x in u.held - {h}
      ensures Keeps(u, x)
    {
      assert Keeps(t, x);
      if x !in t.guards {
        var j :| Holds(t, j) && t.live[j].handle == x;
        assert Holds(u, j) && u.live[j] == t.live[j];
      }
    }
  }

  /** Giving up an item frees its identity, and no other item's. */
  lemma ForgetSound(t: Table, id: FileId)
    requires Sound(t, {}) && forall j :: Holds(t, j) ==> t.live[j].id != id
    ensures Sound(t.(identities := t.identities - {id}), {})
  {
    var u := t.(identities := t.identities - {id});
    SameKeepers(t, u);
    assert forall j :: Holds(u, j) <==> Holds(t, j);
  }

  lemma DropGuardSound(t: Table)
    requires Sound(t, {}) && t.guards != []
    ensures Sound(t.(guards := t.guards[1..]), {t.guards[0]})
  {
    var (u, g) := (t.(guards := t.guards[1..]), t.guards[0]);
    assert forall i :: Holds(u, i) <==> Holds(t, i);
    assert t.guards == [g] + u.guards;
    assert forall k :: 0 <= k < |u.guards| ==> u.guards[k] == t.guards[k + 1];
    assert forall x :: x in u.guards ==> x in t.guards && x != g;
    assert g in t.guards;
    forall x | x in u.held - {g}
      ensures Keeps(u, x)
    {
      assert Keeps(t, x);
      if x !in t.guards {
        var j :| Holds(t, j) && t.live[j].handle == x;
        assert Holds(u, j);
      }
    }
  }

  lemma NothingHeld(t: Table)
    requires Sound(t, {}) && t.guards == [] && forall i :: !Holds(t, i)
    ensures t.held == {} && t.budget == t.leaked
    ensures forall h :: 0 <= h < t.issued ==> t.closed[h] == 1
  {
    assert forall h :: h in t.held ==> Keeps(t, h);
    assert t.held == {};
  }

  // ----- the worker -----

  class Core {
    const handleCap: nat
    var t: Table
    var slots: seq<nat>               // where in the live items the four mutable slots are
    var typed: nat
    var captureStarted: bool
    var baseline: bool
    var released: bool
    var final: bool
    var releaseCount: nat
    var recaptureCount: nat
    var inputsClosed: bool
    var inputHandlesReleased: bool
    var disposed: bool
    var faults: seq<bool>

    ghost predicate Valid()
      reads this
    {
      && Sound(t, {})
      && (baseline ==> captureStarted && |slots| == HELD_SLOTS && forall n :: 0 <= n < HELD_SLOTS ==>
          slots[n] < |t.live|)
      && (released ==> baseline)
    }

    constructor (cap: nat, fs: seq<bool>)
      ensures Valid() && t.budget == 0 && t.issued == 0 && !t.cleanupUnknown && !disposed
    {
      handleCap, slots, typed, faults := cap, [], 0, fs;
      t := Table(0, [], [], {}, false, 0, {}, multiset{}, 0);
      captureStarted, baseline, released, final := false, false, false, false;
      releaseCount, recaptureCount := 0, 0;
      inputsClosed, inputHandlesReleased, disposed := false, false, false;
    }

    method Fault() returns (f: bool)
      modifies this`faults
    {
      if faults == [] {
        return false;
      }
      f, faults := faults[0], faults[1..];
    }

    /** Exactly one native close for a handle that was not closed before; otherwise the cleanup is flagged. */
    method CloseFile(h: Handle) returns (ok: bool)
      requires t.budget > 0
      modifies this`t, this`faults
      ensures h in old(t.closed) ==> !ok && t == old(t).(cleanupUnknown := true)
      ensures h !in old(t.closed) ==> t == Closed(old(t), h, ok)
    {
      if h in t.closed {
        t := t.(cleanupUnknown := true);
        return false;
      }
      var failed := Fault();
      t := Closed(t, h, !failed);
      ok := !failed;
    }

    /** Takes a budget unit and opens; a refused open gives the unit back and leaves no trace. */
    method TryOpen(ghost loose: set<Handle>) returns (h: Option<Handle>)
      requires Sound(t, loose)
      modifies this`t, this`faults
      ensures h == None ==> t == old(t)
      ensures h.Some? ==> h.value == old(t.issued) && t == Open(old(t)) && Sound(t, loose + {h.value})
                          && h.value !in old(t.held)
    {
      var refused := Fault();
      if refused || t.budget >= handleCap {
        return None;
      }
      OpenSound(t, loose);
      h := Some(t.issued);
      t := Open(t);
    }

    /** A handle in hand is closed, once. */
    method CloseLoose(h: Handle, ghost loose: set<Handle>)
      requires Sound(t, loose) && h in loose
      modifies this`t, this`faults
      ensures Sound(t, loose - {h}) && t.live == old(t.live) && t.guards == old(t.guards)
              && t.identities == old(t.identities)
      ensures t.held == old(t.held) - {h} && t.closed[h] == 1 && (old(t.cleanupUnknown) ==> t.cleanupUnknown)
    {
      LooseIsOpen(t, loose, h);
      ClosedSound(t, loose, h, true);
      ClosedSound(t, loose, h, false);
      var _ := CloseFile(h);
    }

    /** The stream enumeration's own handle: opened and closed before the check returns. */
    method Streams(ghost loose: set<Handle>) returns (ok: bool)
      requires Sound(t, loose)
      modifies this`t, this`faults
      ensures Sound(t, loose) && t.live == old(t.live) && t.guards == old(t.guards) && t.identities == old(t.identities)
      ensures t.held == old(t.held) && (old(t.cleanupUnknown) ==> t.cleanupUnknown)
    {
      if t.budget >= handleCap {
        return false;
      }
      var refused := Fault();
      if refused {
        ok := Fault();     // a directory without streams is not an error
        return;
      }
      TransientSound(t, loose);
      var failed := Fault();
      t := Closed(Open(t), t.issued, !failed);
      var unexpected := Fault();
      ok := !unexpected;
    }

    /** The checks on an open handle: it becomes a live item, or is closed again. */
    method Adopt(h: Handle, id: FileId, ghost loose: set<Handle>) returns (ok: bool)
      requires Sound(t, loose) && h in loose
      modifies this`t, this`faults
      ensures Sound(t, loose - {h}) && t.guards == old(t.guards) && (old(t.cleanupUnknown) ==> t.cleanupUnknown)
      ensures if ok then t.live == old(t.live) + [Owned(h, id, false)] && t.held == old(t.held)
              else t.live == old(t.live) && t.held == old(t.held) - {h}
    {
      hide Sound;
      var checkFails := Fault();
      ok := false;
      if !checkFails && id !in t.identities {
        ok := Streams(loose);
      }
      if !ok || |t.live| >= handleCap {
        CloseLoose(h, loose);
        return false;
      }
      AttachLiveSound(t, loose, h, id);
      t := AttachLive(t, h, id);
    }

    /** `Acquire`: on any failure after the open the handle is closed again. */
    method Acquire(id: FileId, ghost loose: set<Handle>) returns (ok: bool)
      requires Sound(t, loose)
      modifies this`t, this`faults
      ensures Sound(t, loose) && t.guards == old(t.guards) && (old(t.cleanupUnknown) ==> t.cleanupUnknown)
      ensures !ok ==> t.live == old(t.live) && t.held == old(t.held)
      ensures ok ==> exists h :: h !in old(t.held) && t.live == old(t.live) + [Owned(h, id, false)]
                                 && t.held == old(t.held) + {h}
    {
      LooseIsHeld(t, loose);
      hide Sound;
      var h := TryOpen(loose);
      if h.None? {
        return false;
      }
      assert loose + {h.value} - {h.value} == loose;
      ok := Adopt(h.value, id, loose + {h.value});
      assert old(t.held) + {h.value} - {h.value} == old(t.held);
    }

    /** `Ancestors`: the directories above a path that are not owned yet, outermost first. */
    method AcquireAncestors(ids: seq<FileId>, ghost loose: set<Handle>) returns (ok: bool)
      requires Sound(t, loose)
      modifies this`t, this`faults
      ensures Sound(t, loose) && t.guards == old(t.guards)
      ensures Joined(old(t.live), t.live, ids) && (ok ==> |t.live| == |old(t.live)| + |ids|)
    {
      hide Sound;
      for i := 0 to |ids|
        invariant Sound(t, loose) && t.guards == old(t.guards)
        invariant Joined(old(t.live), t.live, ids) && |t.live| == |old(t.live)| + i
      {
        var acquired := Acquire(ids[i], loose);
        if !acquired {
          return false;
        }
      }
      ok := true;
    }

    /** The ancestors of the lock, and then the lock itself, whose handle is in the budget but not owned yet. */
    method AttachOpened(h: Handle, id: FileId, ancestors: seq<FileId>) returns (ok: bool)
      requires Sound(t, {h})
      modifies this`t, this`faults
      ensures Sound(t, {}) && Joined(old(t.live), t.live, ancestors + [id])
      ensures ok <==> |t.live| == |old(t.live)| + |ancestors| + 1
    {
      LooseIsHeld(t, {h});
      hide Sound, Joined;
      assert {h} - {h} == {};
      ok := AcquireAncestors(ancestors, {h});
      JoinedShort(old(t.live), t.live, ancestors, id);
      if !ok {
        CloseLoose(h, {h});
        return;
      }
      ghost var above := t.live;
      ok := Adopt(h, id, {h});
      if ok {
        JoinedLast(old(t.live), above, ancestors, Owned(h, id, false));
      }
    }

    /**
     `AttachTypedLock`: consumes the caller's handle even on failure. The ancestor directories acquired on
     the way stay owned, whatever happens after them.
     */
    method AttachTypedLock(id: FileId, ancestors: seq<FileId>) returns (ok: bool)
      requires Valid()
      modifies this
      ensures Valid() && disposed == old(disposed)
      ensures Joined(old(t.live), t.live, ancestors + [id])
      ensures ok <==> |t.live| == |old(t.live)| + |ancestors| + 1
    {
      hide Sound;
      if captureStarted || typed >= TYPED_LOCKS || t.budget >= handleCap {
        var failed := Fault();     // the handle is closed outside the budget
        if failed {
          FlagSound(t);
          t := t.(cleanupUnknown := true);
        }
        return false;
      }
      OpenSound(t, {});
      var h := t.issued;
      t := Open(t);
      assert {} + {h} == {h};
      ok := AttachOpened(h, id, ancestors);
      if ok {
        typed := typed + 1;
      }
    }

    /** Acquires item after item; stops at the first failure. */
    method AcquireAll(ids: seq<FileId>) returns (ok: bool, captured: seq<nat>)
      requires Sound(t, {})
      modifies this`t, this`faults
      ensures Sound(t, {}) && t.guards == old(t.guards) && old(t.live) <= t.live
      ensures ok ==> |captured| == |ids| && SlotsHeld(t, captured, ids, |ids|)
    {
      hide Sound;
      captured := [];
      for i := 0 to |ids|
        invariant Sound(t, {}) && t.guards == old(t.guards) && old(t.live) <= t.live
        invariant |captured| == i && SlotsHeld(t, captured, ids, i)
      {
        var acquired := Acquire(ids[i], {});
        if !acquired {
          return false, captured;
        }
        captured := captured + [|t.live| - 1];
      }
      ok := true;
    }

    /**
     `CaptureHeldBaseline`: `rows` says which of the captured files the four mutable slots are, if the
     inventory lists them.
     */
    method CaptureHeldBaseline(ids: seq<FileId>, rows: seq<Option<nat>>) returns (ok: bool)
      requires Valid() && |rows| == HELD_SLOTS && forall n :: 0 <= n < |rows| && rows[n].Some? ==> rows[n].value < |ids|
      modifies this
      ensures Valid() && disposed == old(disposed)
      ensures ok ==> baseline && None !in rows && SlotsHeld(t, slots, Picked(ids, rows), HELD_SLOTS)
    {
      hide Sound;
      if captureStarted || typed != TYPED_LOCKS {
        return false;
      }
      captureStarted := true;
      var captured;
      ok, captured := AcquireAll(ids);
      var failed := Fault();
      if !ok || failed || None in rows {
        return false;
      }
      PickedHeld(t, captured, ids, rows);
      slots := Picked(captured, rows);
      baseline := true;
    }

    /** `HeldDatabaseGuard`. */
    method HeldDatabaseGuard() returns (ok: bool)
      requires Sound(t, {})
      modifies this`t, this`faults
      ensures Sound(t, {}) && t.live == old(t.live)
      ensures if ok then |t.guards| == |old(t.guards)| + 1 else t.guards == old(t.guards) && t.held == old(t.held)
    {
      hide Sound;
      var h := TryOpen({});
      if h.None? {
        return false;
      }
      assert {} + {h.value} == {h.value} && {h.value} - {h.value} == {};
      var differs := Fault();
      if differs {
        CloseLoose(h.value, {h.value});
        assert old(t.held) + {h.value} - {h.value} == old(t.held);
        return false;
      }
      AttachGuardSound(t, h.value);
      t := t.(guards := t.guards + [h.value]);
      ok := true;
    }

    /** One owned item given up: closed once, and its identity forgotten only if the close was clean. */
    method ReleaseItem(i: nat) returns (ok: bool)
      requires Sound(t, {}) && i < |t.live|
      modifies this`t, this`faults
      ensures Sound(t, {}) && |t.live| == |old(t.live)| && !Holds(t, i) && t.guards == old(t.guards)
      ensures forall j :: Holds(t, j) ==> Holds(old(t), j)
      ensures !Holds(old(t), i) ==> !ok && t == old(t)
      ensures old(t.cleanupUnknown) ==> t.cleanupUnknown
    {
      if t.live[i].closeAttempted {
        return false;
      }
      var (h, id) := (t.live[i].handle, t.live[i].id);
      GiveUpSound(t, i);
      t := GiveUp(t, i);
      ClosedSound(t, {h}, h, true);
      ClosedSound(t, {h}, h, false);
      ghost var given := t;
      ok := CloseFile(h);
      assert {h} - {h} == {};
      assert forall j :: Holds(t, j) <==> Holds(given, j);
      if !ok {
        return;
      }
      ForgetSound(t, id);
      t := t.(identities := t.identities - {id});
      assert forall j :: Holds(t, j) <==> Holds(given, j);
    }

    /** `ReleaseHeldSlots`. */
    method ReleaseHeldSlots() returns (ok: bool)
      requires Valid()
      modifies this
      ensures Valid() && disposed == old(disposed)
      ensures ok ==> released && slots == old(slots) && forall n :: 0 <= n < HELD_SLOTS ==> !Holds(t, slots[n])
      ensures ok ==> |t.guards| == |old(t.guards)| + 2
    {
      hide Sound;
      if !baseline || released || releaseCount != 0 {
        return false;
      }
      for n := 0 to HELD_SLOTS
        invariant Valid() && baseline && captureStarted && disposed == old(disposed) && slots == old(slots)
        invariant forall k :: 0 <= k < n ==> !Holds(t, slots[k])
        invariant |t.guards| == |old(t.guards)| + (n + 1) / 2
      {
        if n % 2 == 0 {
          var guarded := HeldDatabaseGuard();
          if !guarded {
            return false;
          }
        }
        var freed := ReleaseItem(slots[n]);
        if !freed {
          return false;
        }
        releaseCount := releaseCount + 1;
        var injected := Fault();
        if injected {
          return false;
        }
      }
      released := true;
      ok := true;
    }

    /** `AuditHeldFinal`: the four slots acquired again, and every check that follows. */
    method AuditHeldFinal(ids: seq<FileId>) returns (ok: bool)
      requires Valid() && |ids| == HELD_SLOTS
      modifies this
      ensures Valid() && disposed == old(disposed)
      ensures ok ==> final && SlotsHeld(t, slots, ids, HELD_SLOTS)
    {
      hide Sound;
      if !released || final || recaptureCount != 0 {
        return false;
      }
      for n := 0 to HELD_SLOTS
        invariant Valid() && baseline && captureStarted && disposed == old(disposed)
        invariant SlotsHeld(t, slots, ids, n)
      {
        var acquired := Acquire(ids[n], {});
        if !acquired {
          return false;
        }
        slots := slots[n := |t.live| - 1];
        var differs := Fault();
        if differs {
          return false;
        }
        recaptureCount := recaptureCount + 1;
      }
      var failed := Fault();
      if failed {
        return false;
      }
      final := true;
      ok := true;
    }

    /** `CloseInputs`: backwards over the live items. */
    method CloseInputs()
      requires Sound(t, {}) && t.guards == []
      modifies this`t, this`faults, this`inputsClosed, this`inputHandlesReleased
      ensures Sound(t, {}) && t.guards == [] && |t.live| == |old(t.live)|
      ensures forall i :: !Holds(t, i)
      ensures inputHandlesReleased <==> !t.cleanupUnknown && t.budget == 0
      ensures old(t.cleanupUnknown) ==> t.cleanupUnknown
    {
      var i := |t.live|;
      while i > 0
        invariant 0 <= i <= |t.live| == |old(t.live)| && Sound(t, {}) && t.guards == []
        invariant forall j :: Holds(t, j) ==> j < i
        invariant old(t.cleanupUnknown) ==> t.cleanupUnknown
      {
        i := i - 1;
        var _ := ReleaseItem(i);
      }
      inputsClosed := true;
      inputHandlesReleased := !t.cleanupUnknown && t.budget == 0;
    }

    method CloseGuards()
      requires Sound(t, {})
      modifies this`t, this`faults
      ensures Sound(t, {}) && t.guards == [] && |t.live| == |old(t.live)|
    {
      hide Accounted, Owners, AllKept;
      while t.guards != []
        invariant Sound(t, {}) && |t.live| == |old(t.live)|
        decreases |t.guards|
      {
        var g := t.guards[0];
        DropGuardSound(t);
        t := t.(guards := t.guards[1..]);
        assert {g} - {g} == {};
        CloseLoose(g, {g});
      }
    }

    /**
     `HeldDispose`, at any moment and after any failure: every handle ever opened has been closed exactly
     once, and the budget is zero unless the cleanup is flagged. A second call does nothing, so this
     holds of anything opened before the first call and of nothing opened after it.
     */
    method HeldDispose()
      requires Valid()
      modifies this
      ensures Valid() && disposed
      ensures old(disposed) ==> t == old(t)
      ensures !old(disposed) ==> && (forall h :: 0 <= h < t.issued ==> t.closed[h] == 1)
                                 && t.held == {} && (t.budget == 0 || t.cleanupUnknown)
                                 && (HeldCleanupOk() <==> !t.cleanupUnknown)
    {
      if disposed {
        return;
      }
      hide Sound;
      CloseGuards();
      CloseInputs();
      NothingHeld(t);
      disposed := true;
    }

    predicate HeldCleanupOk()
      reads this
    {
      disposed && inputHandlesReleased && !t.cleanupUnknown && t.budget == 0
    }

    /** Any calls in any order, each failing anywhere, and then the disposal. */
    method Session(calls: seq<Call>)
      requires Valid() && !disposed
      modifies this
      ensures disposed && Valid() && t.held == {}
      ensures forall h :: 0 <= h < t.issued ==> t.closed[h] == 1
      ensures t.budget == 0 || t.cleanupUnknown
    {
      for i := 0 to |calls|
        invariant Valid() && !disposed
      {
        match calls[i] {
          case Attach(id, ancestors) => var _ := AttachTypedLock(id, ancestors);
          case Capture(ids, rows) =>
            if |rows| == HELD_SLOTS && forall n :: 0 <= n < HELD_SLOTS && rows[n].Some? ==> rows[n].value < |ids| {
              var _ := CaptureHeldBaseline(ids, rows);
            }
          case Release => var _ := ReleaseHeldSlots();
          case Audit(ids) => if |ids| == HELD_SLOTS { var _ := AuditHeldFinal(ids); }
        }
      }
      HeldDispose();
    }
  }

  datatype Call =
    | Attach(id: FileId, ancestors: seq<FileId>)
    | Capture(ids: seq<FileId>, rows: seq<Option<nat>>)
    | Release
    | Audit(ids: seq<FileId>)

  lemma LooseIsOpen(t: Table, loose: set<Handle>, h: Handle)
    requires Sound(t, loose) && h in loose
    ensures h !in t.closed
  {
  }

  lemma LooseIsHeld(t: Table, loose: set<Handle>)
    requires Sound(t, loose)
    ensures loose <= t.held
  {
  }

  /** Flagging the cleanup changes nobody's ownership. */
  lemma FlagSound(t: Table)
    requires Sound(t, {})
    ensures Sound(t.(cleanupUnknown := true), {})
  {
    var u := t.(cleanupUnknown := true);
    SameKeepers(t, u);
    assert forall i :: Holds(u, i) <==> Holds(t, i);
  }

  /** The live items were extended by open items with the first of these identities, in order. */
  predicate Joined(before: seq<Owned>, after: seq<Owned>, ids: seq<FileId>) {
    && before <= after && |after| <= |before| + |ids|
    && forall k :: |before| <= k < |after| ==> after[k].id == ids[k - |before|] && !after[k].closeAttempted
  }

  lemma JoinedShort(before: seq<Owned>, after: seq<Owned>, ids: seq<FileId>, id: FileId)
    requires Joined(before, after, ids)
    ensures Joined(before, after, ids + [id])
  {
  }

  lemma JoinedLast(before: seq<Owned>, above: seq<Owned>, ids: seq<FileId>, last: Owned)
    requires Joined(before, above, ids) && |above| == |before| + |ids| && !last.closeAttempted
    ensures Joined(before, above + [last], ids + [last.id])
  {
  }

  /** The entries that rows name, in row order. */
  function Picked(items: seq<nat>, rows: seq<Option<nat>>): (r: seq<nat>)
    ensures |r| == |rows|
  {
    seq(|rows|, n requires 0 <= n < |rows| => if rows[n].Some? && rows[n].value < |items| then items[rows[n].value]
        else 0)
  }

  lemma PickedHeld(t: Table, captured: seq<nat>, ids: seq<FileId>, rows: seq<Option<nat>>)
    requires |captured| == |ids| && SlotsHeld(t, captured, ids, |ids|) && None !in rows
    requires forall n :: 0 <= n < |rows| && rows[n].Some? ==> rows[n].value < |ids|
    ensures SlotsHeld(t, Picked(captured, rows), Picked(ids, rows), |rows|)
    ensures forall n :: 0 <= n < |rows| ==> Picked(captured, rows)[n] < |t.live|
  {
    forall n | 0 <= n < |rows|
      ensures HeldAs(t, Picked(captured, rows)[n], Picked(ids, rows)[n])
    {
      assert rows[n] in rows;
    }
  }

  /** Opening and closing a handle of one's own disturbs nobody. */
  lemma TransientSound(t: Table, loose: set<Handle>)
    requires Sound(t, loose)
    ensures Sound(Closed(Open(t), t.issued, true), loose) && Sound(Closed(Open(t), t.issued, false), loose)
  {
    assert t.issued !in t.held;
    var u := Closed(Open(t), t.issued, true);
    var v := Closed(Open(t), t.issued, false);
    assert t.held + {t.issued} - {t.issued} == t.held;
    SameKeepers(t, u);
    SameKeepers(t, v);
    assert forall i :: Holds(t, i) <==> Holds(u, i);
    assert forall i :: Holds(t, i) <==> Holds(v, i);
  }
}
