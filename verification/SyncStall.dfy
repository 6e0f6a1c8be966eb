/**
 A retried inventory is answered only while the responder would still plan the Diff it journaled. When
 that can never be again, a session whose Diff was lost is stuck for good.
 */
module SyncStall {
  import opened Basics
  import opened Sync

  // ----- truncated sets -----

  /** The truncation of a set is the only part of it with that size and everything else above it. */
  lemma TakeUnique(part: set<Key>, whole: set<Key>, n: nat)
    requires part <= whole && |part| == (if |whole| <= n then |whole| else n)
    requires forall x, y :: x in part && y in whole && y !in part ==> x < y
    ensures Take(whole, n) == part
  {
    TakeIsPrefix(whole, n);
    var taken := Take(whole, n);
    hide Take;
    if x :| x in part && x !in taken {
      forall y | y in taken
        ensures y in part
      {
        assert y in part || x < y;
      }
      SameSizeSubset(taken, part);
    }
    SameSizeSubset(part, taken);
  }

  /** A set between two with the same truncation has it too. */
  lemma TakeBetween(inner: set<Key>, middle: set<Key>, outer: set<Key>, n: nat)
    requires inner <= middle <= outer && Take(inner, n) == Take(outer, n)
    ensures Take(middle, n) == Take(outer, n)
  {
    TakeIsPrefix(inner, n);
    TakeIsPrefix(outer, n);
    SubsetCardinality(inner, middle);
    SubsetCardinality(middle, outer);
    TakeUnique(Take(outer, n), middle, n);
  }

  // ----- plans that can never be made again -----

  /** However the responder's store grows, it will not plan this Diff for this inventory again. */
  predicate Blocked(store: set<Key>, inventory: set<Key>, d: Diff) {
    var plan := Plan(store, inventory);
    || plan.requested != d.requested || plan.events != d.events || (plan.more && !d.more)
    || (d.more && !plan.more && |store - inventory| < MAX_EVENTS_PER_BATCH)
  }

  lemma RequestedBlocks(planned: set<Key>, store: set<Key>, more: set<Key>, inventory: set<Key>)
    requires planned <= store <= more
    ensures Plan(store, inventory).requested != Plan(planned, inventory).requested ==>
              Plan(more, inventory).requested != Plan(planned, inventory).requested
  {
    if Plan(more, inventory).requested == Plan(planned, inventory).requested {
      TakeBetween(inventory - more, inventory - store, inventory - planned, MAX_EVENTS_PER_BATCH);
    }
  }

  lemma EventsBlock(planned: set<Key>, store: set<Key>, more: set<Key>, inventory: set<Key>)
    requires planned <= store <= more
    ensures Plan(store, inventory).events != Plan(planned, inventory).events ==>
              Plan(more, inventory).events != Plan(planned, inventory).events
  {
    if Plan(more, inventory).events == Plan(planned, inventory).events {
      TakeBetween(planned - inventory, store - inventory, more - inventory, MAX_EVENTS_PER_BATCH);
    }
  }

  lemma Sizes(planned: set<Key>, store: set<Key>, more: set<Key>, inventory: set<Key>)
    requires planned <= store <= more
    ensures |inventory - more| <= |inventory - store| <= |inventory - planned|
    ensures |planned - inventory| <= |store - inventory| <= |more - inventory|
  {
    SubsetCardinality(inventory - more, inventory - store);
    SubsetCardinality(inventory - store, inventory - planned);
    SubsetCardinality(planned - inventory, store - inventory);
    SubsetCardinality(store - inventory, more - inventory);
  }

  /** Once blocked, blocked for ever. */
  lemma BlockedStays(planned: set<Key>, store: set<Key>, more: set<Key>, inventory: set<Key>)
    requires planned <= store <= more && Blocked(store, inventory, Plan(planned, inventory))
    ensures Blocked(more, inventory, Plan(planned, inventory))
  {
    RequestedBlocks(planned, store, more, inventory);
    EventsBlock(planned, store, more, inventory);
    Sizes(planned, store, more, inventory);
    TakeIsPrefix(store - inventory, MAX_EVENTS_PER_BATCH);
    TakeIsPrefix(more - inventory, MAX_EVENTS_PER_BATCH);
    hide Take;
  }

  lemma KeyBeyond(s: set<Key>) returns (key: Key)
    ensures forall x :: x in s ==> x < key
    decreases |s|
  {
    if s == {} {
      key := 0;
    } else {
      var x :| x in s;
      var rest := KeyBeyond(s - {x});
      key := if rest > x then rest else x + 1;
      assert forall y :: y in s ==> y == x || y in s - {x};
    }
  }

  /** A key beyond all others changes nothing of a full plan but that more is available. */
  lemma KeyAtTheEnd(store: set<Key>, inventory: set<Key>, key: Key)
    requires |store - inventory| >= MAX_EVENTS_PER_BATCH && forall x :: x in store + inventory ==> x < key
    ensures var (before, after) := (Plan(store, inventory), Plan(store + {key}, inventory));
            after.requested == before.requested && after.events == before.events && after.more
  {
    var more := store + {key};
    assert key !in store && key !in inventory;
    assert inventory - more == inventory - store;
    assert more - inventory == (store - inventory) + {key};
    TakeIsPrefix(store - inventory, MAX_EVENTS_PER_BATCH);
    TakeUnique(Take(store - inventory, MAX_EVENTS_PER_BATCH), more - inventory, MAX_EVENTS_PER_BATCH);
  }

  /** Not blocked, the Diff can be planned again: at once, or after one more event of the right kind. */
  lemma UnblockedRecovers(planned: set<Key>, store: set<Key>, inventory: set<Key>) returns (append: Option<Key>)
    requires planned <= store && !Blocked(store, inventory, Plan(planned, inventory))
    ensures Plan(if append.Some? then store + {append.value} else store, inventory) == Plan(planned, inventory)
  {
    hide Plan;
    append := None;
    if Plan(store, inventory) != Plan(planned, inventory) {
      var key := KeyBeyond(store + inventory);
      append := Some(key);
      KeyAtTheEnd(store, inventory, key);
    }
  }

  /** Exactly: no store that has grown from this one is planned to the journaled Diff. */
  lemma BlockedExactly(planned: set<Key>, store: set<Key>, inventory: set<Key>)
    requires planned <= store
    ensures Blocked(store, inventory, Plan(planned, inventory)) <==>
            forall more :: store <= more ==> Plan(more, inventory) != Plan(planned, inventory)
  {
    if Blocked(store, inventory, Plan(planned, inventory)) {
      forall more | store <= more
        ensures Plan(more, inventory) != Plan(planned, inventory)
      {
        BlockedStays(planned, store, more, inventory);
      }
    } else {
      var append := UnblockedRecovers(planned, store, inventory);
      assert store <= if append.Some? then store + {append.value} else store;
    }
  }

  // ----- the stall, over runs -----

  /** The client still asks, the Diff is journaled and not on its way, and it cannot be planned again. */
  predicate Stalled(s: System) {
    && s.client.action.TransmitInventory? && JournaledDiff(s.server.action).Some?
    && s.response.None? && s.inHand.None?
    && Blocked(s.server.store, s.client.action.inventory, JournaledDiff(s.server.action).value)
  }

  predicate SameActions(s: System, s': System) {
    && s'.client.round == s.client.round && s'.client.action == s.client.action
    && s'.server.round == s.server.round && s'.server.action == s.server.action
  }

  lemma StalledMeans(s: System)
    requires Invariant(s) && Stalled(s)
    ensures JournaledDiff(s.server.action) == Some(Plan(s.planned, s.client.action.inventory))
            && s.planned <= s.server.store
    ensures s.request.Some? ==> s.request.value == Inventory(s.client.action.inventory)
    ensures Plan(s.server.store, s.client.action.inventory) != JournaledDiff(s.server.action).value
  {
    assert Plan(s.server.store, s.client.action.inventory) != JournaledDiff(s.server.action).value;
    hide Plan, Blocked;
  }

  lemma StalledRefuses(s: System)
    requires Invariant(s) && Stalled(s) && s.request.Some?
    ensures Respond(s.server, s.request.value) == Refuse
  {
    StalledMeans(s);
    hide Invariant, Plan, Blocked;
  }

  lemma StalledGrows(s: System, key: Key)
    requires Invariant(s) && Stalled(s)
    ensures Blocked(s.server.store + {key}, s.client.action.inventory, JournaledDiff(s.server.action).value)
  {
    StalledMeans(s);
    hide Invariant, Plan, Blocked;
    BlockedStays(s.planned, s.server.store, s.server.store + {key}, s.client.action.inventory);
  }

  lemma StalledStep(s: System, e: Event, s': System)
    requires Invariant(s) && Stalled(s) && Next(s, e) == Some(s')
    ensures Stalled(s') && SameActions(s, s')
  {
    hide Invariant, Plan, Blocked, Accept, Respond;
    if e.Serve? {
      StalledRefuses(s);
    } else if e.ServerAppend? {
      StalledGrows(s, e.key);
    }
  }

  /**
   A stalled session never moves again: every retry is refused, whatever is appended and however often it
   reconnects.
   */
  lemma {:induction false} StalledForever(trace: seq<System>, i: nat, j: nat)
    requires Run(trace) && i <= j < |trace| && Stalled(trace[i])
    ensures Stalled(trace[j]) && SameActions(trace[i], trace[j])
    decreases j - i
  {
    hide Stalled, Next, Invariant;
    if i < j {
      StalledForever(trace, i, j - 1);
      RunKeepsInvariant(trace, j - 1);
      assert Steps(trace[j - 1], trace[j - 1 + 1]);
      var e :| Next(trace[j - 1], e) == Some(trace[j]);
      StalledStep(trace[j - 1], e, trace[j]);
    }
  }

  /** The Diff is journaled, lost, and nothing is under way. */
  predicate DiffLost(s: System) {
    && s.client.action.TransmitInventory? && JournaledDiff(s.server.action).Some?
    && s.request.None? && s.response.None? && s.inHand.None? && !s.waiting
  }

  function Appended(s: System, append: Option<Key>): System {
    if append.Some? then s.(server := s.server.(store := s.server.store + {append.value})) else s
  }

  predicate Retryable(s: System) {
    DiffLost(s) && Plan(s.server.store, s.client.action.inventory) == JournaledDiff(s.server.action).value
  }

  /** A retry whose plan is unchanged delivers the Diff. */
  lemma RetryDelivers(trace: seq<System>) returns (longer: seq<System>)
    requires Run(trace) && Retryable(trace[|trace| - 1])
    ensures Run(longer) && trace <= longer && longer[|longer| - 1].client.action.TransmitEventBatch?
  {
    RunKeepsInvariant(trace, |trace| - 1);
    var s := trace[|trace| - 1];
    PlanWithin(s.planned, s.advertised);
    assert s.server.allowed && s.client.action.inventory == s.advertised <= s.client.store;
    assert JournaledDiff(s.server.action) == Some(Plan(s.planned, s.advertised));
    hide Plan, Run, Invariant;
    longer := Extend(trace, Send);
    longer := Extend(longer, Serve);
    longer := Extend(longer, Write);
    longer := Extend(longer, Receive);
  }

  lemma LostDiffFacts(s: System)
    requires Invariant(s) && DiffLost(s)
    ensures JournaledDiff(s.server.action) == Some(Plan(s.planned, s.advertised))
            && s.client.action.inventory == s.advertised
    ensures s.planned <= s.server.store
  {
    hide Plan;
  }

  lemma Unstalled(s: System) returns (append: Option<Key>)
    requires Invariant(s) && DiffLost(s) && !Stalled(s)
    ensures Retryable(Appended(s, append))
  {
    hide Invariant, Plan, Blocked;
    LostDiffFacts(s);
    append := UnblockedRecovers(s.planned, s.server.store, s.advertised);
  }

  lemma AppendRun(trace: seq<System>, append: Option<Key>) returns (longer: seq<System>)
    requires Run(trace)
    ensures Run(longer) && trace <= longer && longer[|longer| - 1] == Appended(trace[|trace| - 1], append)
  {
    longer := trace;
    if append.Some? {
      longer := Extend(trace, ServerAppend(append.value));
    }
  }

  /** A lost Diff that is not blocked can still be delivered, so being stalled is exactly being blocked. */
  lemma UnstalledDelivers(trace: seq<System>) returns (longer: seq<System>)
    requires Run(trace) && DiffLost(trace[|trace| - 1]) && !Stalled(trace[|trace| - 1])
    ensures Run(longer) && trace <= longer && longer[|longer| - 1].client.action.TransmitEventBatch?
  {
    RunKeepsInvariant(trace, |trace| - 1);
    hide Run, Invariant, DiffLost, Stalled, Retryable, Appended;
    var append := Unstalled(trace[|trace| - 1]);
    var grown := AppendRun(trace, append);
    longer := RetryDelivers(grown);
  }

  lemma LoseTheDiff() returns (trace: seq<System>)
    ensures Run(trace)
    ensures trace[|trace| - 1] ==
            System(Client(0, TransmitInventory({}), {}), Responder(0, TransmitDiff(Diff({}, {}, false)), {}, true),
                   None, false, None, false, None, false, {}, {})
  {
    assert Plan({}, {}) == Diff({}, {}, false);
    hide Plan;
    trace := [Start({}, {}, true)];
    trace := Extend(trace, Prepare);
    trace := Extend(trace, Send);
    hide Run;
    trace := Extend(trace, Serve);
    trace := Extend(trace, ServerDrop);
    trace := Extend(trace, ClientDrop);
  }

  /** Two empty stores, a lost Diff, and one event of the responder's own: the session can never go on. */
  lemma StallReachable() returns (trace: seq<System>)
    ensures Run(trace) && Stalled(trace[|trace| - 1])
  {
    TakeAll({5}, MAX_EVENTS_PER_BATCH);
    assert {5} - {} == {5};
    assert Plan({5}, {}).events == {5};
    hide Plan, Take, Run;
    trace := LoseTheDiff();
    trace := Extend(trace, ServerAppend(5));
    assert {} + {5} == {5};
  }
}
