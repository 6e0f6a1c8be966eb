/**
 Canonical sync v2 as a two-party durable protocol: a client and a responder, each restoring its
 durable action, exchanging one frame and advancing its journal, with crashes, disconnects and new
 local events possible between any two lines.

 Durable records survive; the frame in a stream, the frame in the responder's hands and the fact that
 the client is waiting do not. Event keys stand for the signed event carriers. `advertised` and
 `planned` are history: the inventory the client last journaled, and what the responder held when it
 journaled its Diff.
 */
module Sync {
  import opened Basics

  type Key = nat

  const MAX_EVENTS_PER_BATCH: nat := 64

  datatype Diff = Diff(requested: set<Key>, events: set<Key>, more: bool)

  datatype ClientFrame = Inventory(keys: set<Key>) | Events(keys: set<Key>)

  datatype ServerFrame = DiffFrame(diff: Diff) | CompleteFrame(stored: set<Key>, more: bool) | RejectedFrame

  datatype ClientAction =
    | PrepareInventory
    | TransmitInventory(inventory: set<Key>)
    | TransmitEventBatch(batch: set<Key>, more: bool)
    | RetransmitEventBatch(batch: set<Key>, more: bool)
    | Finished

  datatype ResponderAction =
    | AwaitInventory
    | TransmitDiff(diff: Diff)
    | RetransmitDiff(diff: Diff)
    | TransmitComplete(stored: set<Key>, more: bool)
    | Served
    | TransmitRejection

  datatype Client = Client(round: nat, action: ClientAction, store: set<Key>)

  datatype Responder = Responder(round: nat, action: ResponderAction, store: set<Key>, allowed: bool)

  // ----- planning a round -----

  predicate IsLeast(least: Key, s: set<Key>) {
    least in s && forall x :: x in s ==> least <= x
  }

  lemma {:induction false} LeastExists(s: set<Key>) returns (least: Key)
    requires s != {}
    ensures IsLeast(least, s)
    decreases |s|
  {
    var first :| first in s;
    var rest := s - {first};
    least := first;
    assert s == rest + {first};
    if rest != {} {
      var other := LeastExists(rest);
      if other < first {
        least := other;
      }
    }
  }

  /** The first `n` keys in key order: an ordered set truncated. */
  function Take(s: set<Key>, n: nat): set<Key>
    decreases n
  {
    if n == 0 || s == {} then {}
    else
      var least := Least(s);
      {least} + Take(s - {least}, n - 1)
  }

  function Least(s: set<Key>): (least: Key)
    requires s != {}
    ensures IsLeast(least, s)
  {
    assert exists least :: IsLeast(least, s) by { var _ := LeastExists(s); }
    var least :| IsLeast(least, s);
    least
  }

  lemma {:induction false} TakeIsPrefix(s: set<Key>, n: nat)
    ensures Take(s, n) <= s
    ensures |Take(s, n)| == if |s| <= n then |s| else n
    ensures forall x, y :: x in Take(s, n) && y in s && y !in Take(s, n) ==> x < y
    decreases n
  {
    if n > 0 && s != {} {
      var least := Least(s);
      TakeIsPrefix(s - {least}, n - 1);
      assert |s - {least}| == |s| - 1;
    }
  }

  lemma TakeAll(s: set<Key>, n: nat)
    requires |s| <= n
    ensures Take(s, n) == s
  {
    TakeIsPrefix(s, n);
    SameSizeSubset(Take(s, n), s);
  }

  /** `plan_sync`: what to ask for, what to send, and whether either was cut off. */
  function Plan(local: set<Key>, remote: set<Key>): Diff {
    Diff(Take(remote - local, MAX_EVENTS_PER_BATCH), Take(local - remote, MAX_EVENTS_PER_BATCH),
         |remote - local| > MAX_EVENTS_PER_BATCH || |local - remote| > MAX_EVENTS_PER_BATCH)
  }

  // ----- the two machines -----

  function ClientFrameOf(a: ClientAction): Option<ClientFrame> {
    match a
    case TransmitInventory(inventory) => Some(Inventory(inventory))
    case TransmitEventBatch(batch, _) => Some(Events(batch))
    case RetransmitEventBatch(batch, _) => Some(Events(batch))
    case _ => None
  }

  /**
   A response read by the client: `accept_durable_diff`, `accept_durable_complete`; anything else ends
   the connection.
   */
  function Accept(c: Client, f: ServerFrame): Option<Client> {
    match (c.action, f)
    case (TransmitInventory(inventory), DiffFrame(diff)) =>
      if diff.requested <= inventory && diff.requested <= c.store then
        Some(c.(store := c.store + diff.events, action := TransmitEventBatch(diff.requested, diff.more)))
      else None
    case (RetransmitEventBatch(batch, more), CompleteFrame(stored, complete)) =>
      if stored == batch && complete == more then
        Some(if more then c.(round := c.round + 1, action := PrepareInventory) else c.(action := Finished))
      else None
    case _ => None
  }

  /**
   What the responder does with a frame: nothing (it does not serve), give up, mark and go on, or journal
   and answer.
   */
  datatype Reply = Unserved | Refuse | Unexpected | Marked(responder: Responder)
      | Answer(responder: Responder, frame: ServerFrame)

  function Respond(s: Responder, f: ClientFrame): Reply {
    match (s.action, f)
    case (Served, _) => Unserved
    case (AwaitInventory, Inventory(keys)) =>
      if s.allowed then
        Answer(s.(action := TransmitDiff(Plan(s.store, keys))), DiffFrame(Plan(s.store, keys)))
      else
        Answer(s.(action := TransmitRejection), RejectedFrame)
    case (TransmitDiff(diff), Inventory(keys)) =>
      if s.allowed && Plan(s.store, keys) == diff then Answer(s, DiffFrame(diff)) else Refuse
    case (RetransmitDiff(diff), Inventory(keys)) =>
      if s.allowed && Plan(s.store, keys) == diff then Answer(s, DiffFrame(diff)) else Refuse
    case (TransmitDiff(diff), Events(keys)) => Marked(s.(action := RetransmitDiff(diff)))
    case (RetransmitDiff(diff), Events(keys)) =>
      if keys == diff.requested then
        Answer(s.(store := s.store + keys, action := TransmitComplete(keys, diff.more)), CompleteFrame(keys, diff.more))
      else Refuse
    case (TransmitComplete(stored, more), Events(_)) => Answer(s, CompleteFrame(stored, more))
    case _ => Unexpected
  }

  /** The journal entry after a confirmed write. */
  function MarkSent(s: Responder): Responder {
    match s.action
    case TransmitDiff(diff) => s.(action := RetransmitDiff(diff))
    case TransmitComplete(_, more) =>
      if more then s.(round := s.round + 1, action := AwaitInventory) else s.(action := Served)
    case _ => s
  }

  /**
   `request` and `response` are what sits in the stream; `live` says the client still holds its end.
   `inHand` is the journaled frame the responder is writing, `written` that delivery was confirmed.
   */
  datatype System = System(
    client: Client, server: Responder,
    request: Option<ClientFrame>, live: bool, response: Option<ServerFrame>, waiting: bool,
    inHand: Option<ServerFrame>, written: bool,
    advertised: set<Key>, planned: set<Key>)

  datatype Event =
    | Prepare | Send | MarkBatchSent | Receive | ClientDrop | ClientAppend(key: Key)
    | Serve | Write | Mark | ServerDrop | ServerAppend(key: Key)

  function AfterServing(s: System, f: ClientFrame): System {
    match Respond(s.server, f)
    case Answer(server, frame) =>
      s.(server := server, request := None, inHand := Some(frame), written := false,
         planned := if s.server.action.AwaitInventory? then s.server.store else s.planned)
    case Marked(server) => s.(server := server)
    case _ => s.(request := None, live := false)
  }

  /** One line of either side; `None` when the line cannot run. */
  function Next(s: System, e: Event): Option<System> {
    match e
    case Prepare =>
      if s.client.action.PrepareInventory? then
        Some(s.(client := s.client.(action := TransmitInventory(s.client.store)), advertised := s.client.store))
      else None
    case Send =>
      if ClientFrameOf(s.client.action).Some? && !s.waiting && s.request.None? && s.inHand.None? then
        Some(s.(request := ClientFrameOf(s.client.action), live := true, waiting := true))
      else None
    case MarkBatchSent =>
      if s.waiting && s.client.action.TransmitEventBatch? then
        Some(s.(client := s.client.(action := RetransmitEventBatch(s.client.action.batch, s.client.action.more))))
      else None
    case Receive =>
      if s.waiting && s.response.Some? && !s.client.action.TransmitEventBatch? then
        var accepted := Accept(s.client, s.response.value);
        Some(s.(client := if accepted.Some? then accepted.value
                else s.client, response := None, waiting := false, live := false))
      else None
    case ClientDrop => Some(s.(waiting := false, live := false, response := None))
    case ClientAppend(key) => Some(s.(client := s.client.(store := s.client.store + {key})))
    case Serve =>
      if s.request.Some? && s.inHand.None? && s.server.action != Served then Some(AfterServing(s, s.request.value))
          else None
    case Write =>
      if s.inHand.Some? && !s.written then
        Some(if s.live then s.(response := s.inHand, written := true) else s.(inHand := None))
      else None
    case Mark =>
      if s.inHand.Some? && s.written then Some(s.(server := MarkSent(s.server), inHand := None, written := false))
          else None
    case ServerDrop => Some(s.(request := None, live := false, inHand := None, written := false))
    case ServerAppend(key) => Some(s.(server := s.server.(store := s.server.store + {key})))
  }

  function Start(client: set<Key>, server: set<Key>, allowed: bool): System {
    System(Client(0, PrepareInventory, client), Responder(0, AwaitInventory, server, allowed),
           None, false, None, false, None, false, {}, {})
  }

  ghost predicate Steps(s: System, s': System) {
    exists e :: Next(s, e) == Some(s')
  }

  ghost predicate Run(trace: seq<System>) {
    && trace != []
    && (exists client, server, allowed :: trace[0] == Start(client, server, allowed))
    && forall i :: 0 <= i < |trace| - 1 ==> Steps(trace[i], trace[i + 1])
  }

  // ----- the invariant -----

  function JournaledDiff(a: ResponderAction): Option<Diff> {
    match a
    case TransmitDiff(diff) => Some(diff)
    case RetransmitDiff(diff) => Some(diff)
    case _ => None
  }

  predicate Batching(a: ClientAction) {
    a.TransmitEventBatch? || a.RetransmitEventBatch?
  }

  /** Every reachable pair of durable actions. */
  ghost predicate Pair(s: System) {
    var (c, r) := (s.client, s.server);
    match c.action
    case PrepareInventory =>
      || (r.round == c.round && r.action.AwaitInventory?)
      || (r.round + 1 == c.round && r.action.TransmitComplete? && r.action.more)
    case TransmitInventory(_) =>
      || (r.round == c.round && (|| r.action.AwaitInventory? || r.action.TransmitRejection?
                                 || JournaledDiff(r.action) == Some(Plan(s.planned, s.advertised))))
      || (r.round + 1 == c.round && r.action.TransmitComplete? && r.action.more)
    case TransmitEventBatch(batch, more) => BatchPair(c, r, Plan(s.planned, s.advertised))
    case RetransmitEventBatch(batch, more) => BatchPair(c, r, Plan(s.planned, s.advertised))
    case Finished => r.round == c.round && (r.action == Served || (r.action.TransmitComplete? && !r.action.more))
  }

  predicate BatchPair(c: Client, r: Responder, d: Diff)
    requires Batching(c.action)
  {
    && c.action.batch == d.requested && c.action.more == d.more
    && (|| (r.round == c.round && (JournaledDiff(r.action) == Some(d)
                                   || r.action == TransmitComplete(d.requested, d.more)))
        || HandedOver(c, r, d))
  }

  /** The responder has recorded this round's Complete and moved on. */
  predicate HandedOver(c: Client, r: Responder, d: Diff) {
    if d.more then r.round == c.round + 1 && r.action.AwaitInventory? else r.round == c.round && r.action == Served
  }

  /** Frames in flight are the journaled ones. */
  ghost predicate Frames(s: System) {
    && (s.request.Some? ==> s.request == ClientFrameOf(s.client.action) && s.inHand.None? && s.response.None?)
    && (s.response.Some? ==> s.waiting && FrameMatches(s, s.response.value))
    && (s.inHand.Some? ==> InHandMatches(s, s.inHand.value))
    && (s.inHand.Some? && s.response.Some? ==> s.written)
    && (s.live ==> s.waiting)
  }

  ghost predicate FrameMatches(s: System, f: ServerFrame) {
    match f
    case DiffFrame(diff) =>
      s.client.action.TransmitInventory? && s.server.round == s.client.round
          && JournaledDiff(s.server.action) == Some(diff)
    case CompleteFrame(stored, more) =>
      && Batching(s.client.action)
      && Plan(s.planned, s.advertised).requested == stored && Plan(s.planned, s.advertised).more == more
      && JournaledDiff(s.server.action).None?
    case RejectedFrame => s.client.action.TransmitInventory? && s.server.action.TransmitRejection?
  }

  ghost predicate InHandMatches(s: System, f: ServerFrame) {
    match f
    case DiffFrame(diff) => JournaledDiff(s.server.action) == Some(diff)
        && (!s.written ==> s.client.action.TransmitInventory?)
    case CompleteFrame(stored, more) =>
      s.server.action == TransmitComplete(stored, more) && (!s.written ==> Batching(s.client.action))
    case RejectedFrame => s.server.action.TransmitRejection? && s.client.action.TransmitInventory?
  }

  /** What each side already holds, round by round. */
  ghost predicate Known(s: System) {
    var d := Plan(s.planned, s.advertised);
    && (s.client.action.TransmitInventory? ==>
        s.client.action.inventory == s.advertised && s.advertised <= s.client.store)
    && (Batching(s.client.action) || s.client.action == Finished ==> s.advertised + d.events <= s.client.store)
    && (JournaledDiff(s.server.action).Some? ==> s.planned <= s.server.store)
    && ((Batching(s.client.action) && JournaledDiff(s.server.action).None?) || s.client.action == Finished ==>
          s.planned + d.requested <= s.server.store)
    && (s.client.action == Finished ==> !d.more)
    && (s.server.action.TransmitComplete? ==> s.server.action.stored <= s.server.store)
    && (s.server.action.TransmitRejection? ==> !s.server.allowed)
    && (JournaledDiff(s.server.action).Some? ==> s.server.allowed)
  }

  ghost predicate Invariant(s: System) {
    Pair(s) && Frames(s) && Known(s)
  }

  lemma PlanWithin(local: set<Key>, remote: set<Key>)
    ensures Plan(local, remote).requested <= remote && Plan(local, remote).events <= local
  {
    TakeIsPrefix(remote - local, MAX_EVENTS_PER_BATCH);
    TakeIsPrefix(local - remote, MAX_EVENTS_PER_BATCH);
  }

  lemma ClientStep(s: System, e: Event, s': System)
    requires Invariant(s) && Next(s, e) == Some(s')
    requires e.Prepare? || e.Send? || e.MarkBatchSent? || e.ClientDrop? || e.ClientAppend?
    ensures Invariant(s')
  {
    hide Plan, Respond, Accept;
  }

  lemma ReceiveStep(s: System, s': System)
    requires Invariant(s) && Next(s, Receive) == Some(s')
    ensures Invariant(s')
  {
    PlanWithin(s.planned, s.advertised);
    hide Plan, Respond;
  }

  lemma ServeInventoryStep(s: System, s': System)
    requires Invariant(s) && Next(s, Serve) == Some(s') && s.request.value.Inventory?
    ensures Invariant(s')
  {
    hide Plan, Accept;
  }

  lemma ServeEventsStep(s: System, s': System)
    requires Invariant(s) && Next(s, Serve) == Some(s') && s.request.value.Events?
    ensures Invariant(s')
  {
    hide Plan, Accept;
  }

  lemma ServerStep(s: System, e: Event, s': System)
    requires Invariant(s) && Next(s, e) == Some(s')
    requires e.Write? || e.Mark? || e.ServerDrop? || e.ServerAppend?
    ensures Invariant(s')
  {
    hide Plan, Respond, Accept;
  }

  lemma StepKeepsInvariant(s: System, e: Event, s': System)
    requires Invariant(s) && Next(s, e) == Some(s')
    ensures Invariant(s')
  {
    assert e == Serve ==> s.request.Some?;
    hide Invariant, Next;
    match e
    case Receive => ReceiveStep(s, s');
    case Serve => if s.request.value.Inventory? { ServeInventoryStep(s, s'); } else { ServeEventsStep(s, s'); }
    case Write => ServerStep(s, e, s');
    case Mark => ServerStep(s, e, s');
    case ServerDrop => ServerStep(s, e, s');
    case ServerAppend(_) => ServerStep(s, e, s');
    case _ => ClientStep(s, e, s');
  }

  /** Every reachable pair of durable actions, and every frame in flight, is one the invariant lists. */
  lemma {:induction false} RunKeepsInvariant(trace: seq<System>, k: nat)
    requires Run(trace) && k < |trace|
    ensures Invariant(trace[k])
    decreases k
  {
    hide Plan;
    if k > 0 {
      hide Invariant, Next;
      RunKeepsInvariant(trace, k - 1);
      assert Steps(trace[k - 1], trace[k - 1 + 1]);
      var e :| Next(trace[k - 1], e) == Some(trace[k]);
      StepKeepsInvariant(trace[k - 1], e, trace[k]);
    }
  }

  // ----- the Complete hand-off -----

  /**
   The responder meets a frame it did not expect exactly when one side has recorded the round's
   Complete and the other has not, or when it has already turned the requester away.
   */
  lemma UnexpectedExactly(trace: seq<System>, k: nat)
    requires Run(trace) && k < |trace| && trace[k].request.Some?
    ensures Respond(trace[k].server, trace[k].request.value).Unexpected? <==>
            (trace[k].server.round != trace[k].client.round || trace[k].server.action.TransmitRejection?)
    ensures trace[k].server.action.TransmitRejection? ==> !trace[k].server.allowed
  {
    RunKeepsInvariant(trace, k);
    hide Run, Invariant, Respond;
    if trace[k].request.value.Inventory? {
      UnexpectedInventory(trace[k]);
    } else {
      UnexpectedEvents(trace[k]);
    }
  }

  lemma UnexpectedInventory(s: System)
    requires Invariant(s) && s.request.Some? && s.request.value.Inventory?
    ensures Respond(s.server, s.request.value).Unexpected? <==>
            (s.server.round != s.client.round || s.server.action.TransmitRejection?)
    ensures s.server.action.TransmitRejection? ==> !s.server.allowed
  {
    hide Plan;
  }

  lemma UnexpectedEvents(s: System)
    requires Invariant(s) && s.request.Some? && s.request.value.Events?
    ensures Respond(s.server, s.request.value).Unexpected? <==>
            (s.server.round != s.client.round || s.server.action.TransmitRejection?)
    ensures s.server.action.TransmitRejection? ==> !s.server.allowed
  {
    hide Plan;
  }

  /** One side has recorded the Complete of the round the other is still in. */
  predicate Apart(c: Client, r: Responder) {
    || c.round != r.round
    || (Batching(c.action) && r.action == Served)
    || (c.action == Finished && r.action.TransmitComplete?)
  }

  predicate HandOff(s: System) {
    Apart(s.client, s.server)
  }

  /** ... and nothing on its way will tell the other. */
  predicate Lost(s: System) {
    HandOff(s) && s.response.None? && s.inHand.None?
  }

  /** Neither side can ever move again. */
  predicate Frozen(s: System, s': System) {
    && s'.server.round == s.server.round && s'.server.action == s.server.action
    && s'.client.round == s.client.round
    && (Batching(s.client.action) ==> Batching(s'.client.action))
    && (s.client.action == Finished <==> s'.client.action == Finished)
  }

  lemma LostStep(s: System, e: Event, s': System)
    requires Invariant(s) && Lost(s) && Next(s, e) == Some(s')
    ensures Lost(s') && Frozen(s, s')
  {
    hide Plan;
  }

  lemma FrozenCompose(s: System, s': System, s'': System)
    ensures Frozen(s, s') && Frozen(s', s'') ==> Frozen(s, s'')
    ensures Frozen(s, s)
  {
  }

  /** A lost hand-off is permanent: no retry, reconnect or restart moves either side. */
  lemma {:induction false} LostForever(trace: seq<System>, i: nat, j: nat)
    requires Run(trace) && i <= j < |trace| && Lost(trace[i])
    ensures Lost(trace[j]) && Frozen(trace[i], trace[j])
    decreases j - i
  {
    hide Lost, Next, Invariant, Frozen;
    FrozenCompose(trace[i], trace[i], trace[i]);
    if i < j {
      LostForever(trace, i, j - 1);
      RunKeepsInvariant(trace, j - 1);
      assert Steps(trace[j - 1], trace[j - 1 + 1]);
      var e :| Next(trace[j - 1], e) == Some(trace[j]);
      LostStep(trace[j - 1], e, trace[j]);
      FrozenCompose(trace[i], trace[j - 1], trace[j]);
    }
  }

  /**
   A hand-off that is not lost can still be settled by what is on its way: the client's read (after its
   own journal entry for the batch, if that is still missing) or the responder's journal entry.
   */
  lemma HandOffSettles(trace: seq<System>) returns (longer: seq<System>)
    requires Run(trace) && HandOff(trace[|trace| - 1]) && !Lost(trace[|trace| - 1])
    ensures Run(longer) && trace <= longer && !HandOff(longer[|longer| - 1])
  {
    longer := trace;
    if trace[|trace| - 1].client.action.TransmitEventBatch? {
      RunKeepsInvariant(trace, |trace| - 1);
      BatchStillToMark(trace[|trace| - 1]);
      longer := Extend(trace, MarkBatchSent);
    }
    var s := longer[|longer| - 1];
    RunKeepsInvariant(longer, |longer| - 1);
    hide Run, Invariant;
    var e := if s.response.Some? then Receive else Mark;
    var settled := OneStepSettles(s, e);
    longer := Extend(longer, e);
  }

  /**
   A client that has yet to mark its batch sent, while the responder is past it, is waiting with the
   Complete in its stream.
   */
  lemma BatchStillToMark(s: System)
    requires Invariant(s) && HandOff(s) && !Lost(s) && s.client.action.TransmitEventBatch?
    ensures s.waiting && s.response.Some?
  {
    hide Plan;
  }

  lemma OneStepSettles(s: System, e: Event) returns (s': System)
    requires Invariant(s) && HandOff(s) && !Lost(s) && !s.client.action.TransmitEventBatch?
    requires e == if s.response.Some? then Receive else Mark
    ensures Next(s, e) == Some(s') && !HandOff(s')
  {
    hide Plan, Respond;
    s' := Next(s, e).value;
  }

  // ----- the Diff and the Complete -----

  /** How far the responder has come. */
  function Rank(r: Responder): nat {
    4 * r.round + match r.action
                  case AwaitInventory => 0
                  case TransmitDiff(_) => 1
                  case RetransmitDiff(_) => 1
                  case TransmitComplete(_, _) => 2
                  case Served => 3
                  case TransmitRejection => 3
  }

  lemma RankStep(s: System, e: Event, s': System)
    requires Next(s, e) == Some(s')
    ensures Rank(s.server) <= Rank(s'.server)
    ensures Rank(s.server) == Rank(s'.server) ==> JournaledDiff(s.server.action) == JournaledDiff(s'.server.action)
  {
    hide Plan;
  }

  lemma {:induction false} RankRun(trace: seq<System>, i: nat, j: nat)
    requires Run(trace) && i <= j < |trace|
    ensures Rank(trace[i].server) <= Rank(trace[j].server)
    ensures Rank(trace[i].server) == Rank(trace[j].server) ==>
              JournaledDiff(trace[i].server.action) == JournaledDiff(trace[j].server.action)
    decreases j - i
  {
    hide Next, Rank;
    if i < j {
      RankRun(trace, i, j - 1);
      assert Steps(trace[j - 1], trace[j - 1 + 1]);
      var e :| Next(trace[j - 1], e) == Some(trace[j]);
      RankStep(trace[j - 1], e, trace[j]);
    }
  }

  /** A Diff frame on its way, in a stream or in the responder's hands. */
  predicate Sends(s: System, d: Diff) {
    s.response == Some(DiffFrame(d)) || s.inHand == Some(DiffFrame(d))
  }

  /**
   Within one round the Diff is write-once: every Diff ever sent is the one first journaled, through all
   retries and crashes.
   */
  lemma DiffWriteOnce(trace: seq<System>, i: nat, j: nat, first: Diff, d: Diff)
    requires Run(trace) && i <= j < |trace|
    requires JournaledDiff(trace[i].server.action) == Some(first)
    requires Sends(trace[j], d) && trace[j].server.round == trace[i].server.round
    ensures d == first
  {
    RunKeepsInvariant(trace, j);
    RankRun(trace, i, j);
    hide Plan;
  }

  /** A retried inventory is answered with the journaled Diff exactly when the responder would still plan it. */
  lemma RetryAnswered(trace: seq<System>, k: nat)
    requires Run(trace) && k < |trace| && trace[k].request.Some? && trace[k].request.value.Inventory?
    requires JournaledDiff(trace[k].server.action).Some?
    ensures var d := Plan(trace[k].planned, trace[k].advertised);
            var r := Respond(trace[k].server, trace[k].request.value);
            && (r == Answer(trace[k].server, DiffFrame(d)) <==>
                trace[k].server.allowed && Plan(trace[k].server.store, trace[k].advertised) == d)
            && (r == Answer(trace[k].server, DiffFrame(d)) || r == Refuse)
  {
    RunKeepsInvariant(trace, k);
    hide Plan;
  }

  /** Complete is never on its way before that round's event batch is committed. */
  lemma CompleteAfterCommit(trace: seq<System>, k: nat, stored: set<Key>, more: bool)
    requires Run(trace) && k < |trace|
    requires trace[k].response == Some(CompleteFrame(stored, more))
             || trace[k].inHand == Some(CompleteFrame(stored, more))
    ensures stored <= trace[k].server.store
  {
    RunKeepsInvariant(trace, k);
    hide Plan;
  }

  /**
   When the client finishes, each side holds everything either of them held when it journaled its
   inventory: nothing was cut off and nothing was lost on the way.
   */
  lemma Converged(trace: seq<System>, k: nat)
    requires Run(trace) && k < |trace| && trace[k].client.action == Finished
    ensures var s := trace[k];
            s.advertised + s.planned <= s.client.store && s.advertised + s.planned <= s.server.store
  {
    RunKeepsInvariant(trace, k);
    var s := trace[k];
    TakeAll(s.advertised - s.planned, MAX_EVENTS_PER_BATCH);
    TakeAll(s.planned - s.advertised, MAX_EVENTS_PER_BATCH);
  }

  /** What both sides held at the start is in every inventory and every plan since. */
  ghost predicate FromStart(s: System, client: set<Key>, server: set<Key>) {
    && client <= s.client.store && server <= s.server.store
    && (!s.client.action.PrepareInventory? ==> client <= s.advertised)
    && (JournaledDiff(s.server.action).Some? || Batching(s.client.action) || s.client.action == Finished ==>
        server <= s.planned)
  }

  lemma StepFromStart(s: System, e: Event, s': System, client: set<Key>, server: set<Key>)
    requires Invariant(s) && FromStart(s, client, server) && Next(s, e) == Some(s')
    ensures FromStart(s', client, server)
  {
    hide Plan, Known, BatchPair;
  }

  lemma {:induction false} RunFromStart(trace: seq<System>, k: nat)
    requires Run(trace) && k < |trace|
    ensures FromStart(trace[k], trace[0].client.store, trace[0].server.store)
    decreases k
  {
    if k > 0 {
      hide Next, Invariant, FromStart;
      RunFromStart(trace, k - 1);
      RunKeepsInvariant(trace, k - 1);
      assert Steps(trace[k - 1], trace[k - 1 + 1]);
      var e :| Next(trace[k - 1], e) == Some(trace[k]);
      StepFromStart(trace[k - 1], e, trace[k], trace[0].client.store, trace[0].server.store);
    }
  }

  /** ... so in particular everything either of them held before the session. */
  lemma ConvergedFromStart(trace: seq<System>, k: nat)
    requires Run(trace) && k < |trace| && trace[k].client.action == Finished
    ensures var both := trace[0].client.store + trace[0].server.store;
            both <= trace[k].client.store && both <= trace[k].server.store
  {
    hide Run, Plan;
    Converged(trace, k);
    RunFromStart(trace, k);
  }

  // ----- a lost hand-off is reachable -----

  lemma Extend(trace: seq<System>, e: Event) returns (longer: seq<System>)
    requires Run(trace) && Next(trace[|trace| - 1], e).Some?
    ensures Run(longer) && |longer| == |trace| + 1 && trace <= longer
    ensures longer[|trace|] == Next(trace[|trace| - 1], e).value
  {
    longer := trace + [Next(trace[|trace| - 1], e).value];
    hide Next;
    forall i | 0 <= i < |longer| - 1
      ensures Steps(longer[i], longer[i + 1])
    {
      if i < |trace| - 1 {
        assert Steps(trace[i], trace[i + 1]);
      } else {
        assert Next(longer[i], e) == Some(longer[i + 1]);
      }
    }
  }

  lemma EmptyRound() returns (trace: seq<System>)
    ensures Run(trace)
    ensures trace[|trace| - 1] ==
            System(Client(0, TransmitEventBatch({}, false), {}),
                   Responder(0, RetransmitDiff(Diff({}, {}, false)), {}, true),
                   None, false, None, false, None, false, {}, {})
  {
    var d := Diff({}, {}, false);
    assert Plan({}, {}) == d;
    hide Plan;
    trace := [Start({}, {}, true)];
    trace := Extend(trace, Prepare);
    trace := Extend(trace, Send);
    trace := Extend(trace, Serve);
    assert trace[3] == System(Client(0, TransmitInventory({}), {}), Responder(0, TransmitDiff(d), {}, true),
                              None, true, None, true, Some(DiffFrame(d)), false, {}, {});
    trace := Extend(trace, Write);
    trace := Extend(trace, Mark);
    trace := Extend(trace, Receive);
  }

  /** Two empty stores and one client crash after the last Complete was delivered: the client can never finish. */
  lemma LostReachable() returns (trace: seq<System>)
    ensures Run(trace) && Lost(trace[|trace| - 1])
    ensures trace[|trace| - 1].client.action.RetransmitEventBatch?
  {
    hide Plan;
    trace := EmptyRound();
    trace := Extend(trace, Send);
    trace := Extend(trace, MarkBatchSent);
    trace := Extend(trace, Serve);
    assert trace[|trace| - 1] ==
           System(Client(0, RetransmitEventBatch({}, false), {}), Responder(0, TransmitComplete({}, false), {}, true),
                  None, true, None, true, Some(CompleteFrame({}, false)), false, {}, {});
    trace := Extend(trace, Write);
    trace := Extend(trace, Mark);
    trace := Extend(trace, ClientDrop);
  }
}
