/**
 The two loops of the sync driver, each over one connection: what each guarantees against any peer, and
 that the two of them talking to each other are a run of the product machine in `Sync`.
 */
module SyncLoops {
  import opened Basics
  import opened Sync

  // ----- the responder's loop -----

  /** One accepted stream: the new durable state, and the answer if it was written and delivered. */
  function ServeOne(r: Responder, f: ClientFrame, delivered: bool): (Responder, Option<ServerFrame>) {
    var ready := match Respond(r, f) case Marked(marked) => marked case _ => r;
    match Respond(ready, f)
    case Answer(journaled, frame) => if delivered then (MarkSent(journaled), Some(frame)) else (journaled, None)
    case _ => (ready, None)
  }

  /** One connection: streams served in turn until one is not answered, or the session is served. */
  function ServeAll(r: Responder, frames: seq<ClientFrame>, delivered: seq<bool>): (Responder, seq<ServerFrame>)
    requires |delivered| == |frames|
    decreases |frames|
  {
    if frames == [] || r.action == Served then (r, [])
    else
      var (next, answer) := ServeOne(r, frames[0], delivered[0]);
      if answer.None? then (next, [])
      else
        var rest := ServeAll(next, frames[1..], delivered[1..]);
        (rest.0, [answer.value] + rest.1)
  }

  // ----- what the responder's loop guarantees against any frames -----

  /** A journaled Complete is for events the store holds. */
  predicate Committed(r: Responder) {
    r.action.TransmitComplete? ==> r.action.stored <= r.store
  }

  /** How many of the frames end a round that another follows. */
  function Continued(sent: seq<ServerFrame>): nat {
    if sent == [] then 0
    else Continued(sent[1..]) + if sent[0].CompleteFrame? && sent[0].more then 1 else 0
  }

  /** Frame by frame: within a round every Diff is the one already journaled, or the first one sent. */
  predicate OneDiffPerRound(sent: seq<ServerFrame>, journaled: Option<Diff>) {
    if sent == [] then true
    else match sent[0]
         case DiffFrame(d) => (journaled.Some? ==> d == journaled.value) && OneDiffPerRound(sent[1..], Some(d))
         case CompleteFrame(_, _) => OneDiffPerRound(sent[1..], None)
         case RejectedFrame => OneDiffPerRound(sent[1..], journaled)
  }

  /** One stream: the store grows, a Complete is for stored events, and the round moves exactly on a continuing one. */
  lemma ServeOneKeeps(r: Responder, f: ClientFrame, delivered: bool)
    requires Committed(r)
    ensures var (next, answer) := ServeOne(r, f, delivered);
            && r.store <= next.store && Committed(next)
            && (answer.None? ==> next.round == r.round)
            && (answer.Some? ==> next.round == r.round + Continued([answer.value]))
            && (answer.Some? && answer.value.CompleteFrame? ==>
                  answer.value.stored <= next.store && (next.action.AwaitInventory? || next.action == Served))
            && (answer.Some? && answer.value.DiffFrame? ==> JournaledDiff(next.action) == Some(answer.value.diff))
            && (answer.Some? && answer.value.RejectedFrame? ==>
                next.action == TransmitRejection && JournaledDiff(r.action).None?)
            && (JournaledDiff(r.action).Some? && answer.Some? && answer.value.DiffFrame? ==>
                  JournaledDiff(r.action) == Some(answer.value.diff))
  {
    hide Plan;
    assert Continued([]) == 0;
  }

  lemma ContinuedOne(frame: ServerFrame, rest: seq<ServerFrame>)
    ensures Continued([frame] + rest) == Continued([frame]) + Continued(rest)
  {
    assert ([frame] + rest)[1..] == rest && [frame][1..] == [];
  }

  /**
   One connection against any frames whatever: the store only grows, every Complete sent is for events in
   it, the round advances by exactly the continuing Completes sent, and each round has one Diff.
   */
  lemma {:induction false} ServeAllKeeps(r: Responder, frames: seq<ClientFrame>, delivered: seq<bool>)
    requires |delivered| == |frames| && Committed(r)
    ensures var (last, sent) := ServeAll(r, frames, delivered);
            && r.store <= last.store && Committed(last)
            && last.round == r.round + Continued(sent)
            && (forall f :: f in sent && f.CompleteFrame? ==> f.stored <= last.store)
            && OneDiffPerRound(sent, JournaledDiff(r.action))
    decreases |frames|
  {
    hide ServeOne;
    if frames != [] && r.action != Served {
      ServeOneKeeps(r, frames[0], delivered[0]);
      var (next, answer) := ServeOne(r, frames[0], delivered[0]);
      if answer.Some? {
        ServeAllKeeps(next, frames[1..], delivered[1..]);
        var rest := ServeAll(next, frames[1..], delivered[1..]);
        ContinuedOne(answer.value, rest.1);
        assert ([answer.value] + rest.1)[1..] == rest.1;
      }
    }
  }

  /** The same, by position: two Diffs with no continuing Complete before either are equal, and so on round by round. */
  lemma {:induction false} DiffsOfOneRound(sent: seq<ServerFrame>, journaled: Option<Diff>, i: nat, j: nat)
    requires OneDiffPerRound(sent, journaled) && i < j < |sent| && sent[i].DiffFrame? && sent[j].DiffFrame?
    requires forall k :: i < k < j ==> !sent[k].CompleteFrame?
    ensures sent[i] == sent[j]
    decreases |sent|
  {
    if i > 0 {
      DiffsOfOneRound(sent[1..], if sent[0].DiffFrame? then Some(sent[0].diff) else if sent[0].CompleteFrame? then None
                      else journaled,
                      i - 1, j - 1);
    } else {
      FirstDiffIs(sent[1..], sent[0].diff, j - 1);
    }
  }

  lemma {:induction false} FirstDiffIs(sent: seq<ServerFrame>, d: Diff, j: nat)
    requires OneDiffPerRound(sent, Some(d)) && j < |sent| && sent[j].DiffFrame?
    requires forall k :: 0 <= k < j ==> !sent[k].CompleteFrame?
    ensures sent[j].diff == d
    decreases |sent|
  {
    if j > 0 {
      assert !sent[0].CompleteFrame?;
      FirstDiffIs(sent[1..], d, j - 1);
    }
  }

  class ResponderSession {
    var durable: Responder

    constructor (r: Responder)
      ensures durable == r
    {
      durable := r;
    }

    /** Journals the Diff, or the rejection, before it may be written. */
    method AcceptInventory(keys: set<Key>) returns (frame: ServerFrame)
      requires durable.action.AwaitInventory?
      modifies this
      ensures Respond(old(durable), Inventory(keys)) == Answer(durable, frame)
    {
      if durable.allowed {
        var diff := Plan(durable.store, keys);
        durable := durable.(action := TransmitDiff(diff));
        frame := DiffFrame(diff);
      } else {
        durable := durable.(action := TransmitRejection);
        frame := RejectedFrame;
      }
    }

    /** Commits the batch and the Complete together. */
    method AcceptEventBatch(keys: set<Key>) returns (frame: Option<ServerFrame>)
      requires durable.action.RetransmitDiff?
      modifies this
      ensures match Respond(old(durable), Events(keys))
              case Answer(journaled, f) => durable == journaled && frame == Some(f)
              case _ => durable == old(durable) && frame == None
    {
      var diff := durable.action.diff;
      if keys != diff.requested {
        return None;
      }
      durable := durable.(store := durable.store + keys, action := TransmitComplete(keys, diff.more));
      frame := Some(CompleteFrame(keys, diff.more));
    }

    method MarkDiffSent()
      requires durable.action.TransmitDiff?
      modifies this
      ensures durable == MarkSent(old(durable))
    {
      durable := durable.(action := RetransmitDiff(durable.action.diff));
    }

    method MarkCompleteSent()
      requires durable.action.TransmitComplete?
      modifies this
      ensures durable == MarkSent(old(durable))
    {
      if durable.action.more {
        durable := durable.(round := durable.round + 1, action := AwaitInventory);
      } else {
        durable := durable.(action := Served);
      }
    }

    /** The match on durable action and frame; `None` ends the connection. */
    method ServeStream(f: ClientFrame, delivered: bool) returns (answer: Option<ServerFrame>)
      requires durable.action != Served
      modifies this
      ensures (durable, answer) == ServeOne(old(durable), f, delivered)
    {
      hide Plan;
      var frame: ServerFrame;
      if f.Inventory? && durable.action.AwaitInventory? {
        frame := AcceptInventory(f.keys);
      } else if f.Inventory? && (durable.action.TransmitDiff? || durable.action.RetransmitDiff?) {
        if !durable.allowed || Plan(durable.store, f.keys) != durable.action.diff {
          return None;
        }
        frame := DiffFrame(durable.action.diff);
      } else if f.Events? && (durable.action.TransmitDiff? || durable.action.RetransmitDiff?) {
        if durable.action.TransmitDiff? {
          MarkDiffSent();
        }
        var complete := AcceptEventBatch(f.keys);
        if complete.None? {
          return None;
        }
        frame := complete.value;
      } else if f.Events? && durable.action.TransmitComplete? {
        frame := CompleteFrame(durable.action.stored, durable.action.more);
      } else {
        return None;
      }
      if !delivered {
        return None;
      }
      if durable.action.TransmitDiff? {
        MarkDiffSent();
      } else if durable.action.TransmitComplete? {
        MarkCompleteSent();
      }
      answer := Some(frame);
    }

    /** `serve_canonical_sync_v2_connection`; `delivered[i]` says whether delivery of the i-th answer was confirmed. */
    method ServeConnection(frames: seq<ClientFrame>, delivered: seq<bool>) returns (sent: seq<ServerFrame>)
      requires |delivered| == |frames|
      modifies this
      ensures (durable, sent) == ServeAll(old(durable), frames, delivered)
      ensures old(Committed(durable)) ==>
                && old(durable.store) <= durable.store && Committed(durable)
                && durable.round == old(durable.round) + Continued(sent)
                && (forall f :: f in sent && f.CompleteFrame? ==> f.stored <= durable.store)
                && OneDiffPerRound(sent, JournaledDiff(old(durable.action)))
    {
      if Committed(durable) {
        ServeAllKeeps(durable, frames, delivered);
      }
      hide ServeOne, Committed, OneDiffPerRound, Continued;
      sent := [];
      assert frames[0..] == frames && delivered[0..] == delivered;
      var i := 0;
      while i < |frames| && durable.action != Served
        invariant 0 <= i <= |frames|
        invariant ServeAll(old(durable), frames, delivered).0 == ServeAll(durable, frames[i..], delivered[i..]).0
        invariant ServeAll(old(durable), frames, delivered).1 == sent + ServeAll(durable, frames[i..], delivered[i..]).1
        decreases |frames| - i
      {
        assert frames[i..][1..] == frames[i + 1..] && delivered[i..][1..] == delivered[i + 1..];
        var answer := ServeStream(frames[i], delivered[i]);
        if answer.None? {
          assert sent + [] == sent;
          return;
        }
        sent := sent + [answer.value];
        i := i + 1;
      }
      assert sent + [] == sent;
    }
  }

  // ----- the client's loop -----

  /** How one exchange went: the frame was not written, no answer was read, or an answer was. */
  datatype Exchange = Unwritten | Unanswered | Answered(frame: ServerFrame)

  /** One exchange: the batch is marked sent once written, whatever comes back. */
  function Exchanged(c: Client, x: Exchange): (Client, bool) {
    if x.Unwritten? then (c, false)
    else
      var sent := if c.action.TransmitEventBatch?
          then c.(action := RetransmitEventBatch(c.action.batch, c.action.more)) else c;
      if x.Unanswered? || Accept(sent, x.frame).None? then (sent, false) else (Accept(sent, x.frame).value, true)
  }

  /**
   One connection: rounds prepared and frames exchanged until one fails or the client has finished; with
   the frame tried in each exchange.
   */
  function DriveAll(c: Client, exchanges: seq<Exchange>): (Client, seq<ClientFrame>)
    decreases |exchanges|, if c.action.PrepareInventory? then 1 else 0
  {
    if c.action == Finished then (c, [])
    else if c.action.PrepareInventory? then DriveAll(Prepared(c), exchanges)
    else if exchanges == [] then (c, [])
    else
      var (next, ok) := Exchanged(c, exchanges[0]);
      var rest := if ok then DriveAll(next, exchanges[1..]) else (next, []);
      (rest.0, [ClientFrameOf(c.action).value] + rest.1)
  }

  function Prepared(c: Client): Client {
    if c.action.PrepareInventory? then c.(action := TransmitInventory(c.store)) else c
  }

  // ----- what the client's loop guarantees against any answers -----

  /** What a pending frame offers or carries is in the store. */
  predicate Backed(c: Client) {
    match c.action
    case TransmitInventory(inventory) => inventory <= c.store
    case TransmitEventBatch(batch, _) => batch <= c.store
    case RetransmitEventBatch(batch, _) => batch <= c.store
    case _ => true
  }

  lemma ExchangedKeeps(c: Client, x: Exchange)
    requires Backed(c) && ClientFrameOf(c.action).Some?
    ensures var (next, ok) := Exchanged(c, x);
            && c.store <= next.store && c.round <= next.round && Backed(next)
            && ClientFrameOf(c.action).value.keys <= c.store
            && (!ok ==> next.action != Finished && next.store == c.store && next.round == c.round)
            && (next.action == Finished ==>
                  && ClientFrameOf(c.action).value.Events?
                  && x == Answered(CompleteFrame(ClientFrameOf(c.action).value.keys, false)))
  {
  }

  /**
   One connection against any answers whatever: the store and round only grow, every frame tried carries
   what the store holds, and the client finishes only on the final Complete of exactly the batch it sent.
   */
  lemma {:induction false} DriveAllKeeps(c: Client, exchanges: seq<Exchange>)
    requires Backed(c)
    ensures var (last, tried) := DriveAll(c, exchanges);
            && c.store <= last.store && c.round <= last.round && Backed(last)
            && |tried| <= |exchanges| && (forall f :: f in tried ==> f.keys <= last.store)
            && (c.action != Finished && last.action == Finished ==>
                  && tried != [] && tried[|tried| - 1].Events?
                  && exchanges[|tried| - 1] == Answered(CompleteFrame(tried[|tried| - 1].keys, false)))
    decreases |exchanges|, if c.action.PrepareInventory? then 1 else 0
  {
    hide Exchanged;
    if c.action.PrepareInventory? {
      DriveAllKeeps(Prepared(c), exchanges);
    } else if c.action != Finished && exchanges != [] {
      ExchangedKeeps(c, exchanges[0]);
      var (next, ok) := Exchanged(c, exchanges[0]);
      if ok {
        DriveAllKeeps(next, exchanges[1..]);
        var rest := DriveAll(next, exchanges[1..]);
        assert next.action == Finished ==> rest == (next, []);
      }
    }
  }

  class ClientSession {
    var durable: Client

    constructor (c: Client)
      ensures durable == c
    {
      durable := c;
    }

    /** Journals the exact inventory before it may be written. */
    method BeginRound()
      requires durable.action.PrepareInventory?
      modifies this
      ensures durable == old(durable).(action := TransmitInventory(old(durable.store)))
    {
      durable := durable.(action := TransmitInventory(durable.store));
    }

    /** Commits the received events and the exact batch together. */
    method AcceptDiff(diff: Diff) returns (ok: bool)
      requires durable.action.TransmitInventory?
      modifies this
      ensures ok <==> Accept(old(durable), DiffFrame(diff)).Some?
      ensures durable == if ok then Accept(old(durable), DiffFrame(diff)).value else old(durable)
    {
      if !(diff.requested <= durable.action.inventory) || !(diff.requested <= durable.store) {
        return false;
      }
      durable := durable.(store := durable.store + diff.events,
                          action := TransmitEventBatch(diff.requested, diff.more));
      ok := true;
    }

    /** Commits either the end of the session or the start of the next round. */
    method AcceptComplete(stored: set<Key>, more: bool) returns (ok: bool)
      requires durable.action.RetransmitEventBatch?
      modifies this
      ensures ok <==> Accept(old(durable), CompleteFrame(stored, more)).Some?
      ensures durable == if ok then Accept(old(durable), CompleteFrame(stored, more)).value else old(durable)
    {
      if stored != durable.action.batch || more != durable.action.more {
        return false;
      }
      if more {
        durable := durable.(round := durable.round + 1, action := PrepareInventory);
      } else {
        durable := durable.(action := Finished);
      }
      ok := true;
    }

    method ExchangeFrame(x: Exchange) returns (ok: bool)
      requires ClientFrameOf(durable.action).Some?
      modifies this
      ensures (durable, ok) == Exchanged(old(durable), x)
    {
      if x.Unwritten? {
        return false;
      }
      if durable.action.TransmitEventBatch? {
        durable := durable.(action := RetransmitEventBatch(durable.action.batch, durable.action.more));
      }
      if x.Unanswered? {
        return false;
      }
      if durable.action.TransmitInventory? && x.frame.DiffFrame? {
        ok := AcceptDiff(x.frame.diff);
      } else if durable.action.RetransmitEventBatch? && x.frame.CompleteFrame? {
        ok := AcceptComplete(x.frame.stored, x.frame.more);
      } else {
        ok := false;
      }
    }

    /** `drive_canonical_sync_v2_client`. */
    method DriveConnection(exchanges: seq<Exchange>) returns (finished: bool)
      modifies this
      ensures durable == DriveAll(old(durable), exchanges).0
      ensures finished <==> durable.action == Finished
      ensures old(Backed(durable)) ==> old(durable.store) <= durable.store && old(durable.round) <= durable.round
                                       && Backed(durable)
      ensures old(Backed(durable)) && finished && old(durable.action) != Finished ==>
                exists k, batch :: 0 <= k < |exchanges| && exchanges[k] == Answered(CompleteFrame(batch, false))
    {
      if Backed(durable) {
        DriveAllKeeps(durable, exchanges);
      }
      hide Exchanged, Backed;
      assert exchanges[0..] == exchanges;
      var i := 0;
      while durable.action != Finished
        invariant 0 <= i <= |exchanges|
        invariant DriveAll(old(durable), exchanges).0 == DriveAll(durable, exchanges[i..]).0
        decreases |exchanges| - i, if durable.action.PrepareInventory? then 1 else 0
      {
        if durable.action.PrepareInventory? {
          BeginRound();
        } else {
          if i == |exchanges| {
            return false;
          }
          assert exchanges[i..][1..] == exchanges[i + 1..];
          var ok := ExchangeFrame(exchanges[i]);
          if !ok {
            return durable.action == Finished;
          }
          i := i + 1;
        }
      }
      finished := true;
    }
  }

  // ----- both loops on one connection -----

  /** What two loops talking to each other do, with what each of them saw of it. */
  datatype Talk = Talk(client: Client, server: Responder, frames: seq<ClientFrame>, delivered: seq<bool>,
                       exchanges: seq<Exchange>)

  /**
   What becomes of one exchange: never written, written but never read, or read and answered. An answer
   may be confirmed to the responder, read by the client, both, or neither.
   */
  datatype Passage = Unsent | Unread | Carried(confirmed: bool, read: bool)

  /** The answer the client gets to see. */
  function AnswerTo(r: Responder, f: ClientFrame, read: bool): Exchange {
    var answer := ServeOne(r, f, true).1;
    if read && answer.Some? then Answered(answer.value) else Unanswered
  }

  /**
   The client's frames go to the responder, its answers back, as each passage decides. `open` says that
   the responder's loop still accepts streams: it leaves at the first answer that is not confirmed.
   */
  function Joint(c: Client, r: Responder, open: bool, passages: seq<Passage>): Talk
    decreases |passages|
  {
    var ready := Prepared(c);
    if ready.action == Finished || passages == [] then Talk(ready, r, [], [], [])
    else if passages[0].Unsent? then Talk(ready, r, [], [], [Unwritten])
    else if passages[0].Unread? || !open || r.action == Served
        then Talk(Exchanged(ready, Unanswered).0, r, [], [], [Unanswered])
    else
      var f := ClientFrameOf(ready.action).value;
      var confirmed := passages[0].confirmed;
      var server := ServeOne(r, f, confirmed).0;
      var x := AnswerTo(r, f, passages[0].read);
      var (client, ok) := Exchanged(ready, x);
      var rest := if ok then Joint(client, server, confirmed, passages[1..]) else Talk(client, server, [], [], []);
      Talk(rest.client, rest.server, [f] + rest.frames, [confirmed] + rest.delivered, [x] + rest.exchanges)
  }

  /** A responder that has left does nothing more. */
  lemma ClosedJoint(c: Client, r: Responder, passages: seq<Passage>)
    ensures var t := Joint(c, r, false, passages); t.server == r && t.frames == [] && t.delivered == []
  {
  }

  lemma ServedAnswers(r: Responder, f: ClientFrame, confirmed: bool)
    ensures ServeOne(r, f, confirmed).1 == if confirmed then ServeOne(r, f, true).1 else None
  {
  }

  /** That is what each loop does on its own, given what it saw. */
  lemma {:induction false} JointIsBothLoops(c: Client, r: Responder, open: bool, passages: seq<Passage>)
    ensures var t := Joint(c, r, open, passages);
            && |t.frames| == |t.delivered|
            && ServeAll(r, t.frames, t.delivered).0 == t.server
            && DriveAll(c, t.exchanges).0 == t.client
    decreases |passages|
  {
    hide ServeOne, Exchanged, ClientFrameOf;
    var ready := Prepared(c);
    if ready.action != Finished && passages != [] {
      HasFrame(ready);
      UnansweredStops(ready);
      if passages[0].Carried? && open && r.action != Served {
        var f := ClientFrameOf(ready.action).value;
        var (confirmed, x) := (passages[0].confirmed, AnswerTo(r, f, passages[0].read));
        ServedAnswers(r, f, confirmed);
        var server := ServeOne(r, f, confirmed).0;
        var (client, ok) := Exchanged(ready, x);
        if ok {
          JointIsBothLoops(client, server, confirmed, passages[1..]);
          ClosedJoint(client, server, passages[1..]);
        }
        var t := Joint(c, r, open, passages);
        var rest := if ok then Joint(client, server, confirmed, passages[1..]) else Talk(client, server, [], [], []);
        assert t.frames[1..] == rest.frames && t.delivered[1..] == rest.delivered && t.exchanges[1..] == rest.exchanges;
      }
    }
  }

  lemma HasFrame(c: Client)
    requires c.action != Finished && !c.action.PrepareInventory?
    ensures ClientFrameOf(c.action).Some?
  {
  }

  lemma UnansweredStops(c: Client)
    ensures Exchanged(c, Unwritten) == (c, false) && !Exchanged(c, Unanswered).1
  {
  }

  /** Nothing in any stream and nobody waiting. */
  predicate Idle(s: System) {
    s.request.None? && s.response.None? && s.inHand.None? && !s.waiting && !s.live && !s.written
  }

  function Last(trace: seq<System>): System
    requires trace != []
  {
    trace[|trace| - 1]
  }

  /** The client's half of sending: a new batch is marked sent once it is in the stream. */
  lemma SendRun(trace: seq<System>) returns (longer: seq<System>)
    requires Run(trace) && Idle(Last(trace)) && ClientFrameOf(Last(trace).client.action).Some?
    ensures Run(longer) && trace <= longer
    ensures var s := Last(trace);
            var c := s.client;
            var sent := if c.action.TransmitEventBatch?
                then c.(action := RetransmitEventBatch(c.action.batch, c.action.more)) else c;
            Last(longer) == s.(client := sent, request := ClientFrameOf(c.action), live := true, waiting := true)
  {
    assert trace != [];
    hide Run;
    longer := Extend(trace, Send);
    if Last(trace).client.action.TransmitEventBatch? {
      longer := Extend(longer, MarkBatchSent);
    }
  }

  /** The responder has its answer, if there is one, journaled and in hand. */
  predicate InHand(s: System, r: Responder, f: ClientFrame) {
    && s.request.None? && s.response.None? && s.waiting && !s.written && (s.inHand.Some? ==> s.live)
    && s.inHand == ServeOne(r, f, true).1 && s.server == ServeOne(r, f, false).0
    && ServeOne(r, f, true).0 == if s.inHand.Some? then MarkSent(s.server) else s.server
  }

  /** The responder's half up to the answer: the stream served, marked first when that is due. */
  lemma JournalRun(trace: seq<System>) returns (longer: seq<System>)
    requires Run(trace)
    requires var s := Last(trace); s.request.Some? && s.inHand.None? && s.response.None? && s.live && s.waiting
                                   && !s.written
    requires Last(trace).server.action != Served
    ensures Run(longer) && trace <= longer && Last(longer).client == Last(trace).client
    ensures InHand(Last(longer), Last(trace).server, Last(trace).request.value)
  {
    assert trace != [];
    hide Plan, Run;
    var s := Last(trace);
    longer := Extend(trace, Serve);
    var first := Respond(s.server, s.request.value);
    if first.Marked? {
      longer := Extend(longer, Serve);
    }
  }

  /** ... and the answer written, confirmed, or neither. */
  lemma ServeRun(trace: seq<System>, confirmed: bool, read: bool) returns (longer: seq<System>)
    requires Run(trace)
    requires var s := Last(trace); s.request.Some? && s.inHand.None? && s.response.None? && s.live && s.waiting
                                   && !s.written
    requires Last(trace).server.action != Served
    ensures Run(longer) && trace <= longer
    ensures var s := Last(trace);
            var f := s.request.value;
            && Last(longer).server == ServeOne(s.server, f, confirmed).0 && Last(longer).client == s.client
            && Last(longer).request.None? && Last(longer).inHand.None? && !Last(longer).written && Last(longer).waiting
            && Last(longer).response == if confirmed || read then ServeOne(s.server, f, true).1 else None
  {
    longer := JournalRun(trace);
    assert longer != [];
    NothingToConfirm(Last(trace).server, Last(trace).request.value);
    hide Run, ServeOne, MarkSent;
    if Last(longer).inHand.Some? {
      if confirmed || read {
        longer := Extend(longer, Write);
      }
      longer := Extend(longer, if confirmed then Mark else ServerDrop);
    }
  }

  lemma NothingToConfirm(r: Responder, f: ClientFrame)
    ensures ServeOne(r, f, true).1.None? ==> ServeOne(r, f, true) == ServeOne(r, f, false)
  {
    hide Plan;
  }

  /** The client's half of receiving: read and accept, or give up. */
  lemma ReadRun(trace: seq<System>, read: bool) returns (longer: seq<System>)
    requires Run(trace)
    requires var s := Last(trace); s.waiting && s.request.None? && s.inHand.None? && !s.written
                                   && !s.client.action.TransmitEventBatch?
    ensures Run(longer) && trace <= longer && Idle(Last(longer)) && Last(longer).server == Last(trace).server
    ensures var (s, after) := (Last(trace), Last(longer).client);
            if read && s.response.Some? && Accept(s.client, s.response.value).Some?
            then after == Accept(s.client, s.response.value).value
            else after == s.client
  {
    assert trace != [];
    hide Accept, Run;
    longer := Extend(trace, if read && Last(trace).response.Some? then Receive else ClientDrop);
  }

  /** One exchange of the two loops is a stretch of the machine's run. */
  lemma ExchangeRun(trace: seq<System>, confirmed: bool, read: bool) returns (longer: seq<System>)
    requires Run(trace) && Idle(Last(trace)) && ClientFrameOf(Last(trace).client.action).Some?
             && Last(trace).server.action != Served
    ensures Run(longer) && trace <= longer && Idle(Last(longer))
    ensures var s := Last(trace);
            var f := ClientFrameOf(s.client.action).value;
            && Last(longer).server == ServeOne(s.server, f, confirmed).0
            && Last(longer).client == Exchanged(s.client, AnswerTo(s.server, f, read)).0
  {
    hide Run, ServeOne, Accept;
    var sent := SendRun(trace);
    var served := ServeRun(sent, confirmed, read);
    longer := ReadRun(served, read);
  }

  /** A frame that is written and never read leaves the responder alone. */
  lemma UnreadRun(trace: seq<System>) returns (longer: seq<System>)
    requires Run(trace) && Idle(Last(trace)) && ClientFrameOf(Last(trace).client.action).Some?
    ensures Run(longer) && trace <= longer && Idle(Last(longer))
    ensures Last(longer).server == Last(trace).server
            && Last(longer).client == Exchanged(Last(trace).client, Unanswered).0
  {
    hide Run, Accept;
    longer := SendRun(trace);
    longer := Extend(longer, ServerDrop);
    longer := ReadRun(longer, false);
  }

  /** Two loops on one connection, from any idle moment of any run, are a continuation of that run. */
  lemma {:induction false} JointIsRun(trace: seq<System>, open: bool, passages: seq<Passage>)
    returns (longer: seq<System>)
    requires Run(trace) && Idle(Last(trace))
    ensures Run(longer) && trace <= longer && Idle(Last(longer))
    ensures var t := Joint(Last(trace).client, Last(trace).server, open, passages);
            Last(longer).client == t.client && Last(longer).server == t.server
    decreases |passages|
  {
    assert trace != [];
    hide Run, ServeOne, Exchanged, ClientFrameOf;
    var s := Last(trace);
    longer := trace;
    if s.client.action.PrepareInventory? {
      longer := Extend(trace, Prepare);
    }
    var ready := Prepared(s.client);
    if ready.action != Finished && passages != [] && !passages[0].Unsent? {
      HasFrame(ready);
      if passages[0].Unread? || !open || s.server.action == Served {
        longer := UnreadRun(longer);
      } else {
        var x := AnswerTo(s.server, ClientFrameOf(ready.action).value, passages[0].read);
        longer := ExchangeRun(longer, passages[0].confirmed, passages[0].read);
        if Exchanged(ready, x).1 {
          longer := JointIsRun(longer, passages[0].confirmed, passages[1..]);
        }
      }
    }
  }

  // ----- one connection after another -----

  /** A connection, and the local events that arrived on either side before it. */
  datatype Connection = Connection(clientNews: set<Key>, serverNews: set<Key>, passages: seq<Passage>)

  /** Where any number of connections leave the two sides. */
  function Meet(c: Client, r: Responder, connections: seq<Connection>): (Client, Responder)
    decreases |connections|
  {
    if connections == [] then (c, r)
    else
      var first := connections[0];
      var t := Joint(c.(store := c.store + first.clientNews), r.(store := r.store + first.serverNews), true,
                     first.passages);
      Meet(t.client, t.server, connections[1..])
  }

  lemma {:induction false} ClientNewsRun(trace: seq<System>, keys: set<Key>) returns (longer: seq<System>)
    requires Run(trace)
    ensures Run(longer) && trace <= longer
    ensures var s := Last(trace); Last(longer) == s.(client := s.client.(store := s.client.store + keys))
    decreases |keys|
  {
    assert trace != [];
    hide Run;
    if keys == {} {
      assert Last(trace).client.store + keys == Last(trace).client.store;
      longer := trace;
    } else {
      var key :| key in keys;
      longer := ClientNewsRun(trace, keys - {key});
      assert (Last(trace).client.store + (keys - {key})) + {key} == Last(trace).client.store + keys;
      longer := Extend(longer, ClientAppend(key));
    }
  }

  lemma {:induction false} ServerNewsRun(trace: seq<System>, keys: set<Key>) returns (longer: seq<System>)
    requires Run(trace)
    ensures Run(longer) && trace <= longer
    ensures var s := Last(trace); Last(longer) == s.(server := s.server.(store := s.server.store + keys))
    decreases |keys|
  {
    assert trace != [];
    hide Run;
    if keys == {} {
      assert Last(trace).server.store + keys == Last(trace).server.store;
      longer := trace;
    } else {
      var key :| key in keys;
      longer := ServerNewsRun(trace, keys - {key});
      assert (Last(trace).server.store + (keys - {key})) + {key} == Last(trace).server.store + keys;
      longer := Extend(longer, ServerAppend(key));
    }
  }

  /** Any number of connections are a continuation of the run. */
  lemma {:induction false} MeetIsRun(trace: seq<System>, connections: seq<Connection>) returns (longer: seq<System>)
    requires Run(trace) && Idle(Last(trace))
    ensures Run(longer) && trace <= longer && Idle(Last(longer))
    ensures (Last(longer).client, Last(longer).server) == Meet(Last(trace).client, Last(trace).server, connections)
    decreases |connections|
  {
    hide Run, Joint;
    longer := trace;
    if connections != [] {
      longer := ClientNewsRun(longer, connections[0].clientNews);
      longer := ServerNewsRun(longer, connections[0].serverNews);
      longer := JointIsRun(longer, true, connections[0].passages);
      longer := MeetIsRun(longer, connections[1..]);
    }
  }

  lemma SessionRun(client: set<Key>, server: set<Key>, allowed: bool, connections: seq<Connection>)
    returns (trace: seq<System>)
    ensures Run(trace) && trace[0] == Start(client, server, allowed) && Idle(Last(trace))
    ensures (Last(trace).client, Last(trace).server) == Session(client, server, allowed, connections)
  {
    var first := [Start(client, server, allowed)];
    assert first[0] == Start(client, server, allowed);
    assert Run(first);
    trace := MeetIsRun(first, connections);
    assert trace[0] == first[0];
  }

  /** A whole session, from its first connection on. */
  function Session(client: set<Key>, server: set<Key>, allowed: bool,
                   connections: seq<Connection>): (Client, Responder) {
    Meet(Start(client, server, allowed).client, Start(client, server, allowed).server, connections)
  }

  /**
   Whatever is lost on however many connections, if the client's loop reports the session finished, each
   side holds everything either of them held before it.
   */
  lemma LoopsConverge(client: set<Key>, server: set<Key>, allowed: bool, connections: seq<Connection>)
    requires Session(client, server, allowed, connections).0.action == Finished
    ensures var (c, r) := Session(client, server, allowed, connections);
            client + server <= c.store && client + server <= r.store
  {
    var trace := SessionRun(client, server, allowed, connections);
    hide Run;
    ConvergedFromStart(trace, |trace| - 1);
  }

  lemma {:induction false} MeetAgain(c: Client, r: Responder, first: seq<Connection>, more: seq<Connection>)
    ensures var (c', r') := Meet(c, r, first); Meet(c, r, first + more) == Meet(c', r', more)
    decreases |first|
  {
    hide Joint;
    if first == [] {
      assert first + more == more;
    } else {
      var t := Joint(c.(store := c.store + first[0].clientNews), r.(store := r.store + first[0].serverNews), true,
                     first[0].passages);
      MeetAgain(t.client, t.server, first[1..], more);
      assert (first + more)[1..] == first[1..] + more;
    }
  }

  /**
   If connections leave the two loops apart, no later connection brings them together or moves either a
   step further.
   */
  lemma ApartForever(client: set<Key>, server: set<Key>, allowed: bool, connections: seq<Connection>,
                     more: seq<Connection>)
    requires var (c, r) := Session(client, server, allowed, connections); Apart(c, r)
    ensures var (c, r) := Session(client, server, allowed, connections);
            var (c', r') := Session(client, server, allowed, connections + more);
            && Apart(c', r') && r'.round == r.round && r'.action == r.action && c'.round == c.round
            && (c'.action == Finished <==> c.action == Finished)
  {
    var trace := SessionRun(client, server, allowed, connections);
    var longer := MeetIsRun(trace, more);
    MeetAgain(Start(client, server, allowed).client, Start(client, server, allowed).server, connections, more);
    hide Run, Meet;
    assert Last(trace) == longer[|trace| - 1];
    LostForever(longer, |trace| - 1, |longer| - 1);
  }

  const NOTHING: Diff := Diff({}, {}, false)

  lemma EmptyDiff()
    ensures ServeOne(Responder(0, AwaitInventory, {}, true), Inventory({}), true) ==
            (Responder(0, RetransmitDiff(NOTHING), {}, true), Some(DiffFrame(NOTHING)))
    ensures Exchanged(Client(0, TransmitInventory({}), {}), Answered(DiffFrame(NOTHING))) ==
            (Client(0, TransmitEventBatch({}, false), {}), true)
  {
    assert Plan({}, {}) == NOTHING;
    hide Plan;
  }

  lemma EmptyComplete(confirmed: bool)
    ensures ServeOne(Responder(0, RetransmitDiff(NOTHING), {}, true), Events({}), confirmed) ==
            if confirmed then (Responder(0, Served, {}, true), Some(CompleteFrame({}, false)))
            else (Responder(0, TransmitComplete({}, false), {}, true), None)
    ensures Exchanged(Client(0, TransmitEventBatch({}, false), {}), Answered(CompleteFrame({}, false))) ==
            (Client(0, Finished, {}), true)
    ensures Exchanged(Client(0, TransmitEventBatch({}, false), {}), Unanswered) ==
            (Client(0, RetransmitEventBatch({}, false), {}), false)
  {
    hide Plan;
    var none: set<Key> := {};
    assert none + none == none;
  }

  /**
   Both ways apart: the only Complete confirmed to the responder and never read by the client, and read
   by the client and never confirmed to the responder.
   */
  lemma ComesApart(confirmed: bool)
    ensures var (c, r) := Session({}, {}, true,
                                  [Connection({}, {}, [Carried(true, true), Carried(confirmed, !confirmed)])]);
            Apart(c, r) && (c.action == Finished <==> !confirmed) && (r.action == Served <==> confirmed)
  {
    EmptyDiff();
    EmptyComplete(true);
    EmptyComplete(confirmed);
    hide ServeOne, Exchanged;
    var passages := [Carried(true, true), Carried(confirmed, !confirmed)];
    var last := [Carried(confirmed, !confirmed)];
    assert passages[1..] == last && last[1..] == [];
    var (c, r) := (Client(0, TransmitEventBatch({}, false), {}), Responder(0, RetransmitDiff(NOTHING), {}, true));
    var second := Joint(c, r, true, last);
    assert last[0] == Carried(confirmed, !confirmed) && ClientFrameOf(c.action) == Some(Events({}));
    assert Joint(Client(0, Finished, {}), ServeOne(r, Events({}), confirmed).0, confirmed, []).client ==
           Client(0, Finished, {});
    assert second.client == (if confirmed then Client(0, RetransmitEventBatch({}, false), {})
                             else Client(0, Finished, {}));
    assert second.server == ServeOne(r, Events({}), confirmed).0;
    var s := Start({}, {}, true);
    var first := Joint(s.client, s.server, true, passages);
    assert first.client == second.client && first.server == second.server;
    var connections := [Connection({}, {}, passages)];
    assert connections[1..] == [];
    assert s.client.(store := s.client.store + {}) == s.client && s.server.(store := s.server.store + {}) == s.server;
    assert Meet(first.client, first.server, []) == (first.client, first.server);
    assert Session({}, {}, true, connections) == (first.client, first.server);
  }
}
