/**
 Publishing one artifact file: any number of writers, each checking for the file, writing a temporary
 file and publishing it without clobbering, interleaved in any way and stopping anywhere.

 A `patient` writer re-reads the file when another writer published first; the other kind reports an
 error. Both occur in the source.
 */
module Artifacts {
  import opened Basics

  type Bytes = seq<nat>
  type WriterId = nat

  datatype Stage =
    | Started        // nothing read yet
    | Absent         // the existence check found no file
    | Temporary      // the temporary file is written and synced
    | Collided       // the no-clobber publish found a file
    | Succeeded
    | Refused        // the file holds other bytes
    | LostRace       // the publish found a file, and this writer does not look again
    | Stopped        // crashed, or failed on I/O

  datatype Writer = Writer(bytes: Bytes, patient: bool, stage: Stage)

  datatype World = World(file: Option<Bytes>, writers: map<WriterId, Writer>)

  datatype Event =
    | Start(id: WriterId, bytes: Bytes, patient: bool)
    | Advance(id: WriterId)
    | Stop(id: WriterId)

  /** The comparison both reads of the file make. */
  function Compare(w: Writer, file: Option<Bytes>): Stage {
    if file.None? then Stopped else if file.value == w.bytes then Succeeded else Refused
  }

  /** The writer's next line. */
  function Stepped(w: Writer, file: Option<Bytes>): (Writer, Option<Bytes>) {
    match w.stage
    case Started => (w.(stage := if file.None? then Absent else Compare(w, file)), file)
    case Absent => (w.(stage := Temporary), file)
    case Temporary =>
      if file.None? then (w.(stage := Succeeded), Some(w.bytes))
      else (w.(stage := if w.patient then Collided else LostRace), file)
    case Collided => (w.(stage := Compare(w, file)), file)
    case _ => (w, file)
  }

  function Next(s: World, e: Event): Option<World> {
    match e
    case Start(id, bytes, patient) =>
      if id in s.writers then None else Some(s.(writers := s.writers[id := Writer(bytes, patient, Started)]))
    case Advance(id) =>
      if id !in s.writers then None
      else
        var (w, file) := Stepped(s.writers[id], s.file);
        Some(World(file, s.writers[id := w]))
    case Stop(id) =>
      if id !in s.writers || s.writers[id].stage in {Succeeded, Refused, LostRace} then None
      else Some(s.(writers := s.writers[id := s.writers[id].(stage := Stopped)]))
  }

  ghost predicate Steps(s: World, s': World) {
    exists e :: Next(s, e) == Some(s')
  }

  /** A run that starts with no writers; the file may already be there. */
  ghost predicate Run(trace: seq<World>) {
    && trace != [] && trace[0].writers == map[]
    && forall i :: 0 <= i < |trace| - 1 ==> Steps(trace[i], trace[i + 1])
  }

  /** A writer that has decided has decided on the value in the file. */
  predicate Decided(w: Writer, file: Option<Bytes>) {
    && (w.stage == Succeeded ==> file == Some(w.bytes))
    && (w.stage == Refused ==> file.Some? && file.value != w.bytes)
    && (w.stage in {Collided, LostRace} ==> file.Some?)
    && (w.stage == LostRace ==> !w.patient)
  }

  ghost predicate AllDecided(s: World) {
    forall id :: id in s.writers ==> Decided(s.writers[id], s.file)
  }

  lemma {:induction false} RunDecided(trace: seq<World>, k: nat)
    requires Run(trace) && k < |trace|
    ensures AllDecided(trace[k])
    decreases k
  {
    if k > 0 {
      RunDecided(trace, k - 1);
      assert Steps(trace[k - 1], trace[k - 1 + 1]);
    }
  }

  /** The path holds at most one value, for ever. */
  lemma {:induction false} OneValueForever(trace: seq<World>, i: nat, j: nat)
    requires Run(trace) && i <= j < |trace| && trace[i].file.Some?
    ensures trace[j].file == trace[i].file
    decreases j - i
  {
    if i < j {
      OneValueForever(trace, i, j - 1);
      assert Steps(trace[j - 1], trace[j - 1 + 1]);
    }
  }

  /** Every writer that ever reported success wrote or confirmed the value the path holds now. */
  lemma SuccessIsTheValue(trace: seq<World>, i: nat, j: nat, id: WriterId)
    requires Run(trace) && i <= j < |trace|
    requires id in trace[i].writers && trace[i].writers[id].stage == Succeeded
    ensures trace[j].file == Some(trace[i].writers[id].bytes)
  {
    RunDecided(trace, i);
    OneValueForever(trace, i, j);
  }

  /** The value was there at the start, or some writer brought it. */
  lemma {:induction false} ValueHasAWriter(trace: seq<World>, k: nat)
    requires Run(trace) && k < |trace| && trace[k].file.Some?
    ensures trace[0].file == trace[k].file || exists id :: id in trace[k].writers
                                                           && Some(trace[k].writers[id].bytes) == trace[k].file
    decreases k
  {
    if k > 0 {
      assert Steps(trace[k - 1], trace[k - 1 + 1]);
      var e :| Next(trace[k - 1], e) == Some(trace[k]);
      if trace[k - 1].file.Some? {
        ValueHasAWriter(trace, k - 1);
        if trace[0].file != trace[k - 1].file {
          var id :| id in trace[k - 1].writers && Some(trace[k - 1].writers[id].bytes) == trace[k - 1].file;
          assert id in trace[k].writers && trace[k].writers[id].bytes == trace[k - 1].writers[id].bytes;
        }
      } else {
        assert e.id in trace[k].writers;
      }
    }
  }

  // ----- writers that look again, and writers that do not -----

  /** At step `i` of the run this writer's publish is attempted. */
  ghost predicate Publishes(trace: seq<World>, i: nat, id: WriterId) {
    && i + 1 < |trace| && id in trace[i].writers && trace[i].writers[id].stage == Temporary
    && Next(trace[i], Advance(id)) == Some(trace[i + 1])
  }

  /** A lost race stays lost. */
  lemma {:induction false} LostRaceStays(trace: seq<World>, i: nat, j: nat, id: WriterId)
    requires Run(trace) && i <= j < |trace| && id in trace[i].writers && trace[i].writers[id].stage == LostRace
    ensures id in trace[j].writers && trace[j].writers[id] == trace[i].writers[id]
    decreases j - i
  {
    if i < j {
      LostRaceStays(trace, i, j - 1, id);
      assert Steps(trace[j - 1], trace[j - 1 + 1]);
    }
  }

  /** The publish that lost it. */
  lemma {:induction false} LostRaceFound(trace: seq<World>, k: nat, id: WriterId) returns (i: nat)
    requires Run(trace) && k < |trace| && id in trace[k].writers && trace[k].writers[id].stage == LostRace
    ensures i < k && Publishes(trace, i, id) && trace[i].file.Some?
    decreases k
  {
    assert k > 0;
    assert Steps(trace[k - 1], trace[k - 1 + 1]);
    var e :| Next(trace[k - 1], e) == Some(trace[k]);
    if id in trace[k - 1].writers && trace[k - 1].writers[id].stage == LostRace {
      i := LostRaceFound(trace, k - 1, id);
    } else {
      assert e == Advance(id);
      i := k - 1;
    }
  }

  /** A writer that does not look again ends with a lost race exactly when the file was there as it published. */
  lemma ImpatientWriterErrs(trace: seq<World>, k: nat, id: WriterId)
    requires Run(trace) && k < |trace| && id in trace[k].writers && !trace[k].writers[id].patient
    ensures trace[k].writers[id].stage == LostRace <==>
            exists i :: 0 <= i < k && Publishes(trace, i, id) && trace[i].file.Some?
  {
    if trace[k].writers[id].stage == LostRace {
      var i := LostRaceFound(trace, k, id);
    }
    if i :| 0 <= i < k && Publishes(trace, i, id) && trace[i].file.Some? {
      SameWriter(trace, i, k, id);
      LostRaceStays(trace, i + 1, k, id);
    }
  }

  /** A writer keeps its bytes and its kind. */
  lemma {:induction false} SameWriter(trace: seq<World>, i: nat, j: nat, id: WriterId)
    requires Run(trace) && i <= j < |trace| && id in trace[i].writers
    ensures id in trace[j].writers
    ensures trace[j].writers[id].bytes == trace[i].writers[id].bytes
            && trace[j].writers[id].patient == trace[i].writers[id].patient
    decreases j - i
  {
    if i < j {
      SameWriter(trace, i, j - 1, id);
      assert Steps(trace[j - 1], trace[j - 1 + 1]);
    }
  }

  lemma Extend(trace: seq<World>, e: Event) returns (longer: seq<World>)
    requires Run(trace) && Next(trace[|trace| - 1], e).Some?
    ensures Run(longer) && |longer| == |trace| + 1
    ensures longer[|trace|] == Next(trace[|trace| - 1], e).value
  {
    longer := trace + [Next(trace[|trace| - 1], e).value];
    hide Next;
    forall i | 0 <= i < |longer| - 1
      ensures Steps(longer[i], longer[i + 1])
    {
      if i < |trace| - 1 {
        assert Steps(trace[i], trace[i + 1]);
      } else {
        assert Next(longer[i], e) == Some(longer[i + 1]);
      }
    }
  }

  /** Two writers of the same bytes: the one that does not look again reports an error over its own content. */
  lemma LosesToItsOwnBytes(bytes: Bytes) returns (trace: seq<World>)
    ensures Run(trace)
    ensures var last := trace[|trace| - 1];
            && last.file == Some(bytes) && 1 in last.writers && last.writers[1] == Writer(bytes, false, LostRace)
  {
    trace := [World(None, map[])];
    trace := Extend(trace, Start(0, bytes, false));
    trace := Extend(trace, Start(1, bytes, false));
    trace := Extend(trace, Advance(0));
    trace := Extend(trace, Advance(1));
    trace := Extend(trace, Advance(0));
    trace := Extend(trace, Advance(1));
    assert trace[6] == World(None, map[0 := Writer(bytes, false, Temporary), 1 := Writer(bytes, false, Temporary)]);
    trace := Extend(trace, Advance(0));
    trace := Extend(trace, Advance(1));
  }

  // ----- a patient writer's own steps -----

  /** A run together with its events. */
  ghost predicate Execution(trace: seq<World>, events: seq<Event>) {
    Run(trace) && |trace| == |events| + 1 && forall i :: 0 <= i < |events| ==>
        Next(trace[i], events[i]) == Some(trace[i + 1])
  }

  /** How many lines this writer runs. */
  function Turns(events: seq<Event>, id: WriterId): nat {
    if events == [] then 0
    else Turns(events[..|events| - 1], id) + if events[|events| - 1] == Advance(id) then 1 else 0
  }

  /** How many lines it has left at most. */
  function LinesLeft(stage: Stage): nat {
    match stage
    case Started => 4
    case Absent => 3
    case Temporary => 2
    case Collided => 1
    case _ => 0
  }

  /** Between two moments a running writer that is not stopped uses up one line per turn. */
  lemma {:induction false} TurnsAreTaken(trace: seq<World>, events: seq<Event>, i: nat, j: nat, id: WriterId)
    requires Execution(trace, events) && i <= j <= |events| && id in trace[i].writers
    requires Stop(id) !in events[i..j] && trace[i].writers[id].stage != Stopped
    ensures id in trace[j].writers && trace[j].writers[id].stage != Stopped
    ensures LinesLeft(trace[j].writers[id].stage) + Turns(events[i..j], id) <= LinesLeft(trace[i].writers[id].stage)
            || LinesLeft(trace[j].writers[id].stage) == 0
    decreases j - i
  {
    if i < j {
      assert events[i..j][..j - 1 - i] == events[i..j - 1];
      assert events[i..j][j - 1 - i] == events[j - 1];
      assert Stop(id) !in events[i..j - 1] by {
        forall e | e in events[i..j - 1]
          ensures e in events[i..j]
        {
        }
      }
      TurnsAreTaken(trace, events, i, j - 1, id);
      RunDecided(trace, j - 1);
      assert Next(trace[j - 1], events[j - 1]) == Some(trace[j - 1 + 1]);
      assert events[j - 1] != Stop(id);
      hide Turns;
      OneTurn(trace[j - 1], events[j - 1], trace[j], id);
      TurnsSplit(events[i..j], id);
    } else {
      assert events[i..j] == [];
    }
  }

  lemma TurnsSplit(events: seq<Event>, id: WriterId)
    requires events != []
    ensures Turns(events, id) == Turns(events[..|events| - 1], id) + if events[|events| - 1] == Advance(id) then 1
            else 0
  {
  }

  lemma OneTurn(s: World, e: Event, s': World, id: WriterId)
    requires AllDecided(s) && Next(s, e) == Some(s') && id in s.writers && e != Stop(id)
             && s.writers[id].stage != Stopped
    ensures id in s'.writers && s'.writers[id].stage != Stopped
    ensures var (before, after) := (LinesLeft(s.writers[id].stage), LinesLeft(s'.writers[id].stage));
            after <= before && (e == Advance(id) && before > 0 ==> after < before)
  {
    assert Decided(s.writers[id], s.file);
  }

  /**
   In every run a patient writer that gets four turns and is not stopped ends up decided, and rightly:
   success exactly when the file holds its bytes, whoever put them there.
   */
  lemma PatientWriterDecides(trace: seq<World>, events: seq<Event>, i: nat, j: nat, id: WriterId)
    requires Execution(trace, events) && i <= j <= |events|
    requires id in trace[i].writers && trace[i].writers[id].patient && trace[i].writers[id].stage != Stopped
    requires Stop(id) !in events[i..j] && Turns(events[i..j], id) >= 4
    ensures id in trace[j].writers && trace[j].writers[id].stage in {Succeeded, Refused}
    ensures trace[j].writers[id].stage == Succeeded <==> trace[j].file == Some(trace[j].writers[id].bytes)
  {
    TurnsAreTaken(trace, events, i, j, id);
    SameWriter(trace, i, j, id);
    RunDecided(trace, j);
    hide Execution, Turns;
    assert Decided(trace[j].writers[id], trace[j].file);
  }
}
