/**
 The drain observation schedule (scripts/r-ext-go-qualification/observe.ts): forty samples, one
 read each, against a clock, a sleeper, a scheduler and a reader that may answer anything.  Each
 of their answers is an input: a Turn holds what the environment does during one sample.
 */
module DrainObservation {
  import opened Wrappers

  const SAMPLES := 40
  const INTERVAL: int := 15_000
  const MAX_SAFE_INTEGER := 0x1F_FFFF_FFFF_FFFF

  datatype Snapshot = Snapshot(admissionClosed: bool, activeRuns: int, pendingEffects: int, openReservations: int,
                               reconciliationRequired: int, authorityConsistent: bool, runnerDrained: bool,
                               outboxDrained: bool)

  /** What a read resolves to: the eight fields with their types, or anything else. */
  datatype RawSnapshot = Shaped(snapshot: Snapshot) | Misshapen

  datatype Reason =
    | ClockInvalid | ClockStalled | ClockSleepFailed
    | AuthorityReadTimeout | AuthorityReadFailed | AuthoritySnapshotInvalid
    | InvalidOrMissedObservation

  /******* The environment *******/

  /** An answer of the monotonic clock. */
  datatype Reading = Finite(ms: int) | NotFinite | ClockThrew

  /** An answer of the wall clock: canonical UTC text, known by its instant, or unusable. */
  datatype Wall = Canonical(ms: int) | Unusable

  /** A sleep that rejects, or one that resolves, with the clock reading taken after it. */
  datatype Wake = SleepRejected | Woke(reading: Reading)

  datatype Registration = Returned | NotAFunction | ScheduleThrew

  /** Something that reaches the promise of one sample: the read's end, or the scheduled callback. */
  datatype RaceEvent = ReadResolved(value: RawSnapshot) | ReadFailed | DeadlineFired(reading: Reading)

  /** The read or the deadline eventually ends the wait. */
  type Race = events: seq<RaceEvent> | events != [] witness [ReadFailed]

  /**
   One sample's environment: readings and wakes before the read, callbacks fired while the
   deadline is being registered, what registration returned, the events of the race while the
   sample listens and after it stopped listening, whether cancelling throws, the final readings.
   */
  datatype Turn = Turn(first: Reading, wakes: nat -> Wake, early: seq<Reading>, registration: Registration,
                       race: Race, late: seq<RaceEvent>, cancelThrows: bool, actual: Reading, observed: Wall)

  /** What the environment does during the whole schedule, one turn a sample. */
  type Script = turns: seq<Turn> | |turns| == SAMPLES
    witness seq(SAMPLES, _ => Turn(NotFinite, _ => SleepRejected, [], Returned, [ReadFailed], [], false, NotFinite, Unusable))

  datatype Startup = Startup(wall: Wall, origin: Reading)

  /******* What the observer produces *******/

  datatype Sample = Sample(k: nat, scheduledOffset: int, startedOffset: int, actualOffset: int, observedAt: int,
                           valid: bool, snapshot: Option<Snapshot>, reason: Option<Reason>, cleanupFault: bool)

  datatype Status = Pass | Fail

  datatype Report = Report(status: Status, startedAt: Option<int>, samples: seq<Sample>, reason: Option<Reason>,
                           cleanupFault: bool)

  /** How often one turn called the reader and the cancel function. */
  datatype Effects = Effects(readCalls: nat, cancelCalls: nat)

  predicate Count(n: int) {
    0 <= n <= MAX_SAFE_INTEGER
  }

  function ValidateSnapshot(raw: RawSnapshot): Option<Snapshot> {
    match raw
    case Misshapen => None
    case Shaped(s) =>
      if Count(s.activeRuns) && Count(s.pendingEffects) && Count(s.openReservations) && Count(s.reconciliationRequired)
      then Some(s) else None
  }

  predicate Drained(s: Snapshot) {
    && s.admissionClosed && s.authorityConsistent && s.runnerDrained && s.outboxDrained
    && s.activeRuns == 0 && s.pendingEffects == 0 && s.openReservations == 0 && s.reconciliationRequired == 0
  }

  /******* The race of one sample *******/

  datatype ReadOutcome = Value(value: RawSnapshot) | FailedRead | Expired(failure: Reason)

  function Expiry(reading: Reading, limit: int, registering: bool): Reason {
    if registering || !reading.Finite? || reading.ms < limit then ClockInvalid else AuthorityReadTimeout
  }

  /** What an event means when it is the first to arrive. */
  function OutcomeOf(event: RaceEvent, limit: int): ReadOutcome {
    match event
    case ReadResolved(value) => Value(value)
    case ReadFailed => FailedRead
    case DeadlineFired(reading) => Expired(Expiry(reading, limit, false))
  }

  /** The flags that the scheduled callback and the read's handlers share. */
  class ReadRace {
    const limit: int
    var registering: bool
    var active: bool
    var registrationFault: bool
    var outcome: Option<ReadOutcome>
    var aborts: nat

    constructor (limit: int)
      ensures this.limit == limit && registering && active && !registrationFault && outcome.None? && aborts == 0
    {
      this.limit := limit;
      registering, active, registrationFault, outcome, aborts := true, true, false, None, 0;
    }

    /** Only the first outcome is retained; a closed race retains none. */
    method Settle(o: ReadOutcome)
      modifies this`outcome
      ensures outcome == if old(active && outcome.None?) then Some(o) else old(outcome)
    {
      if !active || outcome.Some? {
        return;
      }
      outcome := Some(o);
    }

    /** The scheduled callback. */
    method FireDeadline(reading: Reading)
      modifies this`outcome, this`registrationFault, this`aborts
      ensures outcome == if old(active && outcome.None?) then Some(Expired(Expiry(reading, limit, registering)))
                         else old(outcome)
      ensures old(active && outcome.None?) ==>
                && (outcome == Some(Expired(AuthorityReadTimeout)) <==>
                    !registering && reading.Finite? && reading.ms >= limit)
                && (outcome == Some(Expired(ClockInvalid)) <==>
                    registering || !reading.Finite? || reading.ms < limit)
      ensures registrationFault == if old(active && outcome.None?) then registering else old(registrationFault)
      ensures aborts == old(aborts) + if old(active && outcome.None?) then 1 else 0
    {
      if !active || outcome.Some? {
        return;
      }
      registrationFault := registering;
      var failure := if registering || !reading.Finite? || reading.ms < limit then ClockInvalid else AuthorityReadTimeout;
      Settle(Expired(failure));
      aborts := aborts + 1;
    }

    /** Callbacks fired before registration returns: any at all is a registration fault. */
    method FireEarly(readings: seq<Reading>)
      requires registering && active && outcome.None? && !registrationFault
      modifies this`outcome, this`registrationFault, this`aborts
      ensures registrationFault == (readings != []) == outcome.Some?
      ensures aborts <= old(aborts) + 1
    {
      for i := 0 to |readings|
        invariant registrationFault == (i > 0) == outcome.Some?
        invariant aborts == old(aborts) + if i > 0 then 1 else 0
      {
        FireDeadline(readings[i]);
      }
    }

    /** Whatever the order of events, the first one fixes the outcome; on a closed race none counts. */
    method Deliver(events: seq<RaceEvent>)
      requires !registering
      modifies this`outcome, this`registrationFault, this`aborts
      ensures outcome == if old(!active || outcome.Some?) || events == [] then old(outcome)
                         else Some(OutcomeOf(events[0], limit))
      ensures old(!active || outcome.Some?) ==> aborts == old(aborts)
      ensures aborts <= old(aborts) + 1
    {
      for i := 0 to |events|
        invariant outcome == if old(!active || outcome.Some?) || i == 0 then old(outcome)
                             else Some(OutcomeOf(events[0], limit))
        invariant old(!active || outcome.Some?) ==> aborts == old(aborts)
        invariant aborts <= old(aborts) + if i > 0 then 1 else 0
      {
        match events[i]
        case ReadResolved(value) => Settle(Value(value));
        case ReadFailed => Settle(FailedRead);
        case DeadlineFired(reading) => FireDeadline(reading);
      }
    }
  }

  /******* The decision, turn by turn *******/

  function Wait(current: int, deadline: int, wakes: nat -> Wake, i: nat): Result<int, Reason>
    decreases deadline - current
  {
    if current >= deadline then Success(current)
    else match wakes(i)
      case SleepRejected => Failure(ClockSleepFailed)
      case Woke(Finite(next)) =>
        if next < current then Failure(ClockInvalid)
        else if next == current then Failure(ClockStalled)
        else Wait(next, deadline, wakes, i + 1)
      case Woke(_) => Failure(ClockInvalid)
  }

  /** The clock reading at which sample k starts, if it starts in its own interval. */
  function Arrive(turn: Turn, prior: int, deadline: int): Result<int, Reason> {
    if !turn.first.Finite? || turn.first.ms < prior then Failure(ClockInvalid)
    else
      var current :- Wait(turn.first.ms, deadline, turn.wakes, 0);
      if current >= deadline + INTERVAL then Failure(InvalidOrMissedObservation) else Success(current)
  }

  datatype Read = Read(snapshot: Option<Snapshot>, reason: Option<Reason>)

  function ReadResult(outcome: ReadOutcome): Read {
    match outcome
    case Expired(failure) => Read(None, Some(failure))
    case FailedRead => Read(None, Some(AuthorityReadFailed))
    case Value(raw) =>
      var snapshot := ValidateSnapshot(raw);
      if snapshot.Some? then Read(snapshot, None) else Read(None, Some(AuthoritySnapshotInvalid))
  }

  function Abs(x: int): int {
    if x < 0 then -x else x
  }

  /** A turn ends without a sample, or with one. */
  datatype Verdict = Abandoned(reason: Reason, cleanupFault: bool) | Recorded(sample: Sample)

  function Judge(turn: Turn, k: nat, current: int, origin: int, startedWall: int, priorWall: int): Verdict {
    var limit := origin + k * INTERVAL + INTERVAL;
    if turn.registration != Returned then Abandoned(ClockInvalid, false)
    else if turn.early != [] then Abandoned(ClockInvalid, turn.cancelThrows)
    else
      var read := ReadResult(OutcomeOf(turn.race[0], limit));
      var reason := if turn.cancelThrows && read.reason.None? then Some(ClockInvalid) else read.reason;
      var cleanupFault := turn.cancelThrows && read.reason.Some?;
      if !turn.actual.Finite? || turn.observed.Unusable? || turn.actual.ms < current then Abandoned(ClockInvalid, false)
      else
        var actual, observed := turn.actual.ms, turn.observed.ms;
        var valid :=
          && reason.None? && actual < limit && observed >= priorWall
          && Abs(observed - startedWall - (actual - origin)) < INTERVAL
          && read.snapshot.Some? && Drained(read.snapshot.value);
        var failure := if valid then None else if reason.Some? then reason else Some(InvalidOrMissedObservation);
        Recorded(Sample(k, k * INTERVAL, current - origin, actual - origin, observed, valid, read.snapshot, failure,
                        cleanupFault))
  }

  function EffectsOf(turn: Turn): Effects {
    if turn.registration != Returned then Effects(0, 0)
    else if turn.early != [] then Effects(0, 1)
    else Effects(1, 1)
  }

  /** A turn ends the schedule with a report, or continues it with a valid sample. */
  datatype Progress = Stops(report: Report) | Continues(sample: Sample)

  function TakeTurn(start: Startup, turn: Turn, prior: int, priorWall: int, samples: seq<Sample>): Progress
    requires start.wall.Canonical? && start.origin.Finite?
  {
    var k, origin, startedWall := |samples| + 1, start.origin.ms, start.wall.ms;
    match Arrive(turn, prior, origin + k * INTERVAL)
    case Failure(reason) => Stops(Report(Fail, Some(startedWall), samples, Some(reason), false))
    case Success(current) =>
      match Judge(turn, k, current, origin, startedWall, priorWall)
      case Abandoned(reason, cleanupFault) =>
        Stops(Report(Fail, Some(startedWall), samples, Some(reason), cleanupFault))
      case Recorded(sample) =>
        if sample.reason.Some? then
          Stops(Report(Fail, Some(startedWall), samples + [sample], sample.reason, sample.cleanupFault))
        else Continues(sample)
  }

  /** The report when these samples are recorded and valid. */
  function ObserveFrom(start: Startup, script: Script, prior: int, priorWall: int, samples: seq<Sample>): Report
    requires start.wall.Canonical? && start.origin.Finite?
    decreases SAMPLES - |samples|
  {
    if |samples| >= SAMPLES then Report(Pass, Some(start.wall.ms), samples, None, false)
    else
      match TakeTurn(start, script[|samples|], prior, priorWall, samples)
      case Stops(report) => report
      case Continues(sample) =>
        ObserveFrom(start, script, start.origin.ms + sample.actualOffset, sample.observedAt, samples + [sample])
  }

  function Observe(start: Startup, script: Script): Report {
    if start.wall.Unusable? then Report(Fail, None, [], Some(ClockInvalid), false)
    else if !start.origin.Finite? then Report(Fail, Some(start.wall.ms), [], Some(ClockInvalid), false)
    else ObserveFrom(start, script, start.origin.ms, start.wall.ms, [])
  }

  /******* The source's loops *******/

  /** Sleeps until the deadline, with every wake checked. */
  method SleepUntil(first: int, deadline: int, wakes: nat -> Wake) returns (r: Result<int, Reason>)
    ensures r == Wait(first, deadline, wakes, 0)
  {
    var current, i := first, 0;
    while current < deadline
      invariant 0 <= i && Wait(first, deadline, wakes, 0) == Wait(current, deadline, wakes, i)
      decreases deadline - current
    {
      match wakes(i) {
        case SleepRejected =>
          return Failure(ClockSleepFailed);
        case Woke(reading) =>
          if !reading.Finite? || reading.ms < current {
            return Failure(ClockInvalid);
          }
          if reading.ms == current {
            return Failure(ClockStalled);
          }
          current, i := reading.ms, i + 1;
      }
    }
    return Success(current);
  }

  /** Waits for sample k and refuses a start that misses its interval. */
  method StartSample(turn: Turn, prior: int, deadline: int) returns (r: Result<int, Reason>)
    ensures r == Arrive(turn, prior, deadline)
  {
    if !turn.first.Finite? || turn.first.ms < prior {
      return Failure(ClockInvalid);
    }
    r := SleepUntil(turn.first.ms, deadline, turn.wakes);
    if r.Success? && r.value >= deadline + INTERVAL {
      return Failure(InvalidOrMissedObservation);
    }
  }

  /** One sample after its start: register the deadline, race the read against it, cancel, judge. */
  method TakeSample(turn: Turn, k: nat, current: int, origin: int, startedWall: int, priorWall: int)
    returns (verdict: Verdict, effects: Effects)
    ensures verdict == Judge(turn, k, current, origin, startedWall, priorWall)
    ensures effects == EffectsOf(turn)
  {
    var deadline := origin + k * INTERVAL;
    var snapshot, reason, cleanupFault := None, None, false;
    var readCalls, cancelCalls := 0, 0;
    var race := new ReadRace(deadline + INTERVAL);
    race.FireEarly(turn.early);
    if turn.registration != Returned {
      race.active := false;
      return Abandoned(ClockInvalid, false), Effects(readCalls, cancelCalls);
    }
    race.registering := false;
    if race.registrationFault {
      race.active := false;
      cancelCalls := cancelCalls + 1;
      return Abandoned(ClockInvalid, turn.cancelThrows), Effects(readCalls, cancelCalls);
    }
    readCalls := readCalls + 1;
    race.Deliver(turn.race);
    var outcome := race.outcome.value;
    match outcome {
      case Expired(failure) => reason := Some(failure);
      case FailedRead => reason := Some(AuthorityReadFailed);
      case Value(raw) =>
        snapshot := ValidateSnapshot(raw);
        if snapshot.None? {
          reason := Some(AuthoritySnapshotInvalid);
        }
    }
    race.active := false;
    cancelCalls := cancelCalls + 1;
    if turn.cancelThrows {
      if reason.None? {
        reason := Some(ClockInvalid);
      } else {
        cleanupFault := true;
      }
    }
    race.Deliver(turn.late);
    assert race.outcome == Some(outcome);
    effects := Effects(readCalls, cancelCalls);
    if !turn.actual.Finite? || turn.observed.Unusable? || turn.actual.ms < current {
      return Abandoned(ClockInvalid, false), effects;
    }
    var actual, observed := turn.actual.ms, turn.observed.ms;
    var valid :=
      && reason.None? && actual < deadline + INTERVAL && observed >= priorWall
      && Abs(observed - startedWall - (actual - origin)) < INTERVAL
      && snapshot.Some? && Drained(snapshot.value);
    var failure := if valid then None else if reason.Some? then reason else Some(InvalidOrMissedObservation);
    verdict := Recorded(Sample(k, k * INTERVAL, current - origin, actual - origin, observed, valid, snapshot, failure,
                               cleanupFault));
  }

  /** The report is settled by the turns still to come. */
  ghost predicate ResumesAt(start: Startup, script: Script, prior: int, priorWall: int, samples: seq<Sample>)
    requires start.wall.Canonical? && start.origin.Finite?
  {
    Observe(start, script) == ObserveFrom(start, script, prior, priorWall, samples)
  }

  lemma TurnTaken(start: Startup, script: Script, prior: int, priorWall: int, samples: seq<Sample>, progress: Progress)
    requires start.wall.Canonical? && start.origin.Finite? && |samples| < SAMPLES
    requires ResumesAt(start, script, prior, priorWall, samples)
    requires progress == TakeTurn(start, script[|samples|], prior, priorWall, samples)
    ensures progress.Stops? ==> Observe(start, script) == progress.report
    ensures progress.Continues? ==>
              ResumesAt(start, script, start.origin.ms + progress.sample.actualOffset, progress.sample.observedAt,
                        samples + [progress.sample])
  {
  }

  /** The loop body: one turn, with its effects if it reached registration. */
  method RunTurn(start: Startup, turn: Turn, prior: int, priorWall: int, samples: seq<Sample>)
    returns (progress: Progress, effects: seq<Effects>)
    requires start.wall.Canonical? && start.origin.Finite?
    ensures progress == TakeTurn(start, turn, prior, priorWall, samples)
    ensures effects == [] || effects == [EffectsOf(turn)]
    ensures progress.Continues? ==> effects != []
    ensures progress.Stops? ==>
              && progress.report.status == Fail
              && |samples| <= |progress.report.samples| <= |samples| + |effects|
  {
    var k, origin, startedWall := |samples| + 1, start.origin.ms, start.wall.ms;
    effects := [];
    var arrival := StartSample(turn, prior, origin + k * INTERVAL);
    if arrival.Failure? {
      return Stops(Report(Fail, Some(startedWall), samples, Some(arrival.error), false)), effects;
    }
    var verdict, done := TakeSample(turn, k, arrival.value, origin, startedWall, priorWall);
    effects := [done];
    if verdict.Abandoned? {
      return Stops(Report(Fail, Some(startedWall), samples, Some(verdict.reason), verdict.cleanupFault)), effects;
    }
    var sample := verdict.sample;
    if sample.reason.Some? {
      progress := Stops(Report(Fail, Some(startedWall), samples + [sample], sample.reason, sample.cleanupFault));
    } else {
      progress := Continues(sample);
    }
  }

  /** The trace lists the effects of the first turns. */
  ghost predicate Traced(script: Script, trace: seq<Effects>) {
    |trace| <= SAMPLES && forall j :: 0 <= j < |trace| ==> trace[j] == EffectsOf(script[j])
  }

  lemma TracedSnoc(script: Script, trace: seq<Effects>, effects: seq<Effects>)
    requires Traced(script, trace) && |trace| < SAMPLES
    requires effects == [] || effects == [EffectsOf(script[|trace|])]
    ensures Traced(script, trace + effects)
  {
  }

  /** The whole schedule.  The trace lists the effects of every turn that reached registration. */
  method ObserveDrain(start: Startup, script: Script) returns (report: Report, trace: seq<Effects>)
    ensures report == Observe(start, script)
    ensures |report.samples| <= |trace| <= |report.samples| + 1
    ensures Traced(script, trace)
    ensures report.status == Pass ==> |trace| == |report.samples|
  {
    trace := [];
    if start.wall.Unusable? {
      return Report(Fail, None, [], Some(ClockInvalid), false), trace;
    }
    if !start.origin.Finite? {
      return Report(Fail, Some(start.wall.ms), [], Some(ClockInvalid), false), trace;
    }
    var priorWall, prior := start.wall.ms, start.origin.ms;
    var samples: seq<Sample> := [];
    for k := 1 to SAMPLES + 1
      invariant |samples| == |trace| == k - 1
      invariant Traced(script, trace)
      invariant ResumesAt(start, script, prior, priorWall, samples)
    {
      var progress, effects := RunTurn(start, script[k - 1], prior, priorWall, samples);
      TurnTaken(start, script, prior, priorWall, samples, progress);
      TracedSnoc(script, trace, effects);
      trace := trace + effects;
      if progress.Stops? {
        return progress.report, trace;
      }
      var sample := progress.sample;
      samples := samples + [sample];
      prior, priorWall := start.origin.ms + sample.actualOffset, sample.observedAt;
    }
    return Report(Pass, Some(start.wall.ms), samples, None, false), trace;
  }
}
