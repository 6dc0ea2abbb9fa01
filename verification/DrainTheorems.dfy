/**
 What a drain report means, for every behaviour of clock, sleeper, scheduler and reader.
 */
module DrainTheorems {
  import opened Wrappers
  import opened DrainObservation

  /******* Waiting, declaratively *******/

  /** The clock reading after n wakes. */
  ghost function After(first: int, wakes: nat -> Wake, n: nat): Reading {
    if n == 0 then Finite(first) else
    match wakes(n - 1)
    case SleepRejected => NotFinite
    case Woke(reading) => reading
  }

  /** Every one of the first n wakes moves a clock that has not reached the deadline forward; then it has. */
  ghost predicate Lands(first: int, deadline: int, wakes: nat -> Wake, n: nat, current: int) {
    && (forall i :: 0 <= i <= n ==> After(first, wakes, i).Finite?)
    && (forall i :: 0 <= i < n ==>
          After(first, wakes, i).ms < deadline && After(first, wakes, i).ms < After(first, wakes, i + 1).ms)
    && deadline <= current == After(first, wakes, n).ms
  }

  lemma {:induction false} WaitLands(first: int, deadline: int, wakes: nat -> Wake, i: nat) returns (n: nat)
    requires forall j :: 0 <= j <= i ==> After(first, wakes, j).Finite?
    requires forall j :: 0 <= j < i ==>
               After(first, wakes, j).ms < deadline && After(first, wakes, j).ms < After(first, wakes, j + 1).ms
    requires Wait(After(first, wakes, i).ms, deadline, wakes, i).Success?
    ensures Lands(first, deadline, wakes, n, Wait(After(first, wakes, i).ms, deadline, wakes, i).value)
    decreases deadline - After(first, wakes, i).ms
  {
    if After(first, wakes, i).ms >= deadline {
      n := i;
    } else {
      n := WaitLands(first, deadline, wakes, i + 1);
    }
  }

  lemma {:induction false} LandingIsWait(first: int, deadline: int, wakes: nat -> Wake, n: nat, current: int, i: nat)
    requires Lands(first, deadline, wakes, n, current) && i <= n
    ensures Wait(After(first, wakes, i).ms, deadline, wakes, i) == Success(current)
    decreases n - i
  {
    if i < n {
      LandingIsWait(first, deadline, wakes, n, current, i + 1);
    }
  }

  /** The sleeping loop succeeds exactly when the wakes carry a moving clock to the deadline. */
  lemma WaitIff(first: int, deadline: int, wakes: nat -> Wake, current: int)
    ensures Wait(first, deadline, wakes, 0) == Success(current) <==>
            exists n :: Lands(first, deadline, wakes, n, current)
  {
    if Wait(first, deadline, wakes, 0) == Success(current) {
      var n := WaitLands(first, deadline, wakes, 0);
    }
    if n :| Lands(first, deadline, wakes, n, current) {
      LandingIsWait(first, deadline, wakes, n, current, 0);
    }
  }

  /******* The meaning of PASS *******/

  ghost function PriorReading(start: Startup, script: Script, j: nat): Reading
    requires j <= SAMPLES
  {
    if j == 0 then start.origin else script[j - 1].actual
  }

  ghost function PriorWall(start: Startup, script: Script, j: nat): Wall
    requires j <= SAMPLES
  {
    if j == 0 then start.wall else script[j - 1].observed
  }

  /** The wakes carry the turn's first reading to its deadline; this is the first reading past it. */
  ghost predicate Arrives(turn: Turn, deadline: int, current: int) {
    turn.first.Finite? && exists n :: Lands(turn.first.ms, deadline, turn.wakes, n, current)
  }

  lemma ArrivesIff(turn: Turn, deadline: int, current: int)
    requires turn.first.Finite?
    ensures Arrives(turn, deadline, current) <==> Wait(turn.first.ms, deadline, turn.wakes, 0) == Success(current)
  {
    WaitIff(turn.first.ms, deadline, turn.wakes, current);
  }

  /** Admission is closed, every authority agrees that it has drained, and nothing is counted. */
  const QUIET := Snapshot(true, 0, 0, 0, 0, true, true, true)

  /** Both clocks have moved by the same time since the start, give or take less than fifteen seconds. */
  ghost predicate Together(start: Startup, actual: int, observed: int)
    requires start.wall.Canonical? && start.origin.Finite?
  {
    -15_000 < (observed - start.wall.ms) - (actual - start.origin.ms) < 15_000
  }

  /** Sample j+1 goes well: it starts in its interval, reads a drained authority, and ends in the interval. */
  ghost predicate GoodTurn(start: Startup, script: Script, j: nat)
    requires start.wall.Canonical? && start.origin.Finite? && j < SAMPLES
  {
    var turn, prior, priorWall := script[j], PriorReading(start, script, j), PriorWall(start, script, j);
    var deadline := start.origin.ms + (j + 1) * INTERVAL;
    && prior.Finite? && priorWall.Canonical?
    && turn.first.Finite? && prior.ms <= turn.first.ms
    && turn.registration == Returned && turn.early == [] && !turn.cancelThrows
    && (match turn.race[0]
        case ReadResolved(Shaped(snapshot)) => snapshot == QUIET
        case _ => false)
    && turn.actual.Finite? && turn.observed.Canonical?
    && (exists current :: Arrives(turn, deadline, current) && current <= turn.actual.ms < deadline + INTERVAL)
    && priorWall.ms <= turn.observed.ms
    && Together(start, turn.actual.ms, turn.observed.ms)
  }

  /** A turn records a valid sample exactly when it is good. */
  lemma GoodTurnIffValidSample(start: Startup, script: Script, j: nat)
    requires start.wall.Canonical? && start.origin.Finite? && j < SAMPLES
    requires PriorReading(start, script, j).Finite? && PriorWall(start, script, j).Canonical?
    ensures var arrival := Arrive(script[j], PriorReading(start, script, j).ms, start.origin.ms + (j + 1) * INTERVAL);
            GoodTurn(start, script, j) <==>
            arrival.Success? &&
            var verdict := Judge(script[j], j + 1, arrival.value, start.origin.ms, start.wall.ms,
                                 PriorWall(start, script, j).ms);
            verdict.Recorded? && verdict.sample.reason.None?
  {
    var turn, deadline := script[j], start.origin.ms + (j + 1) * INTERVAL;
    if turn.first.Finite? {
      forall current
        ensures Arrives(turn, deadline, current) <==> Wait(turn.first.ms, deadline, turn.wakes, 0) == Success(current)
      {
        ArrivesIff(turn, deadline, current);
      }
    }
  }

  lemma GoodTurnContinues(start: Startup, script: Script, samples: seq<Sample>)
    requires start.wall.Canonical? && start.origin.Finite? && |samples| < SAMPLES
    requires PriorReading(start, script, |samples|).Finite? && PriorWall(start, script, |samples|).Canonical?
    ensures var j := |samples|;
            var turned := TakeTurn(start, script[j], PriorReading(start, script, j).ms, PriorWall(start, script, j).ms,
                                   samples);
            && (GoodTurn(start, script, j) <==> turned.Continues?)
            && (turned.Stops? ==> turned.report.status == Fail)
            && (turned.Continues? ==>
                  && script[j].actual == Finite(start.origin.ms + turned.sample.actualOffset)
                  && script[j].observed == Canonical(turned.sample.observedAt))
  {
    GoodTurnIffValidSample(start, script, |samples|);
  }

  lemma {:induction false} PassFromIff(start: Startup, script: Script, samples: seq<Sample>)
    requires start.wall.Canonical? && start.origin.Finite? && |samples| <= SAMPLES
    requires PriorReading(start, script, |samples|).Finite? && PriorWall(start, script, |samples|).Canonical?
    ensures var j := |samples|;
            ObserveFrom(start, script, PriorReading(start, script, j).ms, PriorWall(start, script, j).ms, samples)
            .status == Pass
            <==> forall i :: j <= i < SAMPLES ==> GoodTurn(start, script, i)
    decreases SAMPLES - |samples|
  {
    var j := |samples|;
    if j < SAMPLES {
      GoodTurnContinues(start, script, samples);
      if GoodTurn(start, script, j) {
        var prior, priorWall := PriorReading(start, script, j).ms, PriorWall(start, script, j).ms;
        PassFromIff(start, script, samples + [TakeTurn(start, script[j], prior, priorWall, samples).sample]);
      }
    }
  }

  /** PASS is exactly a usable start and forty good turns. */
  lemma PassIff(start: Startup, script: Script)
    ensures Observe(start, script).status == Pass <==>
            && start.wall.Canonical? && start.origin.Finite?
            && forall j :: 0 <= j < SAMPLES ==> GoodTurn(start, script, j)
  {
    if start.wall.Canonical? && start.origin.Finite? {
      PassFromIff(start, script, []);
    }
  }

  /******* The recorded samples *******/

  ghost function WallBefore(start: Startup, samples: seq<Sample>, j: nat): int
    requires start.wall.Canonical? && j < |samples|
  {
    if j == 0 then start.wall.ms else samples[j - 1].observedAt
  }

  /** Sample j is a timely, drained observation of the turn's own answers. */
  ghost predicate Sound(start: Startup, script: Script, samples: seq<Sample>, j: nat)
    requires start.wall.Canonical? && start.origin.Finite? && j < |samples| <= SAMPLES
  {
    var s, turn := samples[j], script[j];
    && s.valid && s.reason.None? && !s.cleanupFault
    && s.scheduledOffset <= s.startedOffset <= s.actualOffset < s.scheduledOffset + INTERVAL
    && turn.actual == Finite(start.origin.ms + s.actualOffset) && turn.observed == Canonical(s.observedAt)
    && WallBefore(start, samples, j) <= s.observedAt
    && Together(start, start.origin.ms + s.actualOffset, s.observedAt)
    && Arrives(turn, start.origin.ms + s.scheduledOffset, start.origin.ms + s.startedOffset)
    && s.snapshot == Some(QUIET) && turn.race[0] == ReadResolved(Shaped(QUIET))
  }

  ghost predicate Numbered(samples: seq<Sample>) {
    forall j :: 0 <= j < |samples| ==> samples[j].k == j + 1 && samples[j].scheduledOffset == (j + 1) * 15_000
  }

  ghost predicate AllSound(start: Startup, script: Script, samples: seq<Sample>, n: nat)
    requires start.wall.Canonical? && start.origin.Finite? && n <= |samples| <= SAMPLES
  {
    forall j :: 0 <= j < n ==> Sound(start, script, samples, j)
  }

  /** All samples but possibly the last are sound; the last is unsound only as the cause of a FAIL. */
  ghost predicate WellShaped(start: Startup, script: Script, r: Report)
    requires start.wall.Canonical? && start.origin.Finite?
  {
    var n := |r.samples|;
    && n <= SAMPLES && Numbered(r.samples) && r.startedAt == Some(start.wall.ms)
    && (r.status == Pass ==> n == SAMPLES && r.reason.None? && !r.cleanupFault && AllSound(start, script, r.samples, n))
    && (r.status == Fail ==>
          && r.reason.Some?
          && (|| AllSound(start, script, r.samples, n)
              || (n > 0 && AllSound(start, script, r.samples, n - 1) && EndsIn(r, r.samples[n - 1]))))
  }

  /** The report fails for the reason its invalid last sample gives. */
  ghost predicate EndsIn(r: Report, last: Sample) {
    !last.valid && last.reason.Some? && r.reason == last.reason && r.cleanupFault == last.cleanupFault
  }

  /** A good turn adds a sound sample, and the schedule goes on. */
  lemma GoodStep(start: Startup, script: Script, samples: seq<Sample>) returns (next: Sample)
    requires start.wall.Canonical? && start.origin.Finite? && |samples| < SAMPLES
    requires PriorReading(start, script, |samples|).Finite? && PriorWall(start, script, |samples|).Canonical?
    requires AllSound(start, script, samples, |samples|) && GoodTurn(start, script, |samples|)
    ensures AllSound(start, script, samples + [next], |samples| + 1)
    ensures next.k == |samples| + 1 && next.scheduledOffset == (|samples| + 1) * INTERVAL
    ensures PriorReading(start, script, |samples| + 1).Finite? && PriorWall(start, script, |samples| + 1).Canonical?
    ensures var n := |samples|;
            ObserveFrom(start, script, PriorReading(start, script, n).ms, PriorWall(start, script, n).ms, samples) ==
            ObserveFrom(start, script, PriorReading(start, script, n + 1).ms, PriorWall(start, script, n + 1).ms,
                        samples + [next])
  {
    var n := |samples|;
    GoodTurnContinues(start, script, samples);
    next := TakeTurn(start, script[n], PriorReading(start, script, n).ms, PriorWall(start, script, n).ms, samples).sample;
    RecordedIsSound(start, script, samples, next);
    SoundSnoc(start, script, samples, next);
  }

  lemma {:induction false} ReportFromShape(start: Startup, script: Script, samples: seq<Sample>)
    requires start.wall.Canonical? && start.origin.Finite? && |samples| <= SAMPLES && Numbered(samples)
    requires PriorReading(start, script, |samples|).Finite? && PriorWall(start, script, |samples|).Canonical?
    requires AllSound(start, script, samples, |samples|)
    ensures var j := |samples|;
            WellShaped(start, script, ObserveFrom(start, script, PriorReading(start, script, j).ms,
                                                  PriorWall(start, script, j).ms, samples))
    decreases SAMPLES - |samples|
  {
    var j := |samples|;
    if j < SAMPLES {
      if GoodTurn(start, script, j) {
        var next := GoodStep(start, script, samples);
        ReportFromShape(start, script, samples + [next]);
      } else {
        GoodTurnContinues(start, script, samples);
        StopIsShaped(start, script, samples,
                     TakeTurn(start, script[j], PriorReading(start, script, j).ms, PriorWall(start, script, j).ms, samples)
                     .report);
      }
    }
  }

  lemma StopIsShaped(start: Startup, script: Script, samples: seq<Sample>, report: Report)
    requires start.wall.Canonical? && start.origin.Finite? && |samples| < SAMPLES && Numbered(samples)
    requires PriorReading(start, script, |samples|).Finite? && PriorWall(start, script, |samples|).Canonical?
    requires AllSound(start, script, samples, |samples|)
    requires var j := |samples|;
             TakeTurn(start, script[j], PriorReading(start, script, j).ms, PriorWall(start, script, j).ms, samples)
             == Stops(report)
    ensures WellShaped(start, script, report)
  {
    if |report.samples| > |samples| {
      SoundSnoc(start, script, samples, report.samples[|samples|]);
    }
  }

  lemma RecordedIsSound(start: Startup, script: Script, samples: seq<Sample>, sample: Sample)
    requires start.wall.Canonical? && start.origin.Finite? && |samples| < SAMPLES
    requires PriorReading(start, script, |samples|).Finite? && PriorWall(start, script, |samples|).Canonical?
    requires AllSound(start, script, samples, |samples|)
    requires var j := |samples|;
             TakeTurn(start, script[j], PriorReading(start, script, j).ms, PriorWall(start, script, j).ms, samples)
             == Continues(sample)
    ensures sample.k == |samples| + 1 && sample.scheduledOffset == (|samples| + 1) * INTERVAL
    ensures Sound(start, script, samples + [sample], |samples|)
  {
    var j := |samples|;
    WaitReaches(script[j].first.ms, start.origin.ms + (j + 1) * INTERVAL, script[j].wakes, 0);
    ArrivesIff(script[j], start.origin.ms + (j + 1) * INTERVAL, start.origin.ms + sample.startedOffset);
    assert j > 0 ==> Sound(start, script, samples, j - 1);
  }

  lemma SoundSnoc(start: Startup, script: Script, samples: seq<Sample>, last: Sample)
    requires start.wall.Canonical? && start.origin.Finite? && |samples| < SAMPLES
    requires AllSound(start, script, samples, |samples|)
    ensures AllSound(start, script, samples + [last], |samples|)
  {
    forall j | 0 <= j < |samples| ensures Sound(start, script, samples + [last], j) {
      assert Sound(start, script, samples, j);
    }
  }

  lemma {:induction false} WaitReaches(current: int, deadline: int, wakes: nat -> Wake, i: nat)
    ensures Wait(current, deadline, wakes, i).Success? ==> deadline <= Wait(current, deadline, wakes, i).value
    decreases deadline - current
  {
    if current < deadline && wakes(i).Woke? && wakes(i).reading.Finite? && wakes(i).reading.ms > current {
      WaitReaches(wakes(i).reading.ms, deadline, wakes, i + 1);
    }
  }

  lemma ReportShape(start: Startup, script: Script)
    requires start.wall.Canonical? && start.origin.Finite?
    ensures WellShaped(start, script, Observe(start, script))
  {
    ReportFromShape(start, script, []);
  }

  /** What a PASS guarantees, sample by sample. */
  lemma PassGuarantees(start: Startup, script: Script)
    requires Observe(start, script).status == Pass
    ensures var r := Observe(start, script);
            && r.startedAt == Some(start.wall.ms) && r.reason.None? && !r.cleanupFault
            && |r.samples| == 40 && Numbered(r.samples)
            && (forall j :: 0 <= j < SAMPLES ==> Sound(start, script, r.samples, j))
            && (forall j :: 0 < j < SAMPLES ==>
                  0 <= r.samples[j].actualOffset - r.samples[j - 1].actualOffset < 2 * INTERVAL)
            && (forall turn | turn in script :: EffectsOf(turn) == Effects(1, 1))
  {
    ReportShape(start, script);
    PassIff(start, script);
    var samples := Observe(start, script).samples;
    forall j | 0 < j < SAMPLES
      ensures 0 <= samples[j].actualOffset - samples[j - 1].actualOffset < 2 * INTERVAL
    {
      assert Sound(start, script, samples, j) && Sound(start, script, samples, j - 1);
      assert GoodTurn(start, script, j);
    }
    forall turn | turn in script ensures EffectsOf(turn) == Effects(1, 1) {
      var j :| 0 <= j < SAMPLES && script[j] == turn;
      assert GoodTurn(start, script, j);
    }
  }

  /** A FAIL before the schedule starts records nothing; afterwards only the last sample can be unsound. */
  lemma FailShape(start: Startup, script: Script)
    requires Observe(start, script).status == Fail
    ensures var r := Observe(start, script);
            && r.reason.Some? && Numbered(r.samples) && |r.samples| <= SAMPLES
            && r.startedAt == (if start.wall.Canonical? then Some(start.wall.ms) else None)
            && (start.wall.Unusable? || !start.origin.Finite? ==>
                  r.samples == [] && r.reason == Some(ClockInvalid) && !r.cleanupFault)
            && (start.wall.Canonical? && start.origin.Finite? && r.samples != [] ==>
                  var n := |r.samples|;
                  && AllSound(start, script, r.samples, n - 1)
                  && (Sound(start, script, r.samples, n - 1) || EndsIn(r, r.samples[n - 1])))
  {
    if start.wall.Canonical? && start.origin.Finite? {
      ReportShape(start, script);
    }
  }

  /******* First event wins *******/

  /** The same turn but for what happens after the first event of the race. */
  ghost predicate SameUntilSettled(a: Turn, b: Turn) {
    && a.race[0] == b.race[0]
    && a.(race := b.race, late := b.late) == b
  }

  lemma SameProgress(start: Startup, a: Turn, b: Turn, prior: int, priorWall: int, samples: seq<Sample>)
    requires start.wall.Canonical? && start.origin.Finite?
    requires SameUntilSettled(a, b)
    ensures TakeTurn(start, a, prior, priorWall, samples) == TakeTurn(start, b, prior, priorWall, samples)
  {
    assert a.first == b.first && a.wakes == b.wakes;
  }

  lemma {:induction false} LateEventsIrrelevantFrom(start: Startup, one: Script, two: Script, prior: int, priorWall: int,
                                                    samples: seq<Sample>)
    requires start.wall.Canonical? && start.origin.Finite?
    requires forall j :: 0 <= j < SAMPLES ==> SameUntilSettled(one[j], two[j])
    ensures ObserveFrom(start, one, prior, priorWall, samples) == ObserveFrom(start, two, prior, priorWall, samples)
    decreases SAMPLES - |samples|
  {
    var j := |samples|;
    if j < SAMPLES {
      SameProgress(start, one[j], two[j], prior, priorWall, samples);
      var turned := TakeTurn(start, one[j], prior, priorWall, samples);
      if turned.Continues? {
        LateEventsIrrelevantFrom(start, one, two, start.origin.ms + turned.sample.actualOffset, turned.sample.observedAt,
                                 samples + [turned.sample]);
      }
    }
  }

  /** In every sample the first event fixes the outcome: later reads, failures and deadlines change nothing. */
  lemma LateEventsIrrelevant(start: Startup, one: Script, two: Script)
    requires forall j :: 0 <= j < SAMPLES ==> SameUntilSettled(one[j], two[j])
    ensures Observe(start, one) == Observe(start, two)
  {
    if start.wall.Canonical? && start.origin.Finite? {
      LateEventsIrrelevantFrom(start, one, two, start.origin.ms, start.wall.ms, []);
    }
  }
}
