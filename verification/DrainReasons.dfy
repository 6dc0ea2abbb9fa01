/**
 Why a drain observation fails: each reason of a FAIL, told from the answers of clock, sleeper, scheduler and
 reader alone, and the exact report that goes with it.
 */
module DrainReasons {
  import opened Wrappers
  import opened DrainObservation
  import opened DrainTheorems

  /******* No start *******/

  /** n wakes moved the clock forward, and it is still before the deadline. */
  ghost predicate Short(first: int, deadline: int, wakes: nat -> Wake, n: nat) {
    && (forall i :: 0 <= i <= n ==> After(first, wakes, i).Finite? && After(first, wakes, i).ms < deadline)
    && forall i :: 0 <= i < n ==> After(first, wakes, i).ms < After(first, wakes, i + 1).ms
  }

  /** The next wake ends the wait: a rejected sleep, an unusable clock, or one that stood still. */
  ghost predicate WakeFails(first: int, deadline: int, wakes: nat -> Wake, n: nat, reason: Reason) {
    && Short(first, deadline, wakes, n)
    && match wakes(n)
       case SleepRejected => reason == ClockSleepFailed
       case Woke(reading) =>
         if reading.Finite? && reading.ms == After(first, wakes, n).ms then reason == ClockStalled
         else reason == ClockInvalid && (reading.Finite? ==> reading.ms < After(first, wakes, n).ms)
  }

  lemma {:induction false} WaitStopsShort(first: int, deadline: int, wakes: nat -> Wake, i: nat) returns (n: nat)
    requires forall j :: 0 <= j <= i ==> After(first, wakes, j).Finite?
    requires forall j :: 0 <= j < i ==>
               After(first, wakes, j).ms < deadline && After(first, wakes, j).ms < After(first, wakes, j + 1).ms
    requires Wait(After(first, wakes, i).ms, deadline, wakes, i).Failure?
    ensures WakeFails(first, deadline, wakes, n, Wait(After(first, wakes, i).ms, deadline, wakes, i).error)
    decreases deadline - After(first, wakes, i).ms
  {
    if wakes(i).Woke? && wakes(i).reading.Finite? && wakes(i).reading.ms > After(first, wakes, i).ms {
      n := WaitStopsShort(first, deadline, wakes, i + 1);
    } else {
      n := i;
    }
  }

  lemma {:induction false} ShortWaits(first: int, deadline: int, wakes: nat -> Wake, n: nat, reason: Reason, i: nat)
    requires WakeFails(first, deadline, wakes, n, reason) && i <= n
    ensures Wait(After(first, wakes, i).ms, deadline, wakes, i) == Failure(reason)
    decreases n - i
  {
    if i < n {
      ShortWaits(first, deadline, wakes, n, reason, i + 1);
    }
  }

  ghost predicate SomeWakeFails(first: int, deadline: int, wakes: nat -> Wake, reason: Reason) {
    exists n :: WakeFails(first, deadline, wakes, n, reason)
  }

  lemma WaitFailsIff(first: int, deadline: int, wakes: nat -> Wake, reason: Reason)
    ensures Wait(first, deadline, wakes, 0) == Failure(reason) <==> SomeWakeFails(first, deadline, wakes, reason)
  {
    if Wait(first, deadline, wakes, 0) == Failure(reason) {
      var n := WaitStopsShort(first, deadline, wakes, 0);
    }
    if n :| WakeFails(first, deadline, wakes, n, reason) {
      ShortWaits(first, deadline, wakes, n, reason, 0);
    }
  }

  /** The sample does not start: the clock went back, the wait failed, or a whole interval was missed. */
  ghost predicate NoStart(turn: Turn, prior: int, deadline: int, reason: Reason) {
    if !turn.first.Finite? || turn.first.ms < prior then reason == ClockInvalid
    else
      || SomeWakeFails(turn.first.ms, deadline, turn.wakes, reason)
      || (reason == InvalidOrMissedObservation
          && exists current :: Arrives(turn, deadline, current) && current >= deadline + 15_000)
  }

  /** The sample starts at this reading of the clock. */
  ghost predicate StartsAt(turn: Turn, prior: int, deadline: int, current: int) {
    turn.first.Finite? && prior <= turn.first.ms && Arrives(turn, deadline, current) && current < deadline + 15_000
  }

  lemma ArriveIff(turn: Turn, prior: int, deadline: int)
    ensures forall reason :: Arrive(turn, prior, deadline) == Failure(reason) <==> NoStart(turn, prior, deadline, reason)
    ensures forall current :: Arrive(turn, prior, deadline) == Success(current) <==> StartsAt(turn, prior, deadline, current)
  {
    if turn.first.Finite? {
      forall reason
        ensures Wait(turn.first.ms, deadline, turn.wakes, 0) == Failure(reason) <==>
                SomeWakeFails(turn.first.ms, deadline, turn.wakes, reason)
      {
        WaitFailsIff(turn.first.ms, deadline, turn.wakes, reason);
      }
      forall current
        ensures Arrives(turn, deadline, current) <==> Wait(turn.first.ms, deadline, turn.wakes, 0) == Success(current)
      {
        ArrivesIff(turn, deadline, current);
      }
    }
  }

  /******* No sample *******/

  /** The sample started but is not recorded, which only an unusable clock or scheduler causes. */
  ghost predicate NoSample(turn: Turn, current: int, reason: Reason, cleanupFault: bool) {
    && reason == ClockInvalid
    && if turn.registration.Returned? && turn.early != [] then cleanupFault == turn.cancelThrows
       else
         && !cleanupFault
         && (turn.registration.Returned? ==> !turn.actual.Finite? || !turn.observed.Canonical? || turn.actual.ms < current)
  }

  lemma AbandonedIff(turn: Turn, k: nat, current: int, origin: int, startedWall: int, priorWall: int, reason: Reason,
                     cleanupFault: bool)
    ensures Judge(turn, k, current, origin, startedWall, priorWall) == Abandoned(reason, cleanupFault) <==>
            NoSample(turn, current, reason, cleanupFault)
  {
  }

  /******* A sample that is not valid *******/

  /** Counters are what JavaScript calls safe integers, and not negative. */
  predicate Counted(s: Snapshot) {
    && 0 <= s.activeRuns <= 9_007_199_254_740_991 && 0 <= s.pendingEffects <= 9_007_199_254_740_991
    && 0 <= s.openReservations <= 9_007_199_254_740_991 && 0 <= s.reconciliationRequired <= 9_007_199_254_740_991
  }

  /** The snapshot that the first event of the race brings, if it brings a usable one. */
  ghost function Seen(event: RaceEvent): Option<Snapshot> {
    match event
    case ReadResolved(Shaped(s)) => if Counted(s) then Some(s) else None
    case _ => None
  }

  /** What the first event of the race says against the read. */
  ghost predicate ReadFault(event: RaceEvent, limit: int, reason: Reason) {
    match event
    case ReadResolved(_) => Seen(event).None? && reason == AuthoritySnapshotInvalid
    case ReadFailed => reason == AuthorityReadFailed
    case DeadlineFired(Finite(ms)) => reason == if ms < limit then ClockInvalid else AuthorityReadTimeout
    case DeadlineFired(_) => reason == ClockInvalid
  }

  /** A usable snapshot came too late, shows activity, or was taken while the clocks disagreed. */
  ghost predicate Unconvincing(start: Startup, turn: Turn, priorWall: int, limit: int)
    requires start.wall.Canonical? && start.origin.Finite? && turn.actual.Finite? && turn.observed.Canonical?
  {
    || turn.actual.ms >= limit || turn.observed.ms < priorWall
    || !Together(start, turn.actual.ms, turn.observed.ms)
    || Seen(turn.race[0]) != Some(QUIET)
  }

  /** The sample is recorded with a reason against it. */
  ghost predicate BadSample(start: Startup, turn: Turn, k: nat, current: int, priorWall: int, sample: Sample)
    requires start.wall.Canonical? && start.origin.Finite?
  {
    var limit := start.origin.ms + (k + 1) * 15_000;
    && turn.registration.Returned? && turn.early == []
    && turn.actual.Finite? && turn.observed.Canonical? && current <= turn.actual.ms
    && sample.reason.Some?
    && sample == Sample(k, k * 15_000, current - start.origin.ms, turn.actual.ms - start.origin.ms, turn.observed.ms,
                        false, Seen(turn.race[0]), sample.reason, sample.cleanupFault)
    && if Seen(turn.race[0]).None? then
         ReadFault(turn.race[0], limit, sample.reason.value) && sample.cleanupFault == turn.cancelThrows
       else if turn.cancelThrows then sample.reason == Some(ClockInvalid) && !sample.cleanupFault
       else
         && Unconvincing(start, turn, priorWall, limit)
         && sample.reason == Some(InvalidOrMissedObservation) && !sample.cleanupFault
  }

  lemma SeenIff(raw: RawSnapshot)
    ensures Seen(ReadResolved(raw)) == ValidateSnapshot(raw)
  {
  }

  lemma RecordedBadIff(start: Startup, turn: Turn, k: nat, current: int, priorWall: int, sample: Sample)
    requires start.wall.Canonical? && start.origin.Finite?
    ensures Judge(turn, k, current, start.origin.ms, start.wall.ms, priorWall) == Recorded(sample) && sample.reason.Some?
            <==> BadSample(start, turn, k, current, priorWall, sample)
  {
    if turn.race[0].ReadResolved? {
      SeenIff(turn.race[0].value);
    }
  }

  /******* The reason of a FAIL *******/

  /** Turn j ends the schedule for this reason, with this last sample. */
  ghost predicate FaultAt(start: Startup, script: Script, j: nat, reason: Reason, cleanupFault: bool,
                          sample: Option<Sample>)
    requires start.wall.Canonical? && start.origin.Finite? && j < SAMPLES
  {
    var turn, prior, priorWall := script[j], PriorReading(start, script, j), PriorWall(start, script, j);
    var deadline := start.origin.ms + (j + 1) * 15_000;
    && prior.Finite? && priorWall.Canonical?
    && match sample
       case None =>
         || (NoStart(turn, prior.ms, deadline, reason) && !cleanupFault)
         || exists current ::
              StartsAt(turn, prior.ms, deadline, current) && NoSample(turn, current, reason, cleanupFault)
       case Some(last) =>
         && last.reason == Some(reason) && last.cleanupFault == cleanupFault
         && exists current ::
              StartsAt(turn, prior.ms, deadline, current) && BadSample(start, turn, j + 1, current, priorWall.ms, last)
  }

  /** The report of a FAIL after these samples. */
  ghost function Failed(start: Startup, samples: seq<Sample>, reason: Reason, cleanupFault: bool, sample: Option<Sample>)
    : Report
    requires start.wall.Canonical?
  {
    Report(Fail, Some(start.wall.ms), if sample.Some? then samples + [sample.value] else samples, Some(reason),
           cleanupFault)
  }

  /** What a turn makes of its environment, given its start. */
  lemma StopsIff(start: Startup, turn: Turn, prior: int, priorWall: int, samples: seq<Sample>, reason: Reason,
                 cleanupFault: bool, sample: Option<Sample>)
    requires start.wall.Canonical? && start.origin.Finite?
    ensures var k := |samples| + 1;
            var arrival := Arrive(turn, prior, start.origin.ms + k * 15_000);
            TakeTurn(start, turn, prior, priorWall, samples) ==
            Stops(Failed(start, samples, reason, cleanupFault, sample)) <==>
            match sample
            case None =>
              || (arrival == Failure(reason) && !cleanupFault)
              || (arrival.Success? &&
                  Judge(turn, k, arrival.value, start.origin.ms, start.wall.ms, priorWall) == Abandoned(reason, cleanupFault))
            case Some(last) =>
              && arrival.Success? && last.reason == Some(reason) && last.cleanupFault == cleanupFault
              && Judge(turn, k, arrival.value, start.origin.ms, start.wall.ms, priorWall) == Recorded(last)
  {
    if sample.Some? {
      LongerBy(samples, sample.value);
    }
    var k := |samples| + 1;
    var arrival := Arrive(turn, prior, start.origin.ms + k * INTERVAL);
    if arrival.Success? {
      var verdict := Judge(turn, k, arrival.value, start.origin.ms, start.wall.ms, priorWall);
      if verdict.Recorded? {
        LongerBy(samples, verdict.sample);
      }
    }
  }

  lemma LongerBy(samples: seq<Sample>, sample: Sample)
    ensures samples + [sample] != samples && (samples + [sample])[|samples|] == sample
  {
    assert |samples + [sample]| != |samples|;
  }

  lemma WithoutSampleIff(turn: Turn, k: nat, prior: int, origin: int, startedWall: int, priorWall: int, reason: Reason,
                         cleanupFault: bool)
    ensures var deadline := origin + k * 15_000;
            var arrival := Arrive(turn, prior, deadline);
            (|| (arrival == Failure(reason) && !cleanupFault)
             || (arrival.Success? &&
                 Judge(turn, k, arrival.value, origin, startedWall, priorWall) == Abandoned(reason, cleanupFault)))
            <==>
            (|| (NoStart(turn, prior, deadline, reason) && !cleanupFault)
             || exists current :: StartsAt(turn, prior, deadline, current) && NoSample(turn, current, reason, cleanupFault))
  {
    ArriveIff(turn, prior, origin + k * 15_000);
    var arrival := Arrive(turn, prior, origin + k * 15_000);
    if arrival.Success? {
      AbandonedIff(turn, k, arrival.value, origin, startedWall, priorWall, reason, cleanupFault);
    }
  }

  lemma WithSampleIff(start: Startup, turn: Turn, k: nat, prior: int, priorWall: int, last: Sample)
    requires start.wall.Canonical? && start.origin.Finite? && last.reason.Some?
    ensures var deadline := start.origin.ms + k * 15_000;
            var arrival := Arrive(turn, prior, deadline);
            arrival.Success? && Judge(turn, k, arrival.value, start.origin.ms, start.wall.ms, priorWall) == Recorded(last)
            <==>
            exists current :: StartsAt(turn, prior, deadline, current) && BadSample(start, turn, k, current, priorWall, last)
  {
    ArriveIff(turn, prior, start.origin.ms + k * 15_000);
    var arrival := Arrive(turn, prior, start.origin.ms + k * 15_000);
    if arrival.Success? {
      RecordedBadIff(start, turn, k, arrival.value, priorWall, last);
    }
  }

  lemma TurnFailsIff(start: Startup, script: Script, samples: seq<Sample>, reason: Reason, cleanupFault: bool,
                     sample: Option<Sample>)
    requires start.wall.Canonical? && start.origin.Finite? && |samples| < SAMPLES
    requires PriorReading(start, script, |samples|).Finite? && PriorWall(start, script, |samples|).Canonical?
    ensures var j := |samples|;
            TakeTurn(start, script[j], PriorReading(start, script, j).ms, PriorWall(start, script, j).ms, samples) ==
            Stops(Failed(start, samples, reason, cleanupFault, sample)) <==>
            FaultAt(start, script, j, reason, cleanupFault, sample)
  {
    var j := |samples|;
    var turn, prior, priorWall := script[j], PriorReading(start, script, j).ms, PriorWall(start, script, j).ms;
    StopsIff(start, turn, prior, priorWall, samples, reason, cleanupFault, sample);
    if sample.None? {
      WithoutSampleIff(turn, j + 1, prior, start.origin.ms, start.wall.ms, priorWall, reason, cleanupFault);
    } else if sample.value.reason.Some? {
      WithSampleIff(start, turn, j + 1, prior, priorWall, sample.value);
    }
  }

  /** Every turn that is not good has a fault. */
  lemma BadTurnHasFault(start: Startup, script: Script, samples: seq<Sample>)
    returns (reason: Reason, cleanupFault: bool, sample: Option<Sample>)
    requires start.wall.Canonical? && start.origin.Finite? && |samples| < SAMPLES
    requires PriorReading(start, script, |samples|).Finite? && PriorWall(start, script, |samples|).Canonical?
    requires !GoodTurn(start, script, |samples|)
    ensures FaultAt(start, script, |samples|, reason, cleanupFault, sample)
  {
    var j := |samples|;
    var prior, priorWall := PriorReading(start, script, j).ms, PriorWall(start, script, j).ms;
    GoodTurnContinues(start, script, samples);
    var report := TakeTurn(start, script[j], prior, priorWall, samples).report;
    reason, cleanupFault := report.reason.value, report.cleanupFault;
    sample := if |report.samples| > j then Some(report.samples[j]) else None;
    TurnFailsIff(start, script, samples, reason, cleanupFault, sample);
  }

  /** Good turns up to a fault: the report names it. */
  lemma {:induction false} FaultIsReported(start: Startup, script: Script, samples: seq<Sample>, j: nat, reason: Reason,
                                           cleanupFault: bool, sample: Option<Sample>)
    returns (earlier: seq<Sample>)
    requires start.wall.Canonical? && start.origin.Finite? && |samples| <= j < SAMPLES
    requires PriorReading(start, script, |samples|).Finite? && PriorWall(start, script, |samples|).Canonical?
    requires AllSound(start, script, samples, |samples|)
    requires forall i :: |samples| <= i < j ==> GoodTurn(start, script, i)
    requires FaultAt(start, script, j, reason, cleanupFault, sample)
    ensures |earlier| == j && AllSound(start, script, earlier, j)
    ensures var n := |samples|;
            ObserveFrom(start, script, PriorReading(start, script, n).ms, PriorWall(start, script, n).ms, samples) ==
            Failed(start, earlier, reason, cleanupFault, sample)
    decreases j - |samples|
  {
    var n := |samples|;
    if n == j {
      TurnFailsIff(start, script, samples, reason, cleanupFault, sample);
      earlier := samples;
    } else {
      var next := GoodStep(start, script, samples);
      earlier := FaultIsReported(start, script, samples + [next], j, reason, cleanupFault, sample);
    }
  }

  /** All turns before j are good, and turn j fails in this way. */
  ghost predicate FirstFault(start: Startup, script: Script, j: nat, reason: Reason, cleanupFault: bool,
                             sample: Option<Sample>)
    requires start.wall.Canonical? && start.origin.Finite? && j < SAMPLES
  {
    (forall i :: 0 <= i < j ==> GoodTurn(start, script, i)) && FaultAt(start, script, j, reason, cleanupFault, sample)
  }

  /** The report is a FAIL after j sound samples, for this reason. */
  ghost predicate Reports(start: Startup, script: Script, j: nat, reason: Reason, cleanupFault: bool, sample: Option<Sample>)
    requires start.wall.Canonical? && start.origin.Finite? && j < SAMPLES
  {
    exists earlier :: |earlier| == j && AllSound(start, script, earlier, j)
                      && Observe(start, script) == Failed(start, earlier, reason, cleanupFault, sample)
  }

  lemma FirstBadTurn(start: Startup, script: Script, n: nat) returns (j: nat)
    requires start.wall.Canonical? && start.origin.Finite? && n < SAMPLES
    requires !GoodTurn(start, script, n)
    ensures j <= n && !GoodTurn(start, script, j) && forall i :: 0 <= i < j ==> GoodTurn(start, script, i)
  {
    j := 0;
    while GoodTurn(start, script, j)
      invariant j <= n && forall i :: 0 <= i < j ==> GoodTurn(start, script, i)
      decreases n - j
    {
      j := j + 1;
    }
  }

  lemma GoodSamples(start: Startup, script: Script, j: nat) returns (samples: seq<Sample>)
    requires start.wall.Canonical? && start.origin.Finite? && j < SAMPLES
    requires forall i :: 0 <= i < j ==> GoodTurn(start, script, i)
    ensures |samples| == j && PriorReading(start, script, j).Finite? && PriorWall(start, script, j).Canonical?
  {
    if j > 0 {
      assert GoodTurn(start, script, j - 1);
    }
    samples := seq(j, _ => Sample(0, 0, 0, 0, 0, false, None, None, false));
  }

  lemma SomeFault(start: Startup, script: Script)
    returns (j: nat, reason: Reason, cleanupFault: bool, sample: Option<Sample>)
    requires start.wall.Canonical? && start.origin.Finite? && Observe(start, script).status == Fail
    ensures j < SAMPLES && FirstFault(start, script, j, reason, cleanupFault, sample)
  {
    PassIff(start, script);
    var n: nat :| n < SAMPLES && !GoodTurn(start, script, n);
    j := FirstBadTurn(start, script, n);
    var samples := GoodSamples(start, script, j);
    reason, cleanupFault, sample := BadTurnHasFault(start, script, samples);
  }

  predicate Unblemished(samples: seq<Sample>) {
    forall i :: 0 <= i < |samples| ==> samples[i].reason.None?
  }

  lemma SoundIsUnblemished(start: Startup, script: Script, samples: seq<Sample>)
    requires start.wall.Canonical? && start.origin.Finite? && |samples| <= SAMPLES
    requires AllSound(start, script, samples, |samples|)
    ensures Unblemished(samples)
  {
    forall i | 0 <= i < |samples| ensures samples[i].reason.None? {
      assert Sound(start, script, samples, i);
    }
  }

  lemma SameEnd(a: seq<Sample>, b: seq<Sample>, x: Option<Sample>, y: Option<Sample>)
    requires Unblemished(a) && Unblemished(b)
    requires (x.Some? ==> x.value.reason.Some?) && (y.Some? ==> y.value.reason.Some?)
    requires (if x.Some? then a + [x.value] else a) == (if y.Some? then b + [y.value] else b)
    ensures |a| == |b| && x == y
  {
    var s := if x.Some? then a + [x.value] else a;
    assert x.Some? <==> s != [] && s[|s| - 1].reason.Some?;
    assert y.Some? <==> s != [] && s[|s| - 1].reason.Some?;
  }

  lemma ReportedIsFirst(start: Startup, script: Script, j: nat, reason: Reason, cleanupFault: bool, sample: Option<Sample>)
    requires start.wall.Canonical? && start.origin.Finite? && j < SAMPLES
    requires sample.Some? ==> sample.value.reason.Some?
    requires Reports(start, script, j, reason, cleanupFault, sample)
    ensures FirstFault(start, script, j, reason, cleanupFault, sample)
  {
    var earlier :| |earlier| == j && AllSound(start, script, earlier, j)
                   && Observe(start, script) == Failed(start, earlier, reason, cleanupFault, sample);
    var k, r, c, x := SomeFault(start, script);
    var others := FaultIsReported(start, script, [], k, r, c, x);
    SoundIsUnblemished(start, script, earlier);
    SoundIsUnblemished(start, script, others);
    SameEnd(earlier, others, sample, x);
  }

  /**
   Once the schedule has started, the report is a FAIL for a reason exactly when the environment's answers give that
   reason at the first turn that is not good: with the samples before it, and the sample of that turn if it has one.
   */
  lemma FailIff(start: Startup, script: Script, j: nat, reason: Reason, cleanupFault: bool, sample: Option<Sample>)
    requires start.wall.Canonical? && start.origin.Finite? && j < SAMPLES
    requires sample.Some? ==> sample.value.reason.Some?
    ensures Reports(start, script, j, reason, cleanupFault, sample) <==>
            FirstFault(start, script, j, reason, cleanupFault, sample)
  {
    if FirstFault(start, script, j, reason, cleanupFault, sample) {
      var earlier := FaultIsReported(start, script, [], j, reason, cleanupFault, sample);
    }
    if Reports(start, script, j, reason, cleanupFault, sample) {
      ReportedIsFirst(start, script, j, reason, cleanupFault, sample);
    }
  }

  /** Every FAIL of a started schedule has such a fault. */
  lemma FailHasFault(start: Startup, script: Script)
    ensures start.wall.Canonical? && start.origin.Finite? ==>
              (Observe(start, script).status == Fail <==>
               exists j, reason, cleanupFault, sample ::
                 0 <= j < SAMPLES && FirstFault(start, script, j, reason, cleanupFault, sample))
  {
    if start.wall.Canonical? && start.origin.Finite? {
      if Observe(start, script).status == Fail {
        var j, reason, cleanupFault, sample := SomeFault(start, script);
      }
      if j, reason, cleanupFault, sample :|
        0 <= j < SAMPLES && FirstFault(start, script, j, reason, cleanupFault, sample)
      {
        var earlier := FaultIsReported(start, script, [], j, reason, cleanupFault, sample);
      }
    }
  }

  /******* Calls *******/

  /**
   A turn that reaches registration calls the reader once if registration returned and no callback had fired, and
   otherwise not at all; it cancels once exactly when registration returned something to cancel with.
   */
  lemma CallsOfTurn(turn: Turn)
    ensures var e := EffectsOf(turn);
            && e.readCalls == (if turn.registration.Returned? && turn.early == [] then 1 else 0)
            && e.cancelCalls == (if turn.registration.Returned? then 1 else 0)
  {
  }
}
