/**
 Verifying a live capstone run (verifyLiveCapstone in scripts/live-capstone/lib.ts): two platforms, each
 of which must have every step passed and recent.
 */
module LiveVerdict {
  import opened Wrappers
  import opened RecorderProtocol

  const DAY := 24 * 60 * 60 * 1000

  /** The run by platform; a platform appears with its first recorded step. */
  datatype LiveRun = LiveRun(testedCommit: string, runs: map<string, map<string, StepResult>>)

  datatype Fault =
    | CommitMismatch
    | PlatformMissing(platform: string)
    | StepMissing(platform: string, step: string)
    | StepFailed(platform: string, step: string)
    | StepStale(platform: string, step: string)

  datatype PlatformVerdict = PlatformVerdict(complete: bool, passed: bool)

  datatype Verdict = Verdict(valid: bool, windows: PlatformVerdict, linux: PlatformVerdict, failures: seq<Fault>)

  const WINDOWS := "windows-x64"
  const LINUX := "linux-x64"

  /******* The list of failures *******/

  function StepFaults(results: map<string, StepResult>, platform: string, step: string, now: int, maxAge: int): seq<Fault> {
    if step !in results then [StepMissing(platform, step)]
    else
      (if results[step].status == Pass then [] else [StepFailed(platform, step)])
      + (if 0 <= now - results[step].recordedAt <= maxAge then [] else [StepStale(platform, step)])
  }

  function StepsFaults(results: map<string, StepResult>, platform: string, steps: seq<string>, now: int, maxAge: int)
    : seq<Fault>
  {
    if steps == [] then []
    else StepsFaults(results, platform, steps[..|steps| - 1], now, maxAge)
         + StepFaults(results, platform, steps[|steps| - 1], now, maxAge)
  }

  function PlatformFaults(run: LiveRun, platform: string, steps: seq<string>, now: int, maxAge: int): seq<Fault> {
    if platform !in run.runs then [PlatformMissing(platform)]
    else StepsFaults(run.runs[platform], platform, steps, now, maxAge)
  }

  function CommitFaults(run: LiveRun, testedCommit: string): seq<Fault> {
    if run.testedCommit != testedCommit then [CommitMismatch] else []
  }

  /******* What the verdict is about *******/

  ghost predicate Complete(results: map<string, StepResult>, steps: seq<string>) {
    forall step | step in steps :: step in results
  }

  /** The result is a PASS from no later than now, and no older than the window. */
  ghost predicate Recent(r: StepResult, now: int, maxAge: int) {
    r.status == Pass && r.recordedAt <= now <= r.recordedAt + maxAge
  }

  ghost predicate Sound(results: map<string, StepResult>, steps: seq<string>, now: int, maxAge: int) {
    forall step | step in steps :: step in results && Recent(results[step], now, maxAge)
  }

  ghost predicate AllRecorded(run: LiveRun, platform: string, steps: seq<string>) {
    platform in run.runs && Complete(run.runs[platform], steps)
  }

  ghost predicate AllPassed(run: LiveRun, platform: string, steps: seq<string>, now: int, maxAge: int) {
    platform in run.runs && Sound(run.runs[platform], steps, now, maxAge)
  }

  /******* The source's loops *******/

  /** One step's faults, appended; the flags fall with them. */
  method VerifyStep(results: map<string, StepResult>, platform: string, step: string, now: int, maxAge: int,
                    before: seq<Fault>)
    returns (missing: bool, unsound: bool, failures: seq<Fault>)
    ensures failures == before + StepFaults(results, platform, step, now, maxAge)
    ensures missing <==> step !in results
    ensures unsound <==> !(step in results && Recent(results[step], now, maxAge))
  {
    failures := before;
    if step !in results {
      failures := failures + [StepMissing(platform, step)];
      return true, true, failures;
    }
    missing, unsound := false, false;
    var result := results[step];
    if result.status != Pass {
      unsound := true;
      failures := failures + [StepFailed(platform, step)];
    }
    var age := now - result.recordedAt;
    if age < 0 || age > maxAge {
      unsound := true;
      failures := failures + [StepStale(platform, step)];
    }
  }

  /** What one more step does to each of the loop's variables. */
  lemma StepsSnoc(results: map<string, StepResult>, platform: string, steps: seq<string>, i: nat, now: int, maxAge: int,
                  before: seq<Fault>)
    requires i < |steps|
    ensures before + StepsFaults(results, platform, steps[..i + 1], now, maxAge) ==
            before + StepsFaults(results, platform, steps[..i], now, maxAge)
            + StepFaults(results, platform, steps[i], now, maxAge)
    ensures Complete(results, steps[..i + 1]) <==> Complete(results, steps[..i]) && steps[i] in results
    ensures Sound(results, steps[..i + 1], now, maxAge) <==>
            Sound(results, steps[..i], now, maxAge) && steps[i] in results && Recent(results[steps[i]], now, maxAge)
  {
    assert steps[..i + 1] == steps[..i] + [steps[i]] && steps[..i + 1][..i] == steps[..i];
    Associate(before, StepsFaults(results, platform, steps[..i], now, maxAge),
              StepFaults(results, platform, steps[i], now, maxAge));
  }

  lemma Associate(a: seq<Fault>, b: seq<Fault>, c: seq<Fault>)
    ensures a + b + c == a + (b + c)
  {
  }

  method VerifySteps(results: map<string, StepResult>, platform: string, steps: seq<string>, now: int, maxAge: int,
                     before: seq<Fault>)
    returns (verdict: PlatformVerdict, failures: seq<Fault>)
    ensures failures == before + StepsFaults(results, platform, steps, now, maxAge)
    ensures verdict.complete <==> Complete(results, steps)
    ensures verdict.passed <==> Sound(results, steps, now, maxAge)
  {
    failures := before;
    var complete, passed := true, true;
    for i := 0 to |steps|
      invariant failures == before + StepsFaults(results, platform, steps[..i], now, maxAge)
      invariant complete <==> Complete(results, steps[..i])
      invariant passed <==> Sound(results, steps[..i], now, maxAge)
    {
      StepsSnoc(results, platform, steps, i, now, maxAge, before);
      var missing, unsound;
      missing, unsound, failures := VerifyStep(results, platform, steps[i], now, maxAge, failures);
      complete, passed := complete && !missing, passed && !unsound;
    }
    assert steps[..|steps|] == steps;
    verdict := PlatformVerdict(complete, passed);
  }

  method VerifyPlatform(run: LiveRun, platform: string, steps: seq<string>, now: int, maxAge: int, before: seq<Fault>)
    returns (verdict: PlatformVerdict, failures: seq<Fault>)
    ensures failures == before + PlatformFaults(run, platform, steps, now, maxAge)
    ensures verdict.complete <==> AllRecorded(run, platform, steps)
    ensures verdict.passed <==> AllPassed(run, platform, steps, now, maxAge)
  {
    if platform !in run.runs {
      return PlatformVerdict(false, false), before + [PlatformMissing(platform)];
    }
    verdict, failures := VerifySteps(run.runs[platform], platform, steps, now, maxAge, before);
  }

  method VerifyLiveCapstone(run: LiveRun, testedCommit: string, steps: seq<string>, now: int, maxAgeDays: int)
    returns (r: Option<Verdict>)
    ensures r.None? <==> !(1 <= maxAgeDays <= 365)
    ensures r.Some? ==>
              var v, maxAge := r.value, maxAgeDays * 86_400_000;
              && (v.windows.complete <==> AllRecorded(run, WINDOWS, steps))
              && (v.linux.complete <==> AllRecorded(run, LINUX, steps))
              && (v.windows.passed <==> AllPassed(run, WINDOWS, steps, now, maxAge))
              && (v.linux.passed <==> AllPassed(run, LINUX, steps, now, maxAge))
              && (v.valid <==> run.testedCommit == testedCommit && v.windows.passed && v.linux.passed)
              && (v.valid <==> v.failures == [])
              && v.failures == CommitFaults(run, testedCommit) + PlatformFaults(run, WINDOWS, steps, now, maxAge)
                               + PlatformFaults(run, LINUX, steps, now, maxAge)
  {
    var failures: seq<Fault> := [];
    if run.testedCommit != testedCommit {
      failures := failures + [CommitMismatch];
    }
    if !(1 <= maxAgeDays <= 365) {
      return None;
    }
    var windows, linux;
    windows, failures := VerifyPlatform(run, WINDOWS, steps, now, maxAgeDays * DAY, failures);
    linux, failures := VerifyPlatform(run, LINUX, steps, now, maxAgeDays * DAY, failures);
    NoFaultsIff(run, WINDOWS, steps, now, maxAgeDays * DAY);
    NoFaultsIff(run, LINUX, steps, now, maxAgeDays * DAY);
    var valid := failures == [] && windows.complete && windows.passed && linux.complete && linux.passed;
    return Some(Verdict(valid, windows, linux, failures));
  }

  /******* What the list says *******/

  lemma {:induction false} StepsPassedIff(results: map<string, StepResult>, platform: string, steps: seq<string>, now: int,
                                          maxAge: int)
    ensures StepsFaults(results, platform, steps, now, maxAge) == [] <==>
            Sound(results, steps, now, maxAge)
  {
    if steps != [] {
      var n := |steps| - 1;
      StepsPassedIff(results, platform, steps[..n], now, maxAge);
      assert forall step :: step in steps <==> step == steps[n] || step in steps[..n];
    }
  }

  lemma NoFaultsIff(run: LiveRun, platform: string, steps: seq<string>, now: int, maxAge: int)
    ensures PlatformFaults(run, platform, steps, now, maxAge) == [] <==> AllPassed(run, platform, steps, now, maxAge)
  {
    if platform in run.runs {
      StepsPassedIff(run.runs[platform], platform, steps, now, maxAge);
    }
  }

  /** The fault is true of the run. */
  ghost predicate Holds(run: LiveRun, fault: Fault, platform: string, steps: seq<string>, now: int, maxAge: int) {
    match fault
    case CommitMismatch => false
    case PlatformMissing(p) => p == platform && p !in run.runs
    case StepMissing(p, step) => p == platform && p in run.runs && step in steps && step !in run.runs[p]
    case StepFailed(p, step) =>
      p == platform && p in run.runs && step in steps && step in run.runs[p] && run.runs[p][step].status == Fail
    case StepStale(p, step) =>
      && p == platform && p in run.runs && step in steps && step in run.runs[p]
      && !(run.runs[p][step].recordedAt <= now <= run.runs[p][step].recordedAt + maxAge)
  }

  /** f stands before g: its step comes earlier, or it is the failure of a step that g calls stale. */
  ghost predicate Before(steps: seq<string>, f: Fault, g: Fault) {
    && (f.StepMissing? || f.StepFailed? || f.StepStale?) && (g.StepMissing? || g.StepFailed? || g.StepStale?)
    && exists k, l :: 0 <= k <= l < |steps| && steps[k] == f.step && steps[l] == g.step
                      && (k == l ==> f.StepFailed? && g.StepStale?)
  }

  ghost predicate InOrder(steps: seq<string>, faults: seq<Fault>) {
    forall a, b :: 0 <= a < b < |faults| ==> Before(steps, faults[a], faults[b])
  }

  ghost predicate StepHolds(results: map<string, StepResult>, fault: Fault, platform: string, steps: seq<string>, now: int,
                            maxAge: int)
  {
    match fault
    case StepMissing(p, step) => p == platform && step in steps && step !in results
    case StepFailed(p, step) => p == platform && step in steps && step in results && results[step].status == Fail
    case StepStale(p, step) =>
      && p == platform && step in steps && step in results
      && !(results[step].recordedAt <= now <= results[step].recordedAt + maxAge)
    case _ => false
  }

  lemma {:induction false} StepFaultIff(results: map<string, StepResult>, platform: string, steps: seq<string>, now: int,
                                        maxAge: int, fault: Fault)
    ensures fault in StepsFaults(results, platform, steps, now, maxAge) <==>
            StepHolds(results, fault, platform, steps, now, maxAge)
  {
    if steps != [] {
      var n := |steps| - 1;
      StepFaultIff(results, platform, steps[..n], now, maxAge, fault);
      OneStepFaultIff(results, platform, steps[n], now, maxAge, fault);
      StepHoldsSnoc(results, fault, platform, steps, now, maxAge);
    }
  }

  lemma OneStepFaultIff(results: map<string, StepResult>, platform: string, step: string, now: int, maxAge: int, fault: Fault)
    ensures fault in StepFaults(results, platform, step, now, maxAge) <==>
            StepHolds(results, fault, platform, [step], now, maxAge)
  {
  }

  lemma StepHoldsSnoc(results: map<string, StepResult>, fault: Fault, platform: string, steps: seq<string>, now: int,
                      maxAge: int)
    requires steps != []
    ensures var n := |steps| - 1;
            StepHolds(results, fault, platform, steps, now, maxAge) <==>
            || StepHolds(results, fault, platform, steps[..n], now, maxAge)
            || StepHolds(results, fault, platform, [steps[n]], now, maxAge)
  {
    assert forall step :: step in steps <==> step == steps[|steps| - 1] || step in steps[..|steps| - 1];
  }

  lemma {:induction false} StepFaultsOrdered(results: map<string, StepResult>, platform: string, steps: seq<string>,
                                             now: int, maxAge: int)
    ensures InOrder(steps, StepsFaults(results, platform, steps, now, maxAge))
  {
    if steps != [] {
      var n := |steps| - 1;
      var earlier, last := StepsFaults(results, platform, steps[..n], now, maxAge),
                           StepFaults(results, platform, steps[n], now, maxAge);
      StepFaultsOrdered(results, platform, steps[..n], now, maxAge);
      forall a, b | 0 <= a < b < |earlier + last| ensures Before(steps, (earlier + last)[a], (earlier + last)[b]) {
        if b < |earlier| {
          BeforeInPrefix(steps, n, earlier[a], earlier[b]);
        } else if a < |earlier| {
          StepFaultIff(results, platform, steps[..n], now, maxAge, earlier[a]);
          assert earlier[a] in earlier;
          var k :| 0 <= k < n && steps[..n][k] == earlier[a].step;
          assert steps[k] == earlier[a].step && steps[n] == last[b - |earlier|].step;
        } else {
          assert steps[n] == last[a - |earlier|].step == last[b - |earlier|].step;
        }
      }
    }
  }

  lemma BeforeInPrefix(steps: seq<string>, n: nat, f: Fault, g: Fault)
    requires n <= |steps| && Before(steps[..n], f, g)
    ensures Before(steps, f, g)
  {
    var k, l :| 0 <= k <= l < n && steps[..n][k] == f.step && steps[..n][l] == g.step
                && (k == l ==> f.StepFailed? && g.StepStale?);
    assert steps[k] == f.step && steps[l] == g.step;
  }

  /** A platform's faults are exactly the true ones, in the order of the steps. */
  lemma PlatformFaultsIff(run: LiveRun, platform: string, steps: seq<string>, now: int, maxAge: int)
    ensures forall fault ::
              fault in PlatformFaults(run, platform, steps, now, maxAge) <==> Holds(run, fault, platform, steps, now, maxAge)
    ensures InOrder(steps, PlatformFaults(run, platform, steps, now, maxAge))
  {
    if platform in run.runs {
      forall fault
        ensures fault in PlatformFaults(run, platform, steps, now, maxAge) <==>
                Holds(run, fault, platform, steps, now, maxAge)
      {
        StepFaultIff(run.runs[platform], platform, steps, now, maxAge, fault);
      }
      StepFaultsOrdered(run.runs[platform], platform, steps, now, maxAge);
    }
  }
}
