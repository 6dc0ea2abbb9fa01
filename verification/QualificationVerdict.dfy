/**
 Verifying a qualification run (verifyQualification in scripts/qualification-capstone/lib.ts), and what
 a valid verdict says about the recorders that wrote the run.
 */
module QualificationVerdict {
  import opened Wrappers
  import opened RecorderProtocol
  import opened RecorderTheorems

  const DAY := 24 * 60 * 60 * 1000

  /** A profile and the steps it requires. */
  datatype Profile = Profile(name: string, required: seq<string>)

  datatype Fault =
    | CommitMismatch
    | StepMissing(profile: string, step: string)
    | StepFailed(profile: string, step: string)
    | StepStale(profile: string, step: string)

  datatype Error = ProfilesInvalid | Unreadable | SecretFound | WindowInvalid | UnknownProfile

  /** What one required step contributes. */
  function StepFaults(run: Run, profile: string, step: string, now: int, maxAge: int): seq<Fault> {
    if step !in run.steps then [StepMissing(profile, step)]
    else
      var r := run.steps[step];
      (if r.status == Pass then [] else [StepFailed(profile, step)])
      + (if 0 <= now - r.recordedAt <= maxAge then [] else [StepStale(profile, step)])
  }

  function ProfileFaults(run: Run, profile: Profile, now: int, maxAge: int): seq<Fault> {
    FaultsOf(run, profile.name, profile.required, now, maxAge)
  }

  function FaultsOf(run: Run, profile: string, steps: seq<string>, now: int, maxAge: int): seq<Fault> {
    if steps == [] then []
    else FaultsOf(run, profile, steps[..|steps| - 1], now, maxAge)
         + StepFaults(run, profile, steps[|steps| - 1], now, maxAge)
  }

  function AllFaults(run: Run, profiles: seq<Profile>, now: int, maxAge: int): seq<Fault> {
    if profiles == [] then []
    else AllFaults(run, profiles[..|profiles| - 1], now, maxAge)
         + ProfileFaults(run, profiles[|profiles| - 1], now, maxAge)
  }

  predicate Distinct(names: seq<string>) {
    forall i, j :: 0 <= i < j < |names| ==> names[i] != names[j]
  }

  predicate AllKnown(table: map<string, seq<string>>, names: seq<string>) {
    forall name | name in names :: name in table
  }

  /** The profiles that names stand for. */
  function Named(table: map<string, seq<string>>, names: seq<string>): seq<Profile>
    requires AllKnown(table, names)
  {
    seq(|names|, i requires 0 <= i < |names| => Profile(names[i], table[names[i]]))
  }

  /** The verification's answer; an empty list of faults is a valid verdict. */
  function Verdict(policy: Policy, run: Run, testedCommit: string, table: map<string, seq<string>>, names: seq<string>,
                   now: int, maxAgeDays: int): Result<seq<Fault>, Error>
  {
    if names == [] || !Distinct(names) then Failure(ProfilesInvalid)
    else if !Readable(policy, run) then Failure(Unreadable)
    else if !policy.secretFree(run) then Failure(SecretFound)
    else if !(1 <= maxAgeDays <= 365) then Failure(WindowInvalid)
    else if !AllKnown(table, names) then Failure(UnknownProfile)
    else Success((if run.testedCommit != testedCommit then [CommitMismatch] else [])
                 + AllFaults(run, Named(table, names), now, maxAgeDays * DAY))
  }

  /** The source's nested loops over profiles and steps. */
  method VerifyQualification(policy: Policy, run: Run, testedCommit: string, table: map<string, seq<string>>,
                             names: seq<string>, now: int, maxAgeDays: int) returns (r: Result<seq<Fault>, Error>)
    ensures r == Verdict(policy, run, testedCommit, table, names, now, maxAgeDays)
  {
    if names == [] || !Distinct(names) {
      return Failure(ProfilesInvalid);
    }
    if !Readable(policy, run) {
      return Failure(Unreadable);
    }
    if !policy.secretFree(run) {
      return Failure(SecretFound);
    }
    var failures: seq<Fault> := [];
    if run.testedCommit != testedCommit {
      failures := failures + [CommitMismatch];
    }
    if !(1 <= maxAgeDays <= 365) {
      return Failure(WindowInvalid);
    }
    assert failures == if run.testedCommit != testedCommit then [CommitMismatch] else [];
    r := CheckProfiles(run, table, names, now, maxAgeDays * DAY, failures);
  }

  /** The outer loop; a name without a profile ends it. */
  method CheckProfiles(run: Run, table: map<string, seq<string>>, names: seq<string>, now: int, maxAge: int,
                       before: seq<Fault>) returns (r: Result<seq<Fault>, Error>)
    ensures r == if !AllKnown(table, names) then Failure(UnknownProfile)
                 else Success(before + AllFaults(run, Named(table, names), now, maxAge))
  {
    var failures := before;
    for i := 0 to |names|
      invariant AllKnown(table, names[..i])
      invariant failures == before + AllFaults(run, Named(table, names[..i]), now, maxAge)
    {
      if names[i] !in table {
        return Failure(UnknownProfile);
      }
      var profile := Profile(names[i], table[names[i]]);
      NamedSnoc(table, names, i);
      AllFaultsSnoc(run, Named(table, names[..i]), profile, now, maxAge);
      Associate(before, AllFaults(run, Named(table, names[..i]), now, maxAge), ProfileFaults(run, profile, now, maxAge));
      failures := CheckProfile(run, profile, now, maxAge, failures);
    }
    assert names[..|names|] == names;
    return Success(failures);
  }

  lemma NamedSnoc(table: map<string, seq<string>>, names: seq<string>, i: nat)
    requires i < |names| && AllKnown(table, names[..i]) && names[i] in table
    ensures AllKnown(table, names[..i + 1])
    ensures Named(table, names[..i + 1]) == Named(table, names[..i]) + [Profile(names[i], table[names[i]])]
  {
    assert names[..i + 1] == names[..i] + [names[i]];
  }

  lemma AllFaultsSnoc(run: Run, profiles: seq<Profile>, profile: Profile, now: int, maxAge: int)
    ensures AllFaults(run, profiles + [profile], now, maxAge) ==
            AllFaults(run, profiles, now, maxAge) + ProfileFaults(run, profile, now, maxAge)
  {
    assert (profiles + [profile])[..|profiles|] == profiles;
  }

  /** The inner loop: the faults so far and those of one profile. */
  method CheckProfile(run: Run, profile: Profile, now: int, maxAge: int, before: seq<Fault>) returns (failures: seq<Fault>)
    ensures failures == before + ProfileFaults(run, profile, now, maxAge)
  {
    failures := before;
    for k := 0 to |profile.required|
      invariant failures == before + FaultsOf(run, profile.name, profile.required[..k], now, maxAge)
    {
      var step := profile.required[k];
      ghost var earlier := failures;
      assert profile.required[..k + 1][..k] == profile.required[..k];
      Associate(before, FaultsOf(run, profile.name, profile.required[..k], now, maxAge),
                StepFaults(run, profile.name, step, now, maxAge));
      if step !in run.steps {
        failures := failures + [StepMissing(profile.name, step)];
      } else {
        var result := run.steps[step];
        if result.status != Pass {
          failures := failures + [StepFailed(profile.name, step)];
        }
        var age := now - result.recordedAt;
        if age < 0 || age > maxAge {
          failures := failures + [StepStale(profile.name, step)];
        }
      }
      assert failures == earlier + StepFaults(run, profile.name, step, now, maxAge);
    }
    assert profile.required[..|profile.required|] == profile.required;
  }

  lemma Associate(a: seq<Fault>, b: seq<Fault>, c: seq<Fault>)
    ensures a + b + c == a + (b + c)
  {
  }

  /******* The meaning of a verdict *******/

  predicate Satisfied(run: Run, step: string, now: int, maxAge: int) {
    && step in run.steps && run.steps[step].status == Pass
    && run.steps[step].recordedAt <= now <= run.steps[step].recordedAt + maxAge
  }

  lemma {:induction false} NoFaultsIff(run: Run, profile: string, steps: seq<string>, now: int, maxAge: int)
    ensures FaultsOf(run, profile, steps, now, maxAge) == [] <==> forall step | step in steps :: Satisfied(run, step, now, maxAge)
  {
    if steps != [] {
      var n := |steps| - 1;
      NoFaultsIff(run, profile, steps[..n], now, maxAge);
      assert forall step :: step in steps <==> step == steps[n] || step in steps[..n];
      assert StepFaults(run, profile, steps[n], now, maxAge) == [] <==> Satisfied(run, steps[n], now, maxAge);
    }
  }

  /** No step is reported exactly when every required step of every profile passed recently. */
  lemma {:induction false} AllFaultsIff(run: Run, profiles: seq<Profile>, now: int, maxAge: int)
    ensures AllFaults(run, profiles, now, maxAge) == [] <==>
            forall profile, step | profile in profiles && step in profile.required :: Satisfied(run, step, now, maxAge)
  {
    if profiles != [] {
      var n := |profiles| - 1;
      AllFaultsIff(run, profiles[..n], now, maxAge);
      NoFaultsIff(run, profiles[n].name, profiles[n].required, now, maxAge);
      assert forall profile :: profile in profiles <==> profile == profiles[n] || profile in profiles[..n];
    }
  }

  ghost predicate AllSatisfied(run: Run, table: map<string, seq<string>>, names: seq<string>, now: int, maxAge: int) {
    forall name, step | name in names && name in table && step in table[name] :: Satisfied(run, step, now, maxAge)
  }

  lemma NamedIff(run: Run, table: map<string, seq<string>>, names: seq<string>, now: int, maxAge: int)
    requires AllKnown(table, names)
    ensures AllFaults(run, Named(table, names), now, maxAge) == [] <==> AllSatisfied(run, table, names, now, maxAge)
  {
    var profiles := Named(table, names);
    AllFaultsIff(run, profiles, now, maxAge);
    forall i | 0 <= i < |names| ensures profiles[i] in profiles && profiles[i] == Profile(names[i], table[names[i]]) {
    }
    if AllFaults(run, profiles, now, maxAge) == [] {
      forall name, step | name in names && name in table && step in table[name] ensures Satisfied(run, step, now, maxAge) {
        var i :| 0 <= i < |names| && names[i] == name;
        assert profiles[i] in profiles && step in profiles[i].required;
      }
    }
    if AllSatisfied(run, table, names, now, maxAge) {
      forall profile, step | profile in profiles && step in profile.required ensures Satisfied(run, step, now, maxAge) {
        var i :| 0 <= i < |profiles| && profiles[i] == profile;
        assert names[i] in names;
      }
    }
  }

  /** At least one profile, none twice, and all of them known. */
  ghost predicate CallInOrder(table: map<string, seq<string>>, names: seq<string>) {
    |names| > 0 && NoneTwice(names) && forall i :: 0 <= i < |names| ==> names[i] in table
  }

  ghost predicate NoneTwice(names: seq<string>) {
    forall i, j :: 0 <= i < |names| && 0 <= j < |names| && names[i] == names[j] ==> i == j
  }

  /** A verdict is refused for the first of five faults of the call or of the stored file, in this order. */
  lemma RefusedIff(policy: Policy, run: Run, testedCommit: string, table: map<string, seq<string>>, names: seq<string>,
                   now: int, maxAgeDays: int)
    ensures var verdict := Verdict(policy, run, testedCommit, table, names, now, maxAgeDays);
            && (verdict == Failure(ProfilesInvalid) <==> names == [] || !NoneTwice(names))
            && (names != [] && NoneTwice(names) ==>
                  && (verdict == Failure(Unreadable) <==> !Readable(policy, run))
                  && (Readable(policy, run) ==>
                        && (verdict == Failure(SecretFound) <==> !policy.secretFree(run))
                        && (policy.secretFree(run) ==>
                              && (verdict == Failure(WindowInvalid) <==> maxAgeDays < 1 || maxAgeDays > 365)
                              && (1 <= maxAgeDays <= 365 ==>
                                    && (verdict == Failure(UnknownProfile) <==> exists name :: name in names && name !in table)
                                    && (CallInOrder(table, names) ==> verdict.Success?)))))
  {
  }

  /******* The list of failures *******/

  /** The fault is true of this run. */
  ghost predicate Holds(run: Run, testedCommit: string, table: map<string, seq<string>>, names: seq<string>, fault: Fault,
                        now: int, maxAge: int)
  {
    match fault
    case CommitMismatch => run.testedCommit != testedCommit
    case StepMissing(name, step) => Requires(table, names, name, step) && step !in run.steps
    case StepFailed(name, step) => Requires(table, names, name, step) && step in run.steps && run.steps[step].status == Fail
    case StepStale(name, step) =>
      && Requires(table, names, name, step) && step in run.steps
      && !(run.steps[step].recordedAt <= now <= run.steps[step].recordedAt + maxAge)
  }

  ghost predicate Requires(table: map<string, seq<string>>, names: seq<string>, name: string, step: string) {
    name in names && name in table && step in table[name]
  }

  ghost predicate OfStep(run: Run, name: string, step: string, fault: Fault, now: int, maxAge: int) {
    match fault
    case CommitMismatch => false
    case StepMissing(n, s) => n == name && s == step && step !in run.steps
    case StepFailed(n, s) => n == name && s == step && step in run.steps && run.steps[step].status == Fail
    case StepStale(n, s) =>
      && n == name && s == step && step in run.steps
      && !(run.steps[step].recordedAt <= now <= run.steps[step].recordedAt + maxAge)
  }

  lemma OfStepIff(run: Run, name: string, step: string, fault: Fault, now: int, maxAge: int)
    ensures fault in StepFaults(run, name, step, now, maxAge) <==> OfStep(run, name, step, fault, now, maxAge)
  {
  }

  lemma {:induction false} OfProfileIff(run: Run, name: string, steps: seq<string>, fault: Fault, now: int, maxAge: int)
    ensures fault in FaultsOf(run, name, steps, now, maxAge) <==>
            exists i :: 0 <= i < |steps| && OfStep(run, name, steps[i], fault, now, maxAge)
  {
    if steps != [] {
      var n := |steps| - 1;
      OfProfileIff(run, name, steps[..n], fault, now, maxAge);
      OfStepIff(run, name, steps[n], fault, now, maxAge);
      assert forall i :: 0 <= i < n ==> steps[..n][i] == steps[i];
    }
  }

  ghost predicate OfProfile(run: Run, profile: Profile, fault: Fault, now: int, maxAge: int) {
    fault in FaultsOf(run, profile.name, profile.required, now, maxAge)
  }

  lemma {:induction false} OfProfilesIff(run: Run, profiles: seq<Profile>, fault: Fault, now: int, maxAge: int)
    ensures fault in AllFaults(run, profiles, now, maxAge) <==>
            exists i :: 0 <= i < |profiles| && OfProfile(run, profiles[i], fault, now, maxAge)
  {
    if profiles != [] {
      var n := |profiles| - 1;
      OfProfilesIff(run, profiles[..n], fault, now, maxAge);
      assert forall i :: 0 <= i < n ==> profiles[..n][i] == profiles[i];
    }
  }

  lemma OfNamedIff(run: Run, table: map<string, seq<string>>, names: seq<string>, fault: Fault, now: int, maxAge: int)
    requires AllKnown(table, names)
    ensures fault in AllFaults(run, Named(table, names), now, maxAge) <==>
            !fault.CommitMismatch? && Holds(run, run.testedCommit, table, names, fault, now, maxAge)
  {
    var profiles := Named(table, names);
    OfProfilesIff(run, profiles, fault, now, maxAge);
    forall i | 0 <= i < |names|
      ensures OfProfile(run, profiles[i], fault, now, maxAge) <==>
              exists k :: 0 <= k < |table[names[i]]| && OfStep(run, names[i], table[names[i]][k], fault, now, maxAge)
    {
      OfProfileIff(run, names[i], table[names[i]], fault, now, maxAge);
    }
    if !fault.CommitMismatch? && Holds(run, run.testedCommit, table, names, fault, now, maxAge) {
      var i :| 0 <= i < |names| && names[i] == fault.profile;
      var k :| 0 <= k < |table[names[i]]| && table[names[i]][k] == fault.step;
      assert OfStep(run, names[i], table[names[i]][k], fault, now, maxAge);
      assert OfProfile(run, profiles[i], fault, now, maxAge);
    }
  }

  /** The verdict lists exactly the true faults: the commit's, and what each required step of each profile lacks. */
  lemma ListedIff(policy: Policy, run: Run, testedCommit: string, table: map<string, seq<string>>, names: seq<string>,
                  now: int, maxAgeDays: int, fault: Fault)
    requires Verdict(policy, run, testedCommit, table, names, now, maxAgeDays).Success?
    ensures fault in Verdict(policy, run, testedCommit, table, names, now, maxAgeDays).value <==>
            Holds(run, testedCommit, table, names, fault, now, maxAgeDays * 86_400_000)
  {
    OfNamedIff(run, table, names, fault, now, maxAgeDays * 86_400_000);
  }

  /** f stands before g: the commit first, then profile by profile and step by step, a failure before staleness. */
  ghost predicate Before(table: map<string, seq<string>>, names: seq<string>, f: Fault, g: Fault) {
    && !g.CommitMismatch?
    && (f.CommitMismatch? ||
        exists i, j :: 0 <= i <= j < |names| && names[i] == f.profile && names[j] == g.profile
                       && (i == j ==> names[i] in table && StepBefore(table[names[i]], f, g)))
  }

  ghost predicate StepBefore(steps: seq<string>, f: Fault, g: Fault) {
    && !f.CommitMismatch? && !g.CommitMismatch?
    && exists k, l :: 0 <= k <= l < |steps| && steps[k] == f.step && steps[l] == g.step
                      && (k == l ==> f.StepFailed? && g.StepStale?)
  }

  ghost predicate StepsInOrder(steps: seq<string>, faults: seq<Fault>) {
    forall a, b :: 0 <= a < b < |faults| ==> StepBefore(steps, faults[a], faults[b])
  }

  lemma {:induction false} StepsOrdered(run: Run, name: string, steps: seq<string>, now: int, maxAge: int)
    ensures StepsInOrder(steps, FaultsOf(run, name, steps, now, maxAge))
  {
    if steps != [] {
      var n := |steps| - 1;
      var earlier, last := FaultsOf(run, name, steps[..n], now, maxAge), StepFaults(run, name, steps[n], now, maxAge);
      StepsOrdered(run, name, steps[..n], now, maxAge);
      forall a, b | 0 <= a < b < |earlier + last| ensures StepBefore(steps, (earlier + last)[a], (earlier + last)[b]) {
        if b < |earlier| {
          assert StepBefore(steps[..n], earlier[a], earlier[b]);
          StepBeforeInPrefix(steps, n, earlier[a], earlier[b]);
        } else if a < |earlier| {
          OfProfileIff(run, name, steps[..n], earlier[a], now, maxAge);
          var k :| 0 <= k < n && OfStep(run, name, steps[..n][k], earlier[a], now, maxAge);
          assert steps[k] == earlier[a].step && steps[n] == last[b - |earlier|].step;
        } else {
          assert steps[n] == last[a - |earlier|].step == last[b - |earlier|].step;
        }
      }
    }
  }

  lemma StepBeforeInPrefix(steps: seq<string>, n: nat, f: Fault, g: Fault)
    requires n <= |steps| && StepBefore(steps[..n], f, g)
    ensures StepBefore(steps, f, g)
  {
    var k, l :| 0 <= k <= l < n && steps[..n][k] == f.step && steps[..n][l] == g.step
                && (k == l ==> f.StepFailed? && g.StepStale?);
    assert steps[k] == f.step && steps[l] == g.step;
  }

  ghost predicate InOrder(table: map<string, seq<string>>, names: seq<string>, faults: seq<Fault>) {
    forall a, b :: 0 <= a < b < |faults| ==> Before(table, names, faults[a], faults[b])
  }

  lemma NamedPrefix(table: map<string, seq<string>>, names: seq<string>, n: nat)
    requires n <= |names| && AllKnown(table, names)
    ensures AllKnown(table, names[..n]) && Named(table, names[..n]) == Named(table, names)[..n]
  {
  }

  lemma BeforeInPrefix(table: map<string, seq<string>>, names: seq<string>, n: nat, f: Fault, g: Fault)
    requires n <= |names| && Before(table, names[..n], f, g)
    ensures Before(table, names, f, g)
  {
    if !f.CommitMismatch? {
      var i, j :| 0 <= i <= j < n && names[..n][i] == f.profile && names[..n][j] == g.profile
                  && (i == j ==> names[..n][i] in table && StepBefore(table[names[..n][i]], f, g));
      assert names[i] == f.profile && names[j] == g.profile;
    }
  }

  lemma {:induction false} NamedOrdered(run: Run, table: map<string, seq<string>>, names: seq<string>, now: int, maxAge: int)
    requires AllKnown(table, names)
    ensures InOrder(table, names, AllFaults(run, Named(table, names), now, maxAge))
  {
    if names != [] {
      var n := |names| - 1;
      NamedPrefix(table, names, n);
      NamedOrdered(run, table, names[..n], now, maxAge);
      var earlier := AllFaults(run, Named(table, names[..n]), now, maxAge);
      var last := FaultsOf(run, names[n], table[names[n]], now, maxAge);
      StepsOrdered(run, names[n], table[names[n]], now, maxAge);
      forall a | 0 <= a < |earlier| ensures !earlier[a].CommitMismatch? && earlier[a].profile in names[..n] {
        OfNamedIff(run, table, names[..n], earlier[a], now, maxAge);
      }
      forall b | 0 <= b < |last| ensures !last[b].CommitMismatch? && last[b].profile == names[n] {
        LastOfProfile(run, table, names, last[b], now, maxAge);
      }
      AppendedInOrder(table, names, earlier, last);
    }
  }

  lemma AppendedInOrder(table: map<string, seq<string>>, names: seq<string>, earlier: seq<Fault>, last: seq<Fault>)
    requires names != [] && names[|names| - 1] in table
    requires InOrder(table, names[..|names| - 1], earlier) && StepsInOrder(table[names[|names| - 1]], last)
    requires forall a :: 0 <= a < |earlier| ==> !earlier[a].CommitMismatch? && earlier[a].profile in names[..|names| - 1]
    requires forall b :: 0 <= b < |last| ==> !last[b].CommitMismatch? && last[b].profile == names[|names| - 1]
    ensures InOrder(table, names, earlier + last)
  {
    var n := |names| - 1;
    forall a, b | 0 <= a < b < |earlier + last| ensures Before(table, names, (earlier + last)[a], (earlier + last)[b]) {
      if b < |earlier| {
        assert Before(table, names[..n], earlier[a], earlier[b]);
        BeforeInPrefix(table, names, n, earlier[a], earlier[b]);
      } else if a < |earlier| {
        var i :| 0 <= i < n && names[..n][i] == earlier[a].profile;
        assert names[i] == earlier[a].profile && names[n] == last[b - |earlier|].profile;
      } else {
        assert StepBefore(table[names[n]], last[a - |earlier|], last[b - |earlier|]);
        assert names[n] == last[a - |earlier|].profile;
      }
    }
  }

  lemma LastOfProfile(run: Run, table: map<string, seq<string>>, names: seq<string>, fault: Fault, now: int, maxAge: int)
    requires names != [] && AllKnown(table, names)
    requires fault in FaultsOf(run, names[|names| - 1], table[names[|names| - 1]], now, maxAge)
    ensures !fault.CommitMismatch? && fault.profile == names[|names| - 1]
  {
    OfProfileIff(run, names[|names| - 1], table[names[|names| - 1]], fault, now, maxAge);
  }

  /** The list stands in the order of profiles and steps. */
  lemma ListedInOrder(policy: Policy, run: Run, testedCommit: string, table: map<string, seq<string>>, names: seq<string>,
                      now: int, maxAgeDays: int)
    requires Verdict(policy, run, testedCommit, table, names, now, maxAgeDays).Success?
    ensures InOrder(table, names, Verdict(policy, run, testedCommit, table, names, now, maxAgeDays).value)
  {
    var faults := AllFaults(run, Named(table, names), now, maxAgeDays * DAY);
    NamedOrdered(run, table, names, now, maxAgeDays * DAY);
    forall a | 0 <= a < |faults| ensures !faults[a].CommitMismatch? {
      OfNamedIff(run, table, names, faults[a], now, maxAgeDays * DAY);
    }
  }

  /**
   The verdict is valid exactly when the call is in order, the run is for the commit asked about, and every
   required step of every profile passed recently.
   */
  lemma ValidIff(policy: Policy, run: Run, testedCommit: string, table: map<string, seq<string>>, names: seq<string>,
                 now: int, maxAgeDays: int)
    ensures Verdict(policy, run, testedCommit, table, names, now, maxAgeDays) == Success([]) <==>
            && CallInOrder(table, names) && 1 <= maxAgeDays <= 365
            && Readable(policy, run) && policy.secretFree(run)
            && run.testedCommit == testedCommit
            && AllSatisfied(run, table, names, now, maxAgeDays * 86_400_000)
  {
    if AllKnown(table, names) {
      NamedIff(run, table, names, now, maxAgeDays * DAY);
    }
  }

  /**
   A valid verdict on the stored run, after any interleaving that started from an empty plan: for each
   required step some recorder committed a PASS for the commit asked about, recently, with evidence where the
   policy asks for it, and no later commit touched that step.
   */
  lemma ValidMeansRecorded(policy: Policy, run: Run, requests: map<Pid, Request>, actions: seq<Action>,
                           testedCommit: string, table: map<string, seq<string>>, names: seq<string>, now: int,
                           maxAgeDays: int, name: string, step: string)
    requires run.steps == map[] && Exec(policy, requests, Initial(run, requests), actions).Some?
    requires Verdict(policy, Exec(policy, requests, Initial(run, requests), actions).value.stored, testedCommit, table,
                     names, now, maxAgeDays) == Success([])
    requires name in names && name in table && step in table[name]
    ensures var s := Exec(policy, requests, Initial(run, requests), actions).value;
            var c := LastCommit(requests, s.log, step);
            && c.Some? && c.value in s.log && c.value.pid in requests
            && var q := requests[c.value.pid];
            && q.step == step && q.status == Pass
            && (policy.needsEvidence ==> |q.evidenceRefs| + |q.artifactHashes| > 0)
            && q.testedCommit == testedCommit
            && c.value.now <= now <= c.value.now + maxAgeDays * 86_400_000
  {
    var s := Exec(policy, requests, Initial(run, requests), actions).value;
    ValidIff(policy, s.stored, testedCommit, table, names, now, maxAgeDays);
    assert Satisfied(s.stored, step, now, maxAgeDays * DAY);
    NoUpdateLost(policy, run, requests, actions, step);
    EveryInterleaving(policy, run, requests, actions);
    CommitIsRecorded(policy, run, requests, s.log, LastCommit(requests, s.log, step).value);
  }
}
