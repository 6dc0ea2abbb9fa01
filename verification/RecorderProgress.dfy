/**
 Recorders come to an end: each step advances its recorder, none is ever stuck, and only a crash leaves a lock
 file behind.
 */
module RecorderProgress {
  import opened Wrappers
  import opened RecorderProtocol
  import opened RecorderTheorems

  predicate Ended(phase: Phase) {
    phase.Finished? || phase.Refused? || phase.Rejected? || phase.Crashed?
  }

  /** Steps that a recorder can still take. */
  function Left(phase: Phase): nat {
    match phase
    case Starting => 6
    case Locked => 5
    case Loaded(_) => 4
    case Prepared(_, _) => 3
    case Renamed => 2
    case Closing(_, _) => 1
    case Refusing => 1
    case _ => 0
  }

  /** A step takes its recorder, and no other, closer to its end. */
  lemma StepAdvances(policy: Policy, requests: map<Pid, Request>, s: State, a: Action)
    requires Do(policy, requests, s, a).Some? && !a.ClearStaleLock?
    ensures var t := Do(policy, requests, s, a).value;
            && a.p in s.phases && a.p in t.phases && Left(t.phases[a.p]) < Left(s.phases[a.p])
            && t.phases == s.phases[a.p := t.phases[a.p]]
  {
  }

  lemma ClearingAdvancesNobody(policy: Policy, requests: map<Pid, Request>, s: State)
    requires Do(policy, requests, s, ClearStaleLock).Some?
    ensures Do(policy, requests, s, ClearStaleLock).value.phases == s.phases
  {
  }

  /** How often a recorder acts. */
  ghost function Acts(actions: seq<Action>, p: Pid): nat {
    if actions == [] then 0
    else
      var last := actions[|actions| - 1];
      Acts(actions[..|actions| - 1], p) + (if !last.ClearStaleLock? && last.p == p then 1 else 0)
  }

  /** No recorder takes more than six steps, whatever the others do. */
  lemma {:induction false} RunsEnd(policy: Policy, requests: map<Pid, Request>, s: State, actions: seq<Action>, p: Pid)
    requires p in s.phases && Exec(policy, requests, s, actions).Some?
    ensures var t := Exec(policy, requests, s, actions).value;
            p in t.phases && Acts(actions, p) + Left(t.phases[p]) <= Left(s.phases[p]) <= 6
  {
    if actions != [] {
      var n := |actions| - 1;
      var before := Exec(policy, requests, s, actions[..n]).value;
      RunsEnd(policy, requests, s, actions[..n], p);
      if actions[n].ClearStaleLock? {
        ClearingAdvancesNobody(policy, requests, before);
      } else {
        StepAdvances(policy, requests, before, actions[n]);
      }
    }
  }

  /** A step that a recorder can take by itself: no crash, no failing call. */
  predicate Regular(a: Action) {
    !a.ClearStaleLock? && !a.Crash? && !a.Break? && !a.OpenFails? && (a.Confirm? ==> a.ok)
  }

  /** In every reachable state a recorder that has not ended can take a regular step: nobody waits for anybody. */
  lemma NeverStuck(policy: Policy, run: Run, requests: map<Pid, Request>, s: State, p: Pid) returns (a: Action)
    requires Reachable(policy, run, requests, s) && p in s.phases && !Ended(s.phases[p])
    ensures Regular(a) && a.p == p && Do(policy, requests, s, a).Some?
  {
    ReachableIsInv(policy, run, requests, s);
    match s.phases[p]
    case Starting =>
      a := if Admissible(policy, requests[p]) then Acquire(p) else Check(p);
    case Locked =>
      a := Load(p);
    case Loaded(_) =>
      a := Prepare(p, 0);
    case Prepared(_, _) =>
      a := Replace(p);
    case Renamed =>
      a := Confirm(p, true);
    case _ =>
      a := Finally(p);
  }

  /** The lock file is that of a holder, or of a recorder that crashed in it and was the last to have it. */
  ghost predicate LockIsExplained(s: State) {
    s.lockFile ==> s.handles != {} || exists p :: LeftLock(s, p)
  }

  ghost predicate LeftLock(s: State, p: Pid) {
    p in s.phases && s.phases[p].Crashed? && p in s.turns && s.turns[p] + 1 == s.nextTurn
  }

  lemma StepExplains(policy: Policy, run: Run, requests: map<Pid, Request>, s: State, a: Action)
    requires Inv(policy, run, requests, s) && LockIsExplained(s) && Do(policy, requests, s, a).Some?
    ensures LockIsExplained(Do(policy, requests, s, a).value)
  {
    var t := Do(policy, requests, s, a).value;
    if t.lockFile && !a.ClearStaleLock? {
      if a.Acquire? && t.phases[a.p].Locked? {
        assert a.p in t.handles;
      } else if a.Crash? && a.p in s.handles {
        assert LeftLock(t, a.p);
      } else {
        StillExplained(policy, requests, s, t, a);
      }
    }
  }

  lemma StillExplained(policy: Policy, requests: map<Pid, Request>, s: State, t: State, a: Action)
    requires LockIsExplained(s) && Do(policy, requests, s, a) == Some(t) && !a.ClearStaleLock? && t.lockFile
    requires !(a.Acquire? && t.phases[a.p].Locked?) && !(a.Crash? && a.p in s.handles)
    ensures LockIsExplained(t)
  {
    assert a.Crash? ==> s.handles - {a.p} == s.handles;
    assert t.handles == s.handles && t.turns == s.turns && t.nextTurn == s.nextTurn;
    if s.handles == {} {
      var p :| LeftLock(s, p);
      assert p != a.p;
      assert LeftLock(t, p);
    }
  }

  lemma {:induction false} EveryLockIsExplained(policy: Policy, run: Run, requests: map<Pid, Request>,
                                                actions: seq<Action>)
    requires Exec(policy, requests, Initial(run, requests), actions).Some?
    ensures LockIsExplained(Exec(policy, requests, Initial(run, requests), actions).value)
  {
    if actions != [] {
      var before := actions[..|actions| - 1];
      EveryInterleaving(policy, run, requests, before);
      EveryLockIsExplained(policy, run, requests, before);
      StepExplains(policy, run, requests, Exec(policy, requests, Initial(run, requests), before).value,
                   actions[|actions| - 1]);
    }
  }

  /** When every recorder has ended, only a crash has left a lock file: without one, the next call is not refused. */
  lemma OnlyCrashesLeaveLocks(policy: Policy, run: Run, requests: map<Pid, Request>, s: State)
    requires Reachable(policy, run, requests, s) && forall p | p in s.phases :: Ended(s.phases[p])
    ensures s.handles == {}
    ensures s.lockFile ==> exists p :: LeftLock(s, p)
  {
    var actions :| Exec(policy, requests, Initial(run, requests), actions) == Some(s);
    EveryLockIsExplained(policy, run, requests, actions);
    ReachableIsInv(policy, run, requests, s);
  }

  /******* A call on its own that cannot record *******/

  lemma ClosesAgain(policy: Policy, requests: map<Pid, Request>, s: State, t: State, p: Pid, actions: seq<Action>)
    requires p in requests && p in s.phases && p !in s.handles
    requires Exec(policy, requests, s, actions) == Some(t)
    requires t == s.(phases := s.phases[p := Closing(false, false)], lockFile := true, handles := s.handles + {p},
                     turns := s.turns[p := s.nextTurn], nextTurn := s.nextTurn + 1)
    ensures Exec(policy, requests, s, actions + [Finally(p)]) ==
            Some(s.(phases := s.phases[p := Finished(false, false)], lockFile := false,
                    turns := s.turns[p := s.nextTurn], nextTurn := s.nextTurn + 1))
  {
    ExecSnoc(policy, requests, s, actions, Finally(p));
    Overwritten(s.phases, p, Closing(false, false), Finished(false, false));
    assert s.handles + {p} - {p} == s.handles;
  }

  /** A request that fails a check fails the call: nothing is stored, and the lock is free again. */
  lemma AloneItFails(policy: Policy, requests: map<Pid, Request>, s: State, p: Pid, now: int)
    returns (actions: seq<Action>, t: State)
    requires p in requests && p in s.phases && s.phases[p].Starting? && !s.lockFile && p !in s.handles
    requires Admissible(policy, requests[p]) && !Recordable(policy, s.stored, requests[p], now)
    ensures Exec(policy, requests, s, actions) == Some(t) && forall a | a in actions :: Regular(a)
    ensures t.phases == s.phases[p := Finished(false, false)]
    ensures t.stored == s.stored && t.log == s.log && !t.lockFile && t.handles == s.handles
  {
    var u := s.(phases := s.phases[p := Closing(false, false)], lockFile := true, handles := s.handles + {p},
                turns := s.turns[p := s.nextTurn], nextTurn := s.nextTurn + 1);
    if Readable(policy, s.stored) {
      actions := [Acquire(p), Load(p), Prepare(p, now)];
      UncheckedCloses(policy, requests, s, p, now, u);
    } else {
      actions := [Acquire(p), Load(p)];
      UnreadableCloses(policy, requests, s, p, u);
    }
    ClosesAgain(policy, requests, s, u, p, actions);
    actions := actions + [Finally(p)];
    t := Exec(policy, requests, s, actions).value;
  }

  lemma UnreadableCloses(policy: Policy, requests: map<Pid, Request>, s: State, p: Pid, u: State)
    requires p in requests && p in s.phases && s.phases[p].Starting? && !s.lockFile
    requires Admissible(policy, requests[p]) && !Readable(policy, s.stored)
    requires u == s.(phases := s.phases[p := Closing(false, false)], lockFile := true, handles := s.handles + {p},
                     turns := s.turns[p := s.nextTurn], nextTurn := s.nextTurn + 1)
    ensures Exec(policy, requests, s, [Acquire(p), Load(p)]) == Some(u)
  {
    Overwritten(s.phases, p, Locked, Closing(false, false));
    ExecSnoc(policy, requests, s, [], Acquire(p));
    ExecSnoc(policy, requests, s, [Acquire(p)], Load(p));
    assert [] + [Acquire(p)] == [Acquire(p)] && [Acquire(p)] + [Load(p)] == [Acquire(p), Load(p)];
  }

  lemma UncheckedCloses(policy: Policy, requests: map<Pid, Request>, s: State, p: Pid, now: int, u: State)
    requires p in requests && p in s.phases && s.phases[p].Starting? && !s.lockFile
    requires Admissible(policy, requests[p]) && Readable(policy, s.stored) && !Checked(policy, s.stored, requests[p], now)
    requires u == s.(phases := s.phases[p := Closing(false, false)], lockFile := true, handles := s.handles + {p},
                     turns := s.turns[p := s.nextTurn], nextTurn := s.nextTurn + 1)
    ensures Exec(policy, requests, s, [Acquire(p), Load(p), Prepare(p, now)]) == Some(u)
  {
    Overwritten(s.phases, p, Locked, Loaded(s.stored));
    Overwritten(s.phases, p, Loaded(s.stored), Closing(false, false));
    ExecSnoc(policy, requests, s, [], Acquire(p));
    ExecSnoc(policy, requests, s, [Acquire(p)], Load(p));
    ExecSnoc(policy, requests, s, [Acquire(p), Load(p)], Prepare(p, now));
    assert [] + [Acquire(p)] == [Acquire(p)] && [Acquire(p)] + [Load(p)] == [Acquire(p), Load(p)];
    assert [Acquire(p), Load(p)] + [Prepare(p, now)] == [Acquire(p), Load(p), Prepare(p, now)];
  }
}
