/**
 What holds of the run file under every interleaving of recorders.
 */
module RecorderTheorems {
  import opened Wrappers
  import opened RecorderProtocol

  /******* The invariant *******/

  /** A recorder has a handle exactly while it holds the lock, and at most one holds it. */
  ghost predicate MutualExclusion(s: State) {
    && (forall p :: p in s.handles <==> p in s.phases && Holding(s.phases[p]))
    && (forall p | p in s.handles :: s.lockFile)
    && (forall p, q | p in s.handles && q in s.handles :: p == q)
  }

  /** What a recorder has read or prepared is about the stored run. */
  ghost predicate Fresh(policy: Policy, stored: Run, q: Request, phase: Phase) {
    match phase
    case Loaded(current) => current == stored && Readable(policy, stored)
    case Prepared(next, now) => next == Applied(stored, q, now) && Readable(policy, stored) && Checked(policy, stored, q, now)
    case _ => true
  }

  ghost predicate UpToDate(policy: Policy, requests: map<Pid, Request>, s: State) {
    forall p | p in s.phases && p in requests :: Fresh(policy, s.stored, requests[p], s.phases[p])
  }

  /** Turns of the lock and recorders appear in the log at most once, in lock order. */
  ghost predicate LogAscends(s: State) {
    && (forall c | c in s.log :: c.turn < s.nextTurn)
    && (forall i, j :: 0 <= i < j < |s.log| ==> s.log[i].turn < s.log[j].turn && s.log[i].pid != s.log[j].pid)
  }

  ghost predicate InLog(s: State, p: Pid) {
    exists c :: c in s.log && c.pid == p
  }

  /** The log holds exactly the recorders whose rename happened. */
  ghost predicate LogComplete(s: State) {
    && (forall c | c in s.log :: c.pid in s.phases)
    && (forall p | p in s.phases :: Committed(s.phases[p]) <==> InLog(s, p))
  }

  /** The holder has the latest turn, later than every commit but its own; who never held the lock has none. */
  ghost predicate TurnsFresh(s: State) {
    && (forall p | p in s.phases && Holding(s.phases[p]) ::
          && p in s.turns && s.turns[p] + 1 == s.nextTurn
          && (!Committed(s.phases[p]) ==> forall c | c in s.log :: c.turn < s.turns[p]))
    && (forall p | p in s.phases && (s.phases[p].Starting? || s.phases[p].Refusing? || s.phases[p].Refused?) ::
          p !in s.turns)
  }

  /** Each commit passed every check against the commits before it. */
  ghost predicate Recorded(policy: Policy, run: Run, requests: map<Pid, Request>, log: seq<Commit>) {
    forall i :: 0 <= i < |log| ==> RecordedAt(policy, run, requests, log, i)
  }

  ghost predicate RecordedAt(policy: Policy, run: Run, requests: map<Pid, Request>, log: seq<Commit>, i: nat)
    requires i < |log|
  {
    log[i].pid in requests && Recordable(policy, Replay(run, requests, log[..i]), requests[log[i].pid], log[i].now)
  }

  ghost predicate HoldersAdmissible(policy: Policy, requests: map<Pid, Request>, s: State) {
    && s.phases.Keys == requests.Keys
    && forall p | p in s.phases && Holding(s.phases[p]) :: Admissible(policy, requests[p])
  }

  ghost predicate Inv(policy: Policy, run: Run, requests: map<Pid, Request>, s: State) {
    && HoldersAdmissible(policy, requests, s) && MutualExclusion(s) && UpToDate(policy, requests, s)
    && LogAscends(s) && LogComplete(s) && TurnsFresh(s) && Recorded(policy, run, requests, s.log)
    && s.stored == Replay(run, requests, s.log)
  }

  lemma InvInitially(policy: Policy, run: Run, requests: map<Pid, Request>)
    ensures Inv(policy, run, requests, Initial(run, requests))
  {
  }

  /******* Steps that touch neither files nor history *******/

  ghost predicate Quiet(policy: Policy, requests: map<Pid, Request>, s: State, t: State, p: Pid) {
    && p in s.phases && p in requests && p in t.phases
    && t == s.(phases := s.phases[p := t.phases[p]])
    && (Committed(t.phases[p]) <==> Committed(s.phases[p]))
    && (Holding(t.phases[p]) <==> Holding(s.phases[p]))
    && (t.phases[p].Starting? || t.phases[p].Refusing? || t.phases[p].Refused? ==>
          s.phases[p].Starting? || s.phases[p].Refusing?)
    && (Fresh(policy, s.stored, requests[p], s.phases[p]) ==> Fresh(policy, s.stored, requests[p], t.phases[p]))
  }

  lemma QuietStep(policy: Policy, requests: map<Pid, Request>, s: State, a: Action)
    requires Do(policy, requests, s, a).Some?
    requires a.Check? || a.OpenFails? || a.Load? || a.Prepare? || a.Confirm? || a.Break?
    ensures Quiet(policy, requests, s, Do(policy, requests, s, a).value, a.p)
  {
  }

  lemma QuietKeepsLock(policy: Policy, requests: map<Pid, Request>, s: State, t: State, p: Pid)
    requires Quiet(policy, requests, s, t, p)
    requires HoldersAdmissible(policy, requests, s) && MutualExclusion(s) && UpToDate(policy, requests, s)
    ensures HoldersAdmissible(policy, requests, t) && MutualExclusion(t) && UpToDate(policy, requests, t)
  {
  }

  lemma QuietKeepsLog(policy: Policy, requests: map<Pid, Request>, s: State, t: State, p: Pid)
    requires Quiet(policy, requests, s, t, p) && LogAscends(s) && LogComplete(s) && TurnsFresh(s)
    ensures LogAscends(t) && LogComplete(t) && TurnsFresh(t)
  {
    SameLog(s, t);
  }

  lemma SameLog(s: State, t: State)
    requires t.log == s.log && t.phases.Keys == s.phases.Keys && LogComplete(s)
    requires forall p | p in s.phases :: Committed(t.phases[p]) <==> Committed(s.phases[p])
    ensures LogComplete(t)
  {
    forall q | q in t.phases ensures Committed(t.phases[q]) <==> InLog(t, q) {
      assert Committed(s.phases[q]) <==> InLog(s, q);
    }
  }

  lemma QuietKeepsInv(policy: Policy, run: Run, requests: map<Pid, Request>, s: State, t: State, p: Pid)
    requires Inv(policy, run, requests, s) && Quiet(policy, requests, s, t, p)
    ensures Inv(policy, run, requests, t)
  {
    QuietKeepsLock(policy, requests, s, t, p);
    QuietKeepsLog(policy, requests, s, t, p);
  }

  /******* Taking the lock *******/

  lemma AcquireKeepsInv(policy: Policy, run: Run, requests: map<Pid, Request>, s: State, p: Pid)
    requires Inv(policy, run, requests, s) && Do(policy, requests, s, Acquire(p)).Some?
    ensures Inv(policy, run, requests, Do(policy, requests, s, Acquire(p)).value)
  {
    var t := Do(policy, requests, s, Acquire(p)).value;
    if s.lockFile {
      QuietKeepsInv(policy, run, requests, s, t, p);
    } else {
      LockTaken(policy, requests, s, t, p);
      LockTakenLog(s, t, p);
    }
  }

  lemma LockTaken(policy: Policy, requests: map<Pid, Request>, s: State, t: State, p: Pid)
    requires HoldersAdmissible(policy, requests, s) && MutualExclusion(s) && UpToDate(policy, requests, s)
    requires !s.lockFile && p in s.phases && p in requests && Admissible(policy, requests[p])
    requires t.stored == s.stored && t.phases == s.phases[p := Locked] && t.lockFile && t.handles == s.handles + {p}
    ensures HoldersAdmissible(policy, requests, t) && MutualExclusion(t) && UpToDate(policy, requests, t)
  {
  }

  lemma LockTakenLog(s: State, t: State, p: Pid)
    requires MutualExclusion(s) && LogAscends(s) && LogComplete(s) && TurnsFresh(s)
    requires !s.lockFile && p in s.phases && s.phases[p].Starting? && t.log == s.log
    requires t.phases == s.phases[p := Locked] && t.turns == s.turns[p := s.nextTurn] && t.nextTurn == s.nextTurn + 1
    ensures LogAscends(t) && LogComplete(t) && TurnsFresh(t)
  {
    SameLog(s, t);
    assert forall q | q in s.phases && Holding(s.phases[q]) :: q in s.handles;
  }

  /******* Leaving: the finally block, and crashes *******/

  /** The recorder stops; what it holds of the lock goes with its handle. */
  ghost predicate Leaves(s: State, t: State, p: Pid) {
    && p in s.phases && p in t.phases && t.phases == s.phases[p := t.phases[p]]
    && !Holding(t.phases[p]) && !t.phases[p].Starting? && !t.phases[p].Refusing?
    && (t.phases[p].Refused? ==> s.phases[p].Refusing?)
    && (Committed(t.phases[p]) <==> Committed(s.phases[p]))
    && t.handles == s.handles - {p}
    && (t.lockFile == s.lockFile || (p in s.handles && !t.lockFile))
    && t.stored == s.stored && t.log == s.log && t.turns == s.turns && t.nextTurn == s.nextTurn
  }

  lemma LeavingStep(policy: Policy, requests: map<Pid, Request>, s: State, a: Action)
    requires Do(policy, requests, s, a).Some? && (a.Finally? || a.Crash?)
    ensures Leaves(s, Do(policy, requests, s, a).value, a.p)
  {
  }

  lemma LeavingKeepsLock(policy: Policy, requests: map<Pid, Request>, s: State, t: State, p: Pid)
    requires Leaves(s, t, p)
    requires HoldersAdmissible(policy, requests, s) && MutualExclusion(s) && UpToDate(policy, requests, s)
    ensures HoldersAdmissible(policy, requests, t) && MutualExclusion(t) && UpToDate(policy, requests, t)
  {
  }

  lemma LeavingKeepsLog(s: State, t: State, p: Pid)
    requires Leaves(s, t, p) && LogAscends(s) && LogComplete(s) && TurnsFresh(s)
    ensures LogAscends(t) && LogComplete(t) && TurnsFresh(t)
  {
    SameLog(s, t);
  }

  lemma LeavingKeepsInv(policy: Policy, run: Run, requests: map<Pid, Request>, s: State, t: State, p: Pid)
    requires Inv(policy, run, requests, s) && Leaves(s, t, p)
    ensures Inv(policy, run, requests, t)
  {
    LeavingKeepsLock(policy, requests, s, t, p);
    LeavingKeepsLog(s, t, p);
  }

  lemma ClearKeepsInv(policy: Policy, run: Run, requests: map<Pid, Request>, s: State)
    requires Inv(policy, run, requests, s) && Do(policy, requests, s, ClearStaleLock).Some?
    ensures Inv(policy, run, requests, Do(policy, requests, s, ClearStaleLock).value)
  {
    var t := Do(policy, requests, s, ClearStaleLock).value;
    assert forall p :: p !in s.handles;
    SameLog(s, t);
  }

  /******* Replacing the run file *******/

  lemma ReplaceKeepsInv(policy: Policy, run: Run, requests: map<Pid, Request>, s: State, p: Pid)
    requires Inv(policy, run, requests, s) && Do(policy, requests, s, Replace(p)).Some?
    ensures Inv(policy, run, requests, Do(policy, requests, s, Replace(p)).value)
  {
    var t := Do(policy, requests, s, Replace(p)).value;
    var c := Commit(p, s.turns[p], s.phases[p].now);
    PreparedIsRecordable(policy, requests, s, p);
    ReplaySnoc(run, requests, s.log, c);
    RecordedSnoc(policy, run, requests, s.log, c);
    RunReplaced(policy, requests, s, t, c);
    LogExtended(s, t, c);
  }

  lemma PreparedIsRecordable(policy: Policy, requests: map<Pid, Request>, s: State, p: Pid)
    requires HoldersAdmissible(policy, requests, s) && UpToDate(policy, requests, s)
    requires p in s.phases && s.phases[p].Prepared?
    ensures p in requests && s.phases[p].next == Applied(s.stored, requests[p], s.phases[p].now)
    ensures Recordable(policy, s.stored, requests[p], s.phases[p].now)
  {
    assert Fresh(policy, s.stored, requests[p], s.phases[p]);
  }

  lemma RunReplaced(policy: Policy, requests: map<Pid, Request>, s: State, t: State, c: Commit)
    requires HoldersAdmissible(policy, requests, s) && MutualExclusion(s) && UpToDate(policy, requests, s)
    requires c.pid in s.phases && s.phases[c.pid].Prepared?
    requires t.phases == s.phases[c.pid := Renamed] && t.lockFile == s.lockFile && t.handles == s.handles
    ensures HoldersAdmissible(policy, requests, t) && MutualExclusion(t) && UpToDate(policy, requests, t)
  {
    assert c.pid in s.handles;
    assert forall q | q in s.phases && q != c.pid :: !Holding(s.phases[q]);
  }

  lemma LogExtended(s: State, t: State, c: Commit)
    requires MutualExclusion(s) && LogAscends(s) && LogComplete(s) && TurnsFresh(s)
    requires c.pid in s.phases && s.phases[c.pid].Prepared? && c.pid in s.turns && c.turn == s.turns[c.pid]
    requires t.phases == s.phases[c.pid := Renamed] && t.turns == s.turns && t.nextTurn == s.nextTurn
    requires t.log == s.log + [c]
    ensures LogAscends(t) && LogComplete(t) && TurnsFresh(t)
  {
    assert !InLog(s, c.pid);
    ExtendedAscends(s, t, c);
    ExtendedIsComplete(s, t, c);
    assert c.pid in s.handles;
    assert forall q | q in s.phases && q != c.pid && Holding(s.phases[q]) :: q in s.handles;
    assert forall q | q in t.phases && Holding(t.phases[q]) :: q == c.pid;
  }

  lemma ExtendedAscends(s: State, t: State, c: Commit)
    requires LogAscends(s) && !InLog(s, c.pid) && c.turn < s.nextTurn && forall x | x in s.log :: x.turn < c.turn
    requires t.log == s.log + [c] && t.nextTurn == s.nextTurn
    ensures LogAscends(t)
  {
    assert forall x :: x in t.log <==> x in s.log || x == c;
    assert forall i :: 0 <= i < |s.log| ==> s.log[i] in s.log;
  }

  lemma ExtendedIsComplete(s: State, t: State, c: Commit)
    requires LogComplete(s) && c.pid in s.phases && t.phases == s.phases[c.pid := Renamed] && t.log == s.log + [c]
    ensures LogComplete(t)
  {
    assert forall x :: x in t.log <==> x in s.log || x == c;
    forall q | q in t.phases ensures Committed(t.phases[q]) <==> InLog(t, q) {
      LogSnoc(s, t, c, q);
      assert Committed(s.phases[q]) <==> InLog(s, q);
    }
  }

  lemma LogSnoc(s: State, t: State, c: Commit, q: Pid)
    requires t.log == s.log + [c]
    ensures InLog(t, q) <==> InLog(s, q) || q == c.pid
  {
    assert c in t.log;
    assert forall x :: x in t.log <==> x in s.log || x == c;
  }

  lemma ReplaySnoc(run: Run, requests: map<Pid, Request>, log: seq<Commit>, c: Commit)
    requires c.pid in requests
    ensures Replay(run, requests, log + [c]) == Applied(Replay(run, requests, log), requests[c.pid], c.now)
  {
    assert (log + [c])[..|log|] == log;
  }

  lemma RecordedSnoc(policy: Policy, run: Run, requests: map<Pid, Request>, log: seq<Commit>, c: Commit)
    requires Recorded(policy, run, requests, log) && c.pid in requests
    requires Recordable(policy, Replay(run, requests, log), requests[c.pid], c.now)
    ensures Recorded(policy, run, requests, log + [c])
  {
    var longer := log + [c];
    forall i | 0 <= i < |longer| ensures RecordedAt(policy, run, requests, longer, i) {
      assert longer[..i] == log[..i];
      if i < |log| {
        assert RecordedAt(policy, run, requests, log, i);
      } else {
        assert log[..i] == log;
      }
    }
  }

  /******* Every interleaving *******/

  lemma StepKeepsInv(policy: Policy, run: Run, requests: map<Pid, Request>, s: State, a: Action)
    requires Inv(policy, run, requests, s) && Do(policy, requests, s, a).Some?
    ensures Inv(policy, run, requests, Do(policy, requests, s, a).value)
  {
    match a
    case Replace(p) =>
      ReplaceKeepsInv(policy, run, requests, s, p);
    case Acquire(p) =>
      AcquireKeepsInv(policy, run, requests, s, p);
    case ClearStaleLock =>
      ClearKeepsInv(policy, run, requests, s);
    case Finally(_) | Crash(_) =>
      LeavingStep(policy, requests, s, a);
      LeavingKeepsInv(policy, run, requests, s, Do(policy, requests, s, a).value, a.p);
    case _ =>
      QuietStep(policy, requests, s, a);
      QuietKeepsInv(policy, run, requests, s, Do(policy, requests, s, a).value, a.p);
  }

  /** Under every interleaving the stored run is the committed records applied one at a time, in lock order. */
  lemma {:induction false} EveryInterleaving(policy: Policy, run: Run, requests: map<Pid, Request>, actions: seq<Action>)
    requires Exec(policy, requests, Initial(run, requests), actions).Some?
    ensures Inv(policy, run, requests, Exec(policy, requests, Initial(run, requests), actions).value)
  {
    if actions == [] {
      InvInitially(policy, run, requests);
    } else {
      var before := actions[..|actions| - 1];
      EveryInterleaving(policy, run, requests, before);
      StepKeepsInv(policy, run, requests, Exec(policy, requests, Initial(run, requests), before).value,
                   actions[|actions| - 1]);
    }
  }

  ghost predicate Reachable(policy: Policy, run: Run, requests: map<Pid, Request>, s: State) {
    exists actions :: Exec(policy, requests, Initial(run, requests), actions) == Some(s)
  }

  lemma ReachableIsInv(policy: Policy, run: Run, requests: map<Pid, Request>, s: State)
    requires Reachable(policy, run, requests, s)
    ensures Inv(policy, run, requests, s)
  {
    var actions :| Exec(policy, requests, Initial(run, requests), actions) == Some(s);
    EveryInterleaving(policy, run, requests, actions);
  }

  /******* No update is lost *******/

  /** The last commit that recorded a step. */
  ghost function LastCommit(requests: map<Pid, Request>, log: seq<Commit>, step: string): Option<Commit> {
    if log == [] then None
    else
      var last := log[|log| - 1];
      if last.pid in requests && requests[last.pid].step == step then Some(last)
      else LastCommit(requests, log[..|log| - 1], step)
  }

  /** r holds what the request asked to record, at this time. */
  ghost predicate Holds(r: StepResult, q: Request, now: int) {
    && r.status == q.status && r.recordedAt == now && r.environment == q.environment
    && r.evidenceRefs == q.evidenceRefs && r.artifactHashes == q.artifactHashes
  }

  /** next is run with one step recorded: its time and that step change, nothing else does. */
  ghost predicate Records(run: Run, next: Run, q: Request, now: int) {
    && next.correlationId == run.correlationId && next.testedCommit == run.testedCommit
    && next.createdAt == run.createdAt && next.updatedAt == now
    && next.steps.Keys == run.steps.Keys + {q.step}
    && Holds(next.steps[q.step], q, now)
    && forall step | step in run.steps && step != q.step :: next.steps[step] == run.steps[step]
  }

  lemma AppliedIff(run: Run, next: Run, q: Request, now: int)
    ensures next == Applied(run, q, now) <==> Records(run, next, q, now)
  {
    if Records(run, next, q, now) {
      assert next.steps[q.step] == ResultOf(q, now);
      assert next.steps == run.steps[q.step := ResultOf(q, now)];
    }
  }

  lemma {:induction false} ReplayKeepsLast(run: Run, requests: map<Pid, Request>, log: seq<Commit>, step: string)
    ensures var stored := Replay(run, requests, log);
            match LastCommit(requests, log, step)
            case Some(c) =>
              && c in log && c.pid in requests && requests[c.pid].step == step
              && step in stored.steps && Holds(stored.steps[step], requests[c.pid], c.now)
            case None =>
              && (forall c :: c in log && c.pid in requests ==> requests[c.pid].step != step)
              && (step in stored.steps <==> step in run.steps)
              && (step in run.steps ==> stored.steps[step] == run.steps[step])
  {
    if log != [] {
      ReplayKeepsLast(run, requests, log[..|log| - 1], step);
      assert forall c :: c in log <==> c == log[|log| - 1] || c in log[..|log| - 1];
    }
  }

  lemma {:induction false} ReplayKeepsCommit(run: Run, requests: map<Pid, Request>, log: seq<Commit>)
    ensures Replay(run, requests, log).testedCommit == run.testedCommit
  {
    if log != [] {
      ReplayKeepsCommit(run, requests, log[..|log| - 1]);
    }
  }

  lemma {:induction false} ReplayKeepsIdentity(run: Run, requests: map<Pid, Request>, log: seq<Commit>)
    requires forall c :: c in log ==> c.pid in requests
    ensures var stored := Replay(run, requests, log);
            && stored.correlationId == run.correlationId && stored.createdAt == run.createdAt
            && stored.updatedAt == if log == [] then run.updatedAt else log[|log| - 1].now
  {
    if log != [] {
      ReplayKeepsIdentity(run, requests, log[..|log| - 1]);
    }
  }

  /** A run keeps its identity under every interleaving, and its time is that of the last commit. */
  lemma StoredIdentity(policy: Policy, run: Run, requests: map<Pid, Request>, actions: seq<Action>)
    requires Exec(policy, requests, Initial(run, requests), actions).Some?
    ensures var s := Exec(policy, requests, Initial(run, requests), actions).value;
            && s.stored.correlationId == run.correlationId && s.stored.testedCommit == run.testedCommit
            && s.stored.createdAt == run.createdAt
            && s.stored.updatedAt == if s.log == [] then run.updatedAt else s.log[|s.log| - 1].now
  {
    EveryInterleaving(policy, run, requests, actions);
    var log := Exec(policy, requests, Initial(run, requests), actions).value.log;
    forall c | c in log ensures c.pid in requests {
      CommitIsRecorded(policy, run, requests, log, c);
    }
    ReplayKeepsCommit(run, requests, log);
    ReplayKeepsIdentity(run, requests, log);
  }

  /** Every committed step is stored, with the result of the last commit for it; other steps are as they were. */
  lemma NoUpdateLost(policy: Policy, run: Run, requests: map<Pid, Request>, actions: seq<Action>, step: string)
    requires Exec(policy, requests, Initial(run, requests), actions).Some?
    ensures var s := Exec(policy, requests, Initial(run, requests), actions).value;
            match LastCommit(requests, s.log, step)
            case Some(c) =>
              && c in s.log && c.pid in requests && requests[c.pid].step == step
              && step in s.stored.steps && Holds(s.stored.steps[step], requests[c.pid], c.now)
              && requests[c.pid].testedCommit == s.stored.testedCommit
            case None =>
              && (forall c :: c in s.log && c.pid in requests ==> requests[c.pid].step != step)
              && (step in s.stored.steps <==> step in run.steps)
              && (step in run.steps ==> s.stored.steps[step] == run.steps[step])
  {
    EveryInterleaving(policy, run, requests, actions);
    var s := Exec(policy, requests, Initial(run, requests), actions).value;
    ReplayKeepsLast(run, requests, s.log, step);
    if LastCommit(requests, s.log, step).Some? {
      CommitIsRecorded(policy, run, requests, s.log, LastCommit(requests, s.log, step).value);
      ReplayKeepsCommit(run, requests, s.log);
    }
  }

  lemma CommitIsRecorded(policy: Policy, run: Run, requests: map<Pid, Request>, log: seq<Commit>, c: Commit)
    requires Recorded(policy, run, requests, log) && c in log
    ensures c.pid in requests && requests[c.pid].testedCommit == run.testedCommit
    ensures Evidenced(policy, requests[c.pid].status, requests[c.pid].evidenceRefs, requests[c.pid].artifactHashes)
  {
    var i :| 0 <= i < |log| && log[i] == c;
    assert RecordedAt(policy, run, requests, log, i);
    ReplayKeepsCommit(run, requests, log[..i]);
  }

  /******* What a caller is told *******/

  ghost predicate OkMeansCommitted(s: State) {
    forall p | p in s.phases ::
      match s.phases[p]
      case Closing(ok, committed) => ok ==> committed
      case Finished(ok, committed) => ok ==> committed
      case _ => true
  }

  lemma OkStep(policy: Policy, requests: map<Pid, Request>, s: State, a: Action)
    requires OkMeansCommitted(s) && Do(policy, requests, s, a).Some?
    ensures OkMeansCommitted(Do(policy, requests, s, a).value)
  {
  }

  lemma {:induction false} SuccessIsCommitted(policy: Policy, run: Run, requests: map<Pid, Request>, actions: seq<Action>)
    requires Exec(policy, requests, Initial(run, requests), actions).Some?
    ensures OkMeansCommitted(Exec(policy, requests, Initial(run, requests), actions).value)
  {
    if actions != [] {
      var before := actions[..|actions| - 1];
      SuccessIsCommitted(policy, run, requests, before);
      OkStep(policy, requests, Exec(policy, requests, Initial(run, requests), before).value, actions[|actions| - 1]);
    }
  }

  /** A recorder that reports success is in the log; one that was rejected or refused is not. */
  lemma ReportsAreTrue(policy: Policy, run: Run, requests: map<Pid, Request>, actions: seq<Action>, p: Pid)
    requires Exec(policy, requests, Initial(run, requests), actions).Some? && p in requests
    ensures var s := Exec(policy, requests, Initial(run, requests), actions).value;
            && p in s.phases
            && (s.phases[p].Finished? && s.phases[p].ok ==> InLog(s, p))
            && (s.phases[p].Rejected? || s.phases[p].Refused? ==> !InLog(s, p))
  {
    SuccessIsCommitted(policy, run, requests, actions);
    EveryInterleaving(policy, run, requests, actions);
    var s := Exec(policy, requests, Initial(run, requests), actions).value;
    assert Committed(s.phases[p]) <==> InLog(s, p);
  }

  /******* Who removes the lock file *******/

  /**
   In every reachable state: the lock file disappears only when its creator, the latest to take the lock,
   leaves with its handle, or when an operator clears it while nobody holds it.
   */
  lemma OnlyHolderUnlocks(policy: Policy, run: Run, requests: map<Pid, Request>, s: State, a: Action)
    requires Reachable(policy, run, requests, s)
    requires Do(policy, requests, s, a).Some? && s.lockFile && !Do(policy, requests, s, a).value.lockFile
    ensures if a.ClearStaleLock? then s.handles == {}
            else a.Finally? && s.handles == {a.p} && a.p in s.phases && s.phases[a.p].Closing?
                 && a.p in s.turns && s.turns[a.p] + 1 == s.nextTurn
  {
    ReachableIsInv(policy, run, requests, s);
    if !a.ClearStaleLock? {
      assert a.p in s.handles;
    }
  }

  /**
   In every reachable state a refused recorder has no handle, no turn and no commit, so whatever it still does,
   its finally block included, touches no file.
   */
  lemma RefusedIsInert(policy: Policy, run: Run, requests: map<Pid, Request>, s: State, p: Pid)
    requires Reachable(policy, run, requests, s)
    requires p in s.phases && (s.phases[p].Refusing? || s.phases[p].Refused?)
    ensures p !in s.handles && p !in s.turns && !InLog(s, p)
    ensures forall a: Action :: !a.ClearStaleLock? && a.p == p && Do(policy, requests, s, a).Some? ==>
              var t := Do(policy, requests, s, a).value; t == s.(phases := t.phases)
  {
    ReachableIsInv(policy, run, requests, s);
    assert Committed(s.phases[p]) <==> InLog(s, p);
    RefusedTouchesNothing(policy, requests, s, p);
  }

  lemma RefusedTouchesNothing(policy: Policy, requests: map<Pid, Request>, s: State, p: Pid)
    requires p in s.phases && (s.phases[p].Refusing? || s.phases[p].Refused?) && p !in s.handles
    ensures forall a: Action :: !a.ClearStaleLock? && a.p == p && Do(policy, requests, s, a).Some? ==>
              var t := Do(policy, requests, s, a).value; t == s.(phases := t.phases)
  {
    assert s.handles - {p} == s.handles;
  }

  /** The handle is what protects the lock: a refused recorder gets to its finally block under another's lock. */
  lemma RefusedUnderLock(policy: Policy, run: Run, requests: map<Pid, Request>, p: Pid, q: Pid) returns (s: State)
    requires p in requests && q in requests && p != q
    requires Admissible(policy, requests[p]) && Admissible(policy, requests[q])
    ensures Reachable(policy, run, requests, s)
    ensures s.lockFile && s.handles == {p} && q in s.phases && s.phases[q].Refusing?
    ensures Do(policy, requests, s, Finally(q)) == Some(With(s, q, Refused))
  {
    var s0 := Initial(run, requests);
    ExecSnoc(policy, requests, s0, [], Acquire(p));
    ExecSnoc(policy, requests, s0, [Acquire(p)], Acquire(q));
    assert [] + [Acquire(p)] == [Acquire(p)] && [Acquire(p)] + [Acquire(q)] == [Acquire(p), Acquire(q)];
    s := Exec(policy, requests, s0, [Acquire(p), Acquire(q)]).value;
  }

  /******* Reading back *******/

  lemma {:induction false} ReplayParses(policy: Policy, run: Run, requests: map<Pid, Request>, log: seq<Commit>)
    requires ParsesRun(policy, run) && Recorded(policy, run, requests, log)
    ensures ParsesRun(policy, Replay(run, requests, log))
  {
    if log != [] {
      var n := |log| - 1;
      RecordedPrefix(policy, run, requests, log, n);
      ReplayParses(policy, run, requests, log[..n]);
      assert RecordedAt(policy, run, requests, log, n);
      AppliedParses(policy, Replay(run, requests, log[..n]), requests[log[n].pid], log[n].now);
    }
  }

  lemma AppliedParses(policy: Policy, run: Run, q: Request, now: int)
    requires ParsesRun(policy, run) && Recordable(policy, run, q, now)
    ensures ParsesRun(policy, Applied(run, q, now))
  {
  }

  lemma RecordedPrefix(policy: Policy, run: Run, requests: map<Pid, Request>, log: seq<Commit>, n: nat)
    requires Recorded(policy, run, requests, log) && n <= |log|
    ensures Recorded(policy, run, requests, log[..n])
  {
    forall i | 0 <= i < n ensures RecordedAt(policy, run, requests, log[..n], i) {
      assert RecordedAt(policy, run, requests, log, i) && log[..n][..i] == log[..i];
    }
  }

  /** Every stored run parses, with evidence on each PASS: it can be read back exactly when it is not too large. */
  lemma StoredRunReadableIff(policy: Policy, run: Run, requests: map<Pid, Request>, actions: seq<Action>)
    requires ParsesRun(policy, run) && Exec(policy, requests, Initial(run, requests), actions).Some?
    ensures var stored := Exec(policy, requests, Initial(run, requests), actions).value.stored;
            ParsesRun(policy, stored) && (Readable(policy, stored) <==> 0 < policy.size(stored) <= SIZE_LIMIT)
  {
    EveryInterleaving(policy, run, requests, actions);
    ReplayParses(policy, run, requests, Exec(policy, requests, Initial(run, requests), actions).value.log);
  }

  /** No interleaving ever stores a secret in a run that had none. */
  lemma StoredRunIsSecretFree(policy: Policy, run: Run, requests: map<Pid, Request>, actions: seq<Action>)
    requires policy.secretFree(run) && Exec(policy, requests, Initial(run, requests), actions).Some?
    ensures policy.secretFree(Exec(policy, requests, Initial(run, requests), actions).value.stored)
  {
    EveryInterleaving(policy, run, requests, actions);
    var log := Exec(policy, requests, Initial(run, requests), actions).value.log;
    if log != [] {
      var n := |log| - 1;
      assert RecordedAt(policy, run, requests, log, n);
    }
  }

  /******* Which runs can be stored *******/

  /** A serial history: different recorders, each recordable after the ones before it. */
  ghost predicate Serial(policy: Policy, run: Run, requests: map<Pid, Request>, log: seq<Commit>) {
    && Recorded(policy, run, requests, log)
    && forall i, j :: 0 <= i < j < |log| ==> log[i].pid != log[j].pid
  }

  ghost predicate Mentions(log: seq<Commit>, p: Pid) {
    exists c :: c in log && c.pid == p
  }

  lemma EarlierOthers(log: seq<Commit>, i: nat)
    requires i < |log| && forall j, k :: 0 <= j < k < |log| ==> log[j].pid != log[k].pid
    ensures !Mentions(log[..i], log[i].pid)
  {
    forall c | c in log[..i] ensures c.pid != log[i].pid {
      var j :| 0 <= j < i && log[..i][j] == c;
    }
  }

  lemma ExecSnoc(policy: Policy, requests: map<Pid, Request>, s: State, actions: seq<Action>, a: Action)
    ensures Exec(policy, requests, s, actions + [a]) ==
            match Exec(policy, requests, s, actions) case None => None case Some(t) => Do(policy, requests, t, a)
  {
    assert (actions + [a])[..|actions|] == actions;
  }

  lemma {:induction false} ExecConcat(policy: Policy, requests: map<Pid, Request>, s: State, first: seq<Action>,
                                      second: seq<Action>)
    ensures Exec(policy, requests, s, first + second) ==
            match Exec(policy, requests, s, first) case None => None case Some(t) => Exec(policy, requests, t, second)
  {
    if second == [] {
      assert first + second == first;
    } else {
      var n := |second| - 1;
      assert first + second == (first + second[..n]) + [second[n]];
      ExecConcat(policy, requests, s, first, second[..n]);
      ExecSnoc(policy, requests, s, first + second[..n], second[n]);
    }
  }

  /** What a recorder on its own leaves behind. */
  ghost function AfterCommit(requests: map<Pid, Request>, s: State, p: Pid, now: int, ok: bool): State
    requires p in requests
  {
    s.(stored := Applied(s.stored, requests[p], now), phases := s.phases[p := Finished(ok, true)],
       log := s.log + [Commit(p, s.nextTurn, now)], turns := s.turns[p := s.nextTurn], nextTurn := s.nextTurn + 1)
  }

  lemma CommitsAlone(policy: Policy, requests: map<Pid, Request>, s: State, p: Pid, now: int, ok: bool)
    returns (actions: seq<Action>)
    requires p in requests && p in s.phases && s.phases[p].Starting? && !s.lockFile && p !in s.handles
    requires Recordable(policy, s.stored, requests[p], now)
    ensures Exec(policy, requests, s, actions) == Some(AfterCommit(requests, s, p, now, ok))
  {
    var t := PreparesAlone(policy, requests, s, p, now);
    var u := t.(stored := Applied(s.stored, requests[p], now), phases := s.phases[p := Renamed],
                log := s.log + [Commit(p, s.nextTurn, now)]);
    Overwritten(s.phases, p, t.phases[p], Renamed);
    Overwritten(s.phases, p, Renamed, Closing(ok, true));
    Overwritten(s.phases, p, Closing(ok, true), Finished(ok, true));
    actions := [Acquire(p), Load(p), Prepare(p, now)];
    ExecSnoc(policy, requests, s, actions, Replace(p));
    actions := actions + [Replace(p)];
    assert Exec(policy, requests, s, actions) == Some(u);
    ExecSnoc(policy, requests, s, actions, Confirm(p, ok));
    actions := actions + [Confirm(p, ok)];
    ExecSnoc(policy, requests, s, actions, Finally(p));
    actions := actions + [Finally(p)];
    assert s.handles + {p} - {p} == s.handles;
  }

  /** A recorder on its own commits its record and frees the lock; what it reports depends on the calls after the rename. */
  lemma AloneItCommits(policy: Policy, requests: map<Pid, Request>, s: State, p: Pid, now: int, ok: bool)
    returns (actions: seq<Action>, t: State)
    requires p in requests && p in s.phases && s.phases[p].Starting? && !s.lockFile && p !in s.handles
    requires Recordable(policy, s.stored, requests[p], now)
    ensures Exec(policy, requests, s, actions) == Some(t)
    ensures Records(s.stored, t.stored, requests[p], now)
    ensures t.phases == s.phases[p := Finished(ok, true)] && !t.lockFile && t.handles == s.handles
    ensures |t.log| == |s.log| + 1 && t.log[..|s.log|] == s.log
    ensures t.log[|s.log|].pid == p && t.log[|s.log|].now == now
  {
    actions := CommitsAlone(policy, requests, s, p, now, ok);
    t := AfterCommit(requests, s, p, now, ok);
    AppliedIff(s.stored, t.stored, requests[p], now);
  }

  lemma Overwritten(phases: map<Pid, Phase>, p: Pid, a: Phase, b: Phase)
    ensures phases[p := a][p := b] == phases[p := b]
  {
  }

  /** A recorder from the lock to just before its rename. */
  lemma PreparesAlone(policy: Policy, requests: map<Pid, Request>, s: State, p: Pid, now: int) returns (t: State)
    requires p in requests && p in s.phases && s.phases[p].Starting? && !s.lockFile
    requires Recordable(policy, s.stored, requests[p], now)
    ensures t == s.(phases := s.phases[p := Prepared(Applied(s.stored, requests[p], now), now)], lockFile := true,
                    handles := s.handles + {p}, turns := s.turns[p := s.nextTurn], nextTurn := s.nextTurn + 1)
    ensures Exec(policy, requests, s, [Acquire(p), Load(p), Prepare(p, now)]) == Some(t)
  {
    t := s.(phases := s.phases[p := Prepared(Applied(s.stored, requests[p], now), now)], lockFile := true,
            handles := s.handles + {p}, turns := s.turns[p := s.nextTurn], nextTurn := s.nextTurn + 1);
    Overwritten(s.phases, p, Locked, Loaded(s.stored));
    Overwritten(s.phases, p, Loaded(s.stored), t.phases[p]);
    ExecSnoc(policy, requests, s, [], Acquire(p));
    ExecSnoc(policy, requests, s, [Acquire(p)], Load(p));
    ExecSnoc(policy, requests, s, [Acquire(p), Load(p)], Prepare(p, now));
    assert [] + [Acquire(p)] == [Acquire(p)];
    assert [Acquire(p)] + [Load(p)] == [Acquire(p), Load(p)];
    assert [Acquire(p), Load(p)] + [Prepare(p, now)] == [Acquire(p), Load(p), Prepare(p, now)];
  }

  /** Nobody is in the lock, and exactly the recorders outside the log have not started. */
  ghost predicate Idle(requests: map<Pid, Request>, s: State, run: Run) {
    && !s.lockFile && s.handles == {} && s.phases.Keys == requests.Keys
    && s.stored == Replay(run, requests, s.log)
    && forall p | p in s.phases && !Mentions(s.log, p) :: s.phases[p].Starting?
  }

  ghost predicate SameHistory(log: seq<Commit>, other: seq<Commit>) {
    |log| == |other| && forall i :: 0 <= i < |log| ==> log[i].pid == other[i].pid && log[i].now == other[i].now
  }

  lemma {:induction false} SameHistoryReplays(run: Run, requests: map<Pid, Request>, log: seq<Commit>, other: seq<Commit>)
    requires SameHistory(log, other)
    ensures Replay(run, requests, log) == Replay(run, requests, other)
  {
    if log != [] {
      SameHistoryReplays(run, requests, log[..|log| - 1], other[..|log| - 1]);
    }
  }

  lemma SameHistoryMentions(log: seq<Commit>, other: seq<Commit>, p: Pid)
    requires SameHistory(log, other)
    ensures Mentions(log, p) <==> Mentions(other, p)
  {
    if c :| c in log && c.pid == p {
      var i :| 0 <= i < |log| && log[i] == c;
      assert other[i] in other;
    }
    if c :| c in other && c.pid == p {
      var i :| 0 <= i < |other| && other[i] == c;
      assert log[i] in log;
    }
  }

  /** One recorder after another realises every serial history. */
  lemma {:induction false} SerialIsReachable(policy: Policy, run: Run, requests: map<Pid, Request>, log: seq<Commit>)
    returns (actions: seq<Action>, s: State)
    requires Serial(policy, run, requests, log)
    ensures Exec(policy, requests, Initial(run, requests), actions) == Some(s)
    ensures Idle(requests, s, run) && SameHistory(s.log, log)
  {
    if log == [] {
      actions, s := [], Initial(run, requests);
    } else {
      RecordedPrefix(policy, run, requests, log, |log| - 1);
      actions, s := SerialIsReachable(policy, run, requests, log[..|log| - 1]);
      var more, next := RealisesLast(policy, run, requests, log, s);
      ExecConcat(policy, requests, Initial(run, requests), actions, more);
      actions, s := actions + more, next;
    }
  }

  lemma RealisesLast(policy: Policy, run: Run, requests: map<Pid, Request>, log: seq<Commit>, t: State)
    returns (more: seq<Action>, s: State)
    requires log != [] && Serial(policy, run, requests, log)
    requires Idle(requests, t, run) && SameHistory(t.log, log[..|log| - 1])
    ensures Exec(policy, requests, t, more) == Some(s) && Idle(requests, s, run) && SameHistory(s.log, log)
  {
    var last := log[|log| - 1];
    LastIsIdle(policy, run, requests, log, t);
    more := CommitsAlone(policy, requests, t, last.pid, last.now, true);
    s := AfterCommit(requests, t, last.pid, last.now, true);
    CommitStaysIdle(requests, t, run, last.pid, last.now, true);
  }

  lemma LastIsIdle(policy: Policy, run: Run, requests: map<Pid, Request>, log: seq<Commit>, t: State)
    requires log != [] && Serial(policy, run, requests, log)
    requires Idle(requests, t, run) && SameHistory(t.log, log[..|log| - 1])
    ensures var last := log[|log| - 1];
            && last.pid in t.phases && t.phases[last.pid].Starting?
            && Recordable(policy, t.stored, requests[last.pid], last.now)
  {
    var n := |log| - 1;
    SameHistoryReplays(run, requests, t.log, log[..n]);
    SameHistoryMentions(t.log, log[..n], log[n].pid);
    EarlierOthers(log, n);
    assert RecordedAt(policy, run, requests, log, n);
  }

  lemma CommitStaysIdle(requests: map<Pid, Request>, s: State, run: Run, p: Pid, now: int, ok: bool)
    requires Idle(requests, s, run) && p in requests && p in s.phases
    ensures Idle(requests, AfterCommit(requests, s, p, now, ok), run)
  {
    var c := Commit(p, s.nextTurn, now);
    ReplaySnoc(run, requests, s.log, c);
    assert c in s.log + [c];
    assert forall x :: x in s.log ==> x in s.log + [c];
  }

  lemma InvIsSerial(policy: Policy, run: Run, requests: map<Pid, Request>, s: State)
    requires Inv(policy, run, requests, s)
    ensures Serial(policy, run, requests, s.log)
  {
  }

  /** A stored result that the content check lets through. */
  ghost predicate SoundResult(policy: Policy, step: string, r: StepResult) {
    && policy.knownStep(step) && policy.environment(r.environment)
    && (forall i :: 0 <= i < |r.evidenceRefs| ==> policy.evidence(r.evidenceRefs[i]))
    && (forall i :: 0 <= i < |r.artifactHashes| ==> policy.hash(r.artifactHashes[i]))
    && (policy.needsEvidence && r.status == Pass ==> |r.evidenceRefs| + |r.artifactHashes| > 0)
  }

  /**
   The request may be recorded next: the run is for its commit, is at most two mebibytes long and holds sound
   results; the new result is sound, and the new run shows no secret.
   */
  ghost predicate MayRecord(policy: Policy, run: Run, next: Run, q: Request, now: int) {
    && run.testedCommit == q.testedCommit && 1 <= policy.size(run) <= 2_097_152
    && (forall step :: step in run.steps ==> SoundResult(policy, step, run.steps[step]))
    && Records(run, next, q, now) && SoundResult(policy, q.step, next.steps[q.step]) && policy.secretFree(next)
  }

  lemma MayRecordIff(policy: Policy, run: Run, next: Run, q: Request, now: int)
    ensures MayRecord(policy, run, next, q, now) <==> Recordable(policy, run, q, now) && next == Applied(run, q, now)
  {
    AppliedIff(run, next, q, now);
    SoundRunIff(policy, run);
    if Records(run, next, q, now) {
      SoundResultIff(policy, q.step, next.steps[q.step]);
    }
  }

  lemma SoundRunIff(policy: Policy, run: Run)
    ensures ParsesRun(policy, run) <==> forall step :: step in run.steps ==> SoundResult(policy, step, run.steps[step])
  {
    forall step | step in run.steps
      ensures SoundResult(policy, step, run.steps[step]) <==> Parses(policy, step, run.steps[step])
    {
      SoundResultIff(policy, step, run.steps[step]);
    }
  }

  lemma SoundResultIff(policy: Policy, step: string, r: StepResult)
    ensures SoundResult(policy, step, r) <==> Parses(policy, step, r)
  {
    AllOf(policy.evidence, r.evidenceRefs);
    AllOf(policy.hash, r.artifactHashes);
  }

  lemma AllOf(holds: string -> bool, texts: seq<string>)
    ensures (forall i :: 0 <= i < |texts| ==> holds(texts[i])) <==> (forall t | t in texts :: holds(t))
  {
    if forall t | t in texts :: holds(t) {
      assert forall i :: 0 <= i < |texts| ==> texts[i] in texts;
    }
  }

  /** The runs before, between and after the commits of different recorders, each allowed where it stands. */
  ghost predicate OneByOne(policy: Policy, run: Run, requests: map<Pid, Request>, log: seq<Commit>, runs: seq<Run>) {
    && |runs| == |log| + 1 && runs[0] == run
    && (forall i, j :: 0 <= i < j < |log| ==> log[i].pid != log[j].pid)
    && forall i :: 0 <= i < |log| ==> NextRun(policy, requests, log[i], runs[i], runs[i + 1])
  }

  ghost predicate NextRun(policy: Policy, requests: map<Pid, Request>, c: Commit, run: Run, next: Run) {
    c.pid in requests && MayRecord(policy, run, next, requests[c.pid], c.now)
  }

  lemma {:induction false} SerialRuns(policy: Policy, run: Run, requests: map<Pid, Request>, log: seq<Commit>)
    returns (runs: seq<Run>)
    requires Serial(policy, run, requests, log)
    ensures OneByOne(policy, run, requests, log, runs) && runs[|log|] == Replay(run, requests, log)
  {
    if log == [] {
      runs := [run];
    } else {
      var n := |log| - 1;
      RecordedPrefix(policy, run, requests, log, n);
      var before := SerialRuns(policy, run, requests, log[..n]);
      runs := before + [Replay(run, requests, log)];
      assert RecordedAt(policy, run, requests, log, n);
      MayRecordIff(policy, before[n], runs[n + 1], requests[log[n].pid], log[n].now);
      forall i | 0 <= i < |log| ensures NextRun(policy, requests, log[i], runs[i], runs[i + 1]) {
        assert i < n ==> NextRun(policy, requests, log[..n][i], before[i], before[i + 1]);
      }
    }
  }

  lemma OneByOnePrefix(policy: Policy, run: Run, requests: map<Pid, Request>, log: seq<Commit>, runs: seq<Run>, n: nat)
    requires OneByOne(policy, run, requests, log, runs) && n <= |log|
    ensures OneByOne(policy, run, requests, log[..n], runs[..n + 1])
  {
    forall i | 0 <= i < n ensures NextRun(policy, requests, log[..n][i], runs[..n + 1][i], runs[..n + 1][i + 1]) {
      assert NextRun(policy, requests, log[i], runs[i], runs[i + 1]);
    }
  }

  lemma {:induction false} OneByOneIsSerial(policy: Policy, run: Run, requests: map<Pid, Request>, log: seq<Commit>,
                                            runs: seq<Run>)
    requires OneByOne(policy, run, requests, log, runs)
    ensures Recorded(policy, run, requests, log) && runs[|log|] == Replay(run, requests, log)
  {
    if log != [] {
      var n := |log| - 1;
      OneByOnePrefix(policy, run, requests, log, runs, n);
      OneByOneIsSerial(policy, run, requests, log[..n], runs[..n + 1]);
      assert NextRun(policy, requests, log[n], runs[n], runs[n + 1]);
      MayRecordIff(policy, runs[n], runs[n + 1], requests[log[n].pid], log[n].now);
      assert log == log[..n] + [log[n]];
      RecordedSnoc(policy, run, requests, log[..n], log[n]);
    }
  }

  /**
   A run can be stored under some interleaving exactly when recorders could have produced it one at a time, each
   changing its step and the time and nothing else.
   */
  lemma StoredIffSerial(policy: Policy, run: Run, requests: map<Pid, Request>, stored: Run)
    ensures (exists s :: Reachable(policy, run, requests, s) && s.stored == stored) <==>
            (exists log, runs :: OneByOne(policy, run, requests, log, runs) && runs[|log|] == stored)
  {
    if s :| Reachable(policy, run, requests, s) && s.stored == stored {
      ReachableIsInv(policy, run, requests, s);
      InvIsSerial(policy, run, requests, s);
      var runs := SerialRuns(policy, run, requests, s.log);
    }
    if log, runs :| OneByOne(policy, run, requests, log, runs) && runs[|log|] == stored {
      OneByOneIsSerial(policy, run, requests, log, runs);
      var actions, s := SerialIsReachable(policy, run, requests, log);
      SameHistoryReplays(run, requests, s.log, log);
      assert Reachable(policy, run, requests, s);
    }
  }

  /******* Failures that recorded something *******/

  /** The call reported a failure although its record was stored. */
  ghost predicate HidesCommit(s: State, p: Pid) {
    p in s.phases && s.phases[p] == Finished(false, true)
  }

  /** The record can be made after some serial history of other recorders. */
  ghost predicate RecordableAfter(policy: Policy, run: Run, requests: map<Pid, Request>, log: seq<Commit>, p: Pid, now: int)
    requires p in requests
  {
    && Serial(policy, run, requests, log) && !Mentions(log, p)
    && Recordable(policy, Replay(run, requests, log), requests[p], now)
  }

  /**
   A call can report a failure and still have recorded exactly when its record could be made at all: the rename
   comes before the last calls.  Otherwise a reported failure means that nothing was recorded.
   */
  lemma FailureMayHaveCommitted(policy: Policy, run: Run, requests: map<Pid, Request>, p: Pid)
    requires p in requests
    ensures (exists s :: Reachable(policy, run, requests, s) && HidesCommit(s, p)) <==>
            (exists log, now :: RecordableAfter(policy, run, requests, log, p, now))
  {
    if s :| Reachable(policy, run, requests, s) && HidesCommit(s, p) {
      ReachableIsInv(policy, run, requests, s);
      var log, now := HistoryBefore(policy, run, requests, s, p);
    }
    if log: seq<Commit>, now: int :| RecordableAfter(policy, run, requests, log, p, now) {
      var s := FailsAfterCommit(policy, run, requests, log, p, now);
    }
  }

  lemma HistoryBefore(policy: Policy, run: Run, requests: map<Pid, Request>, s: State, p: Pid)
    returns (log: seq<Commit>, now: int)
    requires Inv(policy, run, requests, s) && p in requests && p in s.phases && Committed(s.phases[p])
    ensures RecordableAfter(policy, run, requests, log, p, now)
  {
    assert InLog(s, p);
    var c :| c in s.log && c.pid == p;
    var i :| 0 <= i < |s.log| && s.log[i] == c;
    InvIsSerial(policy, run, requests, s);
    EntryIsRecordable(policy, run, requests, s.log, i);
    log, now := s.log[..i], c.now;
  }

  lemma EntryIsRecordable(policy: Policy, run: Run, requests: map<Pid, Request>, log: seq<Commit>, i: nat)
    requires Serial(policy, run, requests, log) && i < |log|
    ensures log[i].pid in requests && RecordableAfter(policy, run, requests, log[..i], log[i].pid, log[i].now)
  {
    RecordedPrefix(policy, run, requests, log, i);
    EarlierOthers(log, i);
    assert RecordedAt(policy, run, requests, log, i);
  }

  lemma FailsAfterCommit(policy: Policy, run: Run, requests: map<Pid, Request>, log: seq<Commit>, p: Pid, now: int)
    returns (s: State)
    requires p in requests && RecordableAfter(policy, run, requests, log, p, now)
    ensures Reachable(policy, run, requests, s) && HidesCommit(s, p)
  {
    var earlier, t := SerialIsReachable(policy, run, requests, log);
    SameHistoryReplays(run, requests, t.log, log);
    SameHistoryMentions(t.log, log, p);
    var more := CommitsAlone(policy, requests, t, p, now, false);
    ExecConcat(policy, requests, Initial(run, requests), earlier, more);
    s := AfterCommit(requests, t, p, now, false);
    assert Exec(policy, requests, Initial(run, requests), earlier + more) == Some(s);
  }

  lemma OnlyOne(policy: Policy, run: Run, requests: map<Pid, Request>, p: Pid, log: seq<Commit>)
    requires requests.Keys == {p} && Recorded(policy, run, requests, log)
    ensures log != [] ==> Mentions(log, p)
  {
    if log != [] {
      assert RecordedAt(policy, run, requests, log, 0);
      assert log[0] in log && log[0].pid in requests.Keys;
    }
  }

  /** For a single recorder the condition is that its request passes every check against the run, at some time. */
  lemma AloneFailureIff(policy: Policy, run: Run, requests: map<Pid, Request>, p: Pid)
    requires requests.Keys == {p}
    ensures (exists s :: Reachable(policy, run, requests, s) && HidesCommit(s, p)) <==>
            (exists next, now :: MayRecord(policy, run, next, requests[p], now))
  {
    FailureMayHaveCommitted(policy, run, requests, p);
    if log: seq<Commit>, now: int :| RecordableAfter(policy, run, requests, log, p, now) {
      OnlyOne(policy, run, requests, p, log);
      MayRecordIff(policy, run, Applied(run, requests[p], now), requests[p], now);
    }
    if next, now :| MayRecord(policy, run, next, requests[p], now) {
      MayRecordIff(policy, run, next, requests[p], now);
      assert RecordableAfter(policy, run, requests, [], p, now);
    }
  }

  /** A call that ended recorded if and only if its rename took effect; what it reported does not decide it. */
  lemma EndedRecordedIff(policy: Policy, run: Run, requests: map<Pid, Request>, s: State, p: Pid)
    requires Reachable(policy, run, requests, s) && p in requests && p in s.phases && s.phases[p].Finished?
    ensures InLog(s, p) <==> s.phases[p].committed
    ensures s.phases[p].ok ==> s.phases[p].committed
    ensures s.phases[p].committed ==> exists log, now :: RecordableAfter(policy, run, requests, log, p, now)
  {
    var actions :| Exec(policy, requests, Initial(run, requests), actions) == Some(s);
    SuccessIsCommitted(policy, run, requests, actions);
    ReachableIsInv(policy, run, requests, s);
    assert Committed(s.phases[p]) <==> InLog(s, p);
    if s.phases[p].committed {
      var log, now := HistoryBefore(policy, run, requests, s, p);
    }
  }

  /******* A run that grew too large *******/

  ghost predicate Stuck(policy: Policy, s: State) {
    !Readable(policy, s.stored) && forall p | p in s.phases :: !s.phases[p].Loaded? && !s.phases[p].Prepared?
  }

  /** Once the stored run is unreadable and nobody is past reading it, it never changes again. */
  lemma {:induction false} StuckForever(policy: Policy, requests: map<Pid, Request>, s: State, actions: seq<Action>)
    requires Stuck(policy, s) && Exec(policy, requests, s, actions).Some?
    ensures var t := Exec(policy, requests, s, actions).value;
            Stuck(policy, t) && t.stored == s.stored && t.log == s.log
  {
    if actions != [] {
      StuckForever(policy, requests, s, actions[..|actions| - 1]);
      StuckStep(policy, requests, Exec(policy, requests, s, actions[..|actions| - 1]).value, actions[|actions| - 1]);
    }
  }

  lemma StuckStep(policy: Policy, requests: map<Pid, Request>, s: State, a: Action)
    requires Stuck(policy, s) && Do(policy, requests, s, a).Some?
    ensures var t := Do(policy, requests, s, a).value; Stuck(policy, t) && t.stored == s.stored && t.log == s.log
  {
  }

  /** The write is not size-checked: a recorder may succeed and leave a run that no recorder ever changes again. */
  lemma OversizedRunBlocksRecording(policy: Policy, run: Run, requests: map<Pid, Request>, p: Pid, now: int)
    returns (actions: seq<Action>)
    requires p in requests && Recordable(policy, run, requests[p], now)
    requires policy.size(Applied(run, requests[p], now)) > SIZE_LIMIT
    ensures Exec(policy, requests, Initial(run, requests), actions).Some?
    ensures var s := Exec(policy, requests, Initial(run, requests), actions).value;
            && p in s.phases && s.phases[p] == Finished(true, true) && !s.lockFile
            && forall more :: Exec(policy, requests, s, more).Some? ==>
                 Exec(policy, requests, s, more).value.stored == s.stored
  {
    actions := CommitsAlone(policy, requests, Initial(run, requests), p, now, true);
    var s := Exec(policy, requests, Initial(run, requests), actions).value;
    forall more | Exec(policy, requests, s, more).Some?
      ensures Exec(policy, requests, s, more).value.stored == s.stored
    {
      StuckForever(policy, requests, s, more);
    }
  }

  /******* Clearing the lock by hand *******/

  /** Removing the lock under an active recorder loses an update: both commit, only the second is stored. */
  lemma UnsafeRemovalLosesUpdate(policy: Policy, run: Run, requests: map<Pid, Request>, p: Pid, q: Pid, now: int)
    returns (first: State, second: State, last: State)
    requires p in requests && q in requests && p != q
    requires requests[p].step != requests[q].step && requests[q].step !in run.steps
    requires Recordable(policy, run, requests[p], now) && Recordable(policy, run, requests[q], now)
    ensures Exec(policy, requests, Initial(run, requests), [Acquire(p), Load(p), Prepare(p, now)]) == Some(first)
    ensures Exec(policy, requests, first.(lockFile := false), [Acquire(q), Load(q), Prepare(q, now)]) == Some(second)
    ensures Exec(policy, requests, second, [Replace(q), Replace(p)]) == Some(last)
    ensures InLog(last, q) && requests[q].step !in last.stored.steps
  {
    first := PreparesAlone(policy, requests, Initial(run, requests), p, now);
    second := PreparesAlone(policy, requests, first.(lockFile := false), q, now);
    ExecSnoc(policy, requests, second, [], Replace(q));
    ExecSnoc(policy, requests, second, [Replace(q)], Replace(p));
    assert [] + [Replace(q)] == [Replace(q)] && [Replace(q)] + [Replace(p)] == [Replace(q), Replace(p)];
    last := Exec(policy, requests, second, [Replace(q), Replace(p)]).value;
    assert Commit(q, second.turns[q], now) in last.log;
  }
}
