/**
 Recording qualification steps (scripts/qualification-capstone/lib.ts): an exclusive-create lock file
 around read, change and atomic rename of the run file, as a state machine over the steps of any
 number of recorders.  The run exists already; file-system calls may fail and recorders may crash.
 */
module RecorderProtocol {
  import opened Wrappers

  const SIZE_LIMIT := 2 * 1024 * 1024

  datatype Status = Pass | Fail

  datatype StepResult = StepResult(status: Status, recordedAt: int, environment: string, evidenceRefs: seq<string>,
                                   artifactHashes: seq<string>)

  datatype Run = Run(correlationId: string, testedCommit: string, createdAt: int, updatedAt: int,
                     steps: map<string, StepResult>)

  /** What one call asks to record. */
  datatype Request = Request(testedCommit: string, step: string, status: Status, environment: string,
                             evidenceRefs: seq<string>, artifactHashes: seq<string>)

  /**
   The grammars, the secret scan, the encoded size of a run, and whether a PASS needs evidence: it does in
   the qualification runs; the live runs of scripts/live-capstone/lib.ts follow the same protocol without it.
   */
  datatype Policy = Policy(knownStep: string -> bool, environment: string -> bool, evidence: string -> bool,
                           hash: string -> bool, secretFree: Run -> bool, size: Run -> nat, needsEvidence: bool)

  /** A PASS carries evidence where the policy asks for it. */
  predicate Evidenced(policy: Policy, status: Status, evidenceRefs: seq<string>, artifactHashes: seq<string>) {
    policy.needsEvidence && status == Pass ==> evidenceRefs != [] || artifactHashes != []
  }

  predicate Parses(policy: Policy, step: string, r: StepResult) {
    && policy.knownStep(step) && policy.environment(r.environment)
    && (forall e | e in r.evidenceRefs :: policy.evidence(e))
    && (forall h | h in r.artifactHashes :: policy.hash(h))
    && Evidenced(policy, r.status, r.evidenceRefs, r.artifactHashes)
  }

  /** The content check of a stored run. */
  predicate ParsesRun(policy: Policy, run: Run) {
    forall step | step in run.steps :: Parses(policy, step, run.steps[step])
  }

  /** A stored run can be read back: small enough, and its content parses. */
  predicate Readable(policy: Policy, run: Run) {
    0 < policy.size(run) <= SIZE_LIMIT && ParsesRun(policy, run)
  }

  /** The checks of a call before it touches the lock. */
  predicate Admissible(policy: Policy, q: Request) {
    && policy.knownStep(q.step) && policy.environment(q.environment)
    && (forall e | e in q.evidenceRefs :: policy.evidence(e))
    && (forall h | h in q.artifactHashes :: policy.hash(h))
  }

  function ResultOf(q: Request, now: int): StepResult {
    StepResult(q.status, now, q.environment, q.evidenceRefs, q.artifactHashes)
  }

  /** The next run record. */
  function Applied(run: Run, q: Request, now: int): Run {
    run.(updatedAt := now, steps := run.steps[q.step := ResultOf(q, now)])
  }

  /** The checks inside the lock, against the run that was read. */
  predicate Checked(policy: Policy, run: Run, q: Request, now: int) {
    && run.testedCommit == q.testedCommit
    && Evidenced(policy, q.status, q.evidenceRefs, q.artifactHashes)
    && policy.secretFree(Applied(run, q, now))
  }

  /** The request passes every check against this run at this time. */
  predicate Recordable(policy: Policy, run: Run, q: Request, now: int) {
    Admissible(policy, q) && Readable(policy, run) && Checked(policy, run, q, now)
  }

  /******* Recorders *******/

  type Pid = nat

  /**
   Where a recorder stands.  Closing and Refusing are the finally block, after the operation and after the
   lock file could not be created.  `committed` tells whether the rename happened.
   */
  datatype Phase =
    | Starting
    | Locked
    | Loaded(current: Run)
    | Prepared(next: Run, now: int)
    | Renamed
    | Closing(ok: bool, committed: bool)
    | Refusing
    | Finished(ok: bool, committed: bool)
    | Refused
    | Rejected
    | Crashed(committed: bool)

  /** Between creating the lock file and the end of the finally block. */
  predicate Holding(phase: Phase) {
    phase.Locked? || phase.Loaded? || phase.Prepared? || phase.Renamed? || phase.Closing?
  }

  predicate Committed(phase: Phase) {
    || phase.Renamed?
    || (phase.Closing? && phase.committed)
    || (phase.Finished? && phase.committed)
    || (phase.Crashed? && phase.committed)
  }

  /** One rename of the run file: whose record, under which turn of the lock, at which time. */
  datatype Commit = Commit(pid: Pid, turn: nat, now: int)

  /**
   Files, open handles of the lock file, and recorders; the log and the turns are history that no recorder
   reads.
   */
  datatype State = State(stored: Run, lockFile: bool, handles: set<Pid>, phases: map<Pid, Phase>, log: seq<Commit>,
                         turns: map<Pid, nat>, nextTurn: nat)

  datatype Action =
    | Check(p: Pid)
    | Acquire(p: Pid)
    | OpenFails(p: Pid)
    | Load(p: Pid)
    | Prepare(p: Pid, now: int)
    | Replace(p: Pid)
    | Confirm(p: Pid, ok: bool)
    | Finally(p: Pid)
    | Break(p: Pid)
    | Crash(p: Pid)
    | ClearStaleLock

  function With(s: State, p: Pid, phase: Phase): State {
    s.(phases := s.phases[p := phase])
  }

  /** The state after an action, if the action can happen. */
  function Do(policy: Policy, requests: map<Pid, Request>, s: State, a: Action): Option<State> {
    if a.ClearStaleLock? then
      // What the refusal message tells an operator to do: only when no recorder is active.
      if s.lockFile && forall p | p in s.phases :: !Holding(s.phases[p]) then Some(s.(lockFile := false)) else None
    else if a.p !in s.phases || a.p !in requests then None
    else
      var p, q, phase := a.p, requests[a.p], s.phases[a.p];
      match a
      case Check(_) =>
        if phase.Starting? && !Admissible(policy, q) then Some(With(s, p, Rejected)) else None
      case Acquire(_) =>
        if !phase.Starting? || !Admissible(policy, q) then None
        else if s.lockFile then Some(With(s, p, Refusing))
        else Some(With(s, p, Locked).(lockFile := true, handles := s.handles + {p}, turns := s.turns[p := s.nextTurn],
                                      nextTurn := s.nextTurn + 1))
      case OpenFails(_) =>
        if phase.Starting? && Admissible(policy, q) then Some(With(s, p, Refusing)) else None
      case Load(_) =>
        if !phase.Locked? then None
        else if Readable(policy, s.stored) then Some(With(s, p, Loaded(s.stored)))
        else Some(With(s, p, Closing(false, false)))
      case Prepare(_, now) =>
        if !phase.Loaded? then None
        else if Checked(policy, phase.current, q, now) then Some(With(s, p, Prepared(Applied(phase.current, q, now), now)))
        else Some(With(s, p, Closing(false, false)))
      case Replace(_) =>
        if !phase.Prepared? || p !in s.turns then None
        else Some(With(s, p, Renamed).(stored := phase.next, log := s.log + [Commit(p, s.turns[p], phase.now)]))
      case Confirm(_, ok) =>
        if phase.Renamed? then Some(With(s, p, Closing(ok, true))) else None
      case Finally(_) =>
        // The same block for every call: it removes the lock file if this call has a handle of it.
        if !phase.Closing? && !phase.Refusing? then None
        else
          var left := With(s, p, if phase.Refusing? then Refused else Finished(phase.ok, phase.committed));
          if p in s.handles then Some(left.(lockFile := false, handles := s.handles - {p})) else Some(left)
      case Break(_) =>
        if phase.Locked? || phase.Loaded? || phase.Prepared? then Some(With(s, p, Closing(false, false))) else None
      case Crash(_) =>
        if phase.Starting? || phase.Refusing? || Holding(phase)
        then Some(With(s, p, Crashed(Committed(phase))).(handles := s.handles - {p})) else None
  }

  /** The state after a whole interleaving. */
  function Exec(policy: Policy, requests: map<Pid, Request>, s: State, actions: seq<Action>): Option<State> {
    if actions == [] then Some(s)
    else match Exec(policy, requests, s, actions[..|actions| - 1])
      case None => None
      case Some(reached) => Do(policy, requests, reached, actions[|actions| - 1])
  }

  function Initial(run: Run, requests: map<Pid, Request>): State {
    State(run, false, {}, map p | p in requests :: Starting, [], map[], 0)
  }

  /** The committed records applied one at a time. */
  function Replay(run: Run, requests: map<Pid, Request>, log: seq<Commit>): Run {
    if log == [] then run
    else
      var last := log[|log| - 1];
      var before := Replay(run, requests, log[..|log| - 1]);
      if last.pid in requests then Applied(before, requests[last.pid], last.now) else before
  }
}
