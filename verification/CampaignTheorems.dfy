/**
 What the campaign validator and its two transitions promise together: the accepted campaigns
 are exactly the reachable ones, the main chain keeps its slots, runs are bounded, and usage
 that is unknown or over budget ends the campaign.
 */
module CampaignTheorems {
  import opened Wrappers
  import opened Campaign

  /******* A local reading of the validator *******/

  /** Unknown usage stays unknown, nothing sent costs nothing, and anything else is measured and has a receipt. */
  predicate WellSettled(s: Settlement) {
    match s.outcome
    case Unknown => s.totalTokens == Absent && s.receiptHash.None?
    case NotSent => s.totalTokens == Integer(0) && s.receiptHash.None?
    case Reported | Failed =>
      && s.totalTokens.Integer? && 0 <= s.totalTokens.n <= MAX_SAFE_INTEGER
      && s.receiptHash.Some? && Sha256Text(s.receiptHash.value)
    case OtherOutcome => false
  }

  lemma WellSettledIff(s: Settlement)
    ensures SettlementFault(s).None? <==> WellSettled(s)
  {
  }

  /** Attempt a may follow this log: nothing but the log before it matters. */
  ghost predicate Admissible(created: int, before: seq<Attempt>, a: Attempt) {
    && !Unresolved(before)
    && SafeId(a.id) && (forall p | p in before :: p.id != a.id)
    && a.purpose != OtherPurpose && a.reservedTokens == TOKENS_PER_ATTEMPT
    && (a.purpose == Replacement ==> Replaces(before, a))
    && (a.purpose != Replacement ==> a.replacementOf.None?)
    && (!IsMain(a.purpose) ==> |before| + 1 + MissingMain(MainSeen(before)) <= ATTEMPT_LIMIT)
    && (IsMain(a.purpose) ==> forall p | p in before :: p.purpose != a.purpose)
    && a.startedAt.Canonical? && LastTime(created, before) <= a.startedAt.ms
    && (a.settlement.Some? ==> WellSettled(a.settlement.value))
  }

  /** a names one earlier attempt that was confirmed not sent and has no replacement yet. */
  ghost predicate Replaces(before: seq<Attempt>, a: Attempt) {
    && a.replacementOf.Some?
    && (exists p :: p in before && p.id == a.replacementOf.value && ConfirmedNotSent(p))
    && (forall p | p in before :: p.replacementOf != a.replacementOf)
  }

  ghost predicate Appendable(created: int, log: seq<Attempt>) {
    forall i :: 0 <= i < |log| ==> Admissible(created, log[..i], log[i])
  }

  ghost predicate DistinctIds(log: seq<Attempt>) {
    forall i, j :: 0 <= i < j < |log| ==> log[i].id != log[j].id
  }

  lemma IdsSnoc(log: seq<Attempt>, a: Attempt)
    ensures Ids(log + [a]) == Ids(log) + {a.id}
  {
  }

  lemma LastIsNew(log: seq<Attempt>)
    requires log != [] && DistinctIds(log)
    ensures var n := |log| - 1; DistinctIds(log[..n]) && log[n].id !in Ids(log[..n])
  {
    var n := |log| - 1;
    forall a | a in log[..n] ensures a.id != log[n].id {
      var i :| 0 <= i < n && log[i] == a;
    }
  }

  lemma {:induction false} DistinctIdsCount(log: seq<Attempt>)
    requires DistinctIds(log)
    ensures |Ids(log)| == |log|
  {
    if log != [] {
      var n := |log| - 1;
      LastIsNew(log);
      DistinctIdsCount(log[..n]);
      IdsSnoc(log[..n], log[n]);
      assert log[..n] + [log[n]] == log;
    }
  }

  lemma {:induction false} FindByIdFindsTheOne(all: seq<Attempt>, j: nat)
    requires DistinctIds(all) && j < |all|
    ensures FindById(all, all[j].id) == Some(all[j])
  {
    if j > 0 {
      FindByIdFindsTheOne(all[1..], j - 1);
    }
  }

  lemma {:induction false} FaultFreeFrom(all: seq<Attempt>, created: int, i: nat)
    requires i <= |all|
    ensures FirstFault(all, created, i).None? <==>
            forall j :: i <= j < |all| ==> AttemptFault(all, created, j).None?
    decreases |all| - i
  {
    if i < |all| {
      FaultFreeFrom(all, created, i + 1);
    }
  }

  lemma KnownIdsAreBefore(all: seq<Attempt>, i: nat)
    requires DistinctIds(all) && i < |all|
    ensures forall p | p in all :: p.id in Ids(all[..i]) <==> p in all[..i]
  {
    var before := all[..i];
    forall p | p in all ensures p.id in Ids(before) <==> p in before {
      if p.id in Ids(before) {
        var k :| 0 <= k < |all| && all[k] == p;
        var q :| q in before && q.id == p.id;
        var j :| 0 <= j < |before| && before[j] == q;
        assert all[j] == q;
      }
    }
  }

  lemma PriorIsFound(all: seq<Attempt>, i: nat, id: string)
    requires DistinctIds(all) && i < |all| && id in Ids(all[..i])
    ensures FindById(all, id).Some? && FindById(all, id).value in all[..i]
    ensures forall p | p in all[..i] :: p.id == id <==> p == FindById(all, id).value
  {
    var before := all[..i];
    var q :| q in before && q.id == id;
    var j :| 0 <= j < |before| && before[j] == q;
    FindByIdFindsTheOne(all, j);
  }

  lemma ReplacementIsLocal(all: seq<Attempt>, i: nat)
    requires DistinctIds(all) && i < |all|
    ensures ReplacementRefused(all, Ids(all[..i]), all[i].replacementOf) <==> !Replaces(all[..i], all[i])
  {
    var before, r := all[..i], all[i].replacementOf;
    KnownIdsAreBefore(all, i);
    assert forall p | p in before :: p in all && p.id in Ids(before);
    if r.Some? && r.value in Ids(before) {
      PriorIsFound(all, i, r.value);
    }
  }

  lemma SeenBefore(before: seq<Attempt>, a: Attempt)
    ensures a.id in Ids(before) <==> exists p :: p in before && p.id == a.id
    ensures IsMain(a.purpose) ==> (a.purpose in MainSeen(before) <==> exists p :: p in before && p.purpose == a.purpose)
  {
  }

  /** On a log with distinct ids the array-wide checks look only backwards. */
  lemma FaultIsLocal(all: seq<Attempt>, created: int, i: nat)
    requires DistinctIds(all) && i < |all|
    ensures AttemptFault(all, created, i).None? <==> Admissible(created, all[..i], all[i])
  {
    var before, a := all[..i], all[i];
    ReplacementIsLocal(all, i);
    if a.settlement.Some? {
      WellSettledIff(a.settlement.value);
    }
    assert DistinctIds(before);
    DistinctIdsCount(before);
    SeenBefore(before, a);
  }

  lemma AppendableIsDistinct(created: int, log: seq<Attempt>)
    requires Appendable(created, log)
    ensures DistinctIds(log)
  {
    forall i, j | 0 <= i < j < |log| ensures log[i].id != log[j].id {
      assert log[..j][i] in log[..j];
    }
  }

  lemma FaultFreeIsDistinct(all: seq<Attempt>, created: int)
    requires FirstFault(all, created, 0).None?
    ensures DistinctIds(all)
  {
    FaultFreeFrom(all, created, 0);
    forall i, j | 0 <= i < j < |all| ensures all[i].id != all[j].id {
      assert AttemptFault(all, created, j).None?;
      assert all[..j][i] in all[..j];
    }
  }

  /** Acceptance is a condition on each attempt against the attempts before it: it is prefix-closed. */
  lemma AcceptsIffAppendable(c: Campaign)
    ensures Accepts(c) <==>
            && HeaderFault(c).None?
            && Appendable(c.createdAt.ms, c.attempts)
            && Spent(c.attempts) <= MAX_SAFE_INTEGER
  {
    if HeaderFault(c).None? {
      var created := c.createdAt.ms;
      if FirstFault(c.attempts, created, 0).None? {
        FaultFreeIsDistinct(c.attempts, created);
      } else if Appendable(created, c.attempts) {
        AppendableIsDistinct(created, c.attempts);
      }
      if DistinctIds(c.attempts) {
        FaultFreeFrom(c.attempts, created, 0);
        forall i | 0 <= i < |c.attempts|
          ensures AttemptFault(c.attempts, created, i).None? <==> Admissible(created, c.attempts[..i], c.attempts[i])
        {
          FaultIsLocal(c.attempts, created, i);
        }
      }
    }
  }

  lemma AppendableSnoc(created: int, log: seq<Attempt>, a: Attempt)
    ensures Appendable(created, log + [a]) <==> Appendable(created, log) && Admissible(created, log, a)
  {
    var longer := log + [a];
    assert longer[..|log|] == log;
    forall i | 0 <= i < |log| ensures longer[..i] == log[..i] && longer[i] == log[i] {
    }
    if Appendable(created, longer) {
      assert Admissible(created, longer[..|log|], longer[|log|]);
      forall i | 0 <= i < |log| ensures Admissible(created, log[..i], log[i]) {
        assert Admissible(created, longer[..i], longer[i]);
      }
    }
  }

  lemma SpentSnoc(log: seq<Attempt>, a: Attempt)
    ensures Spent(log + [a]) == Spent(log) + Usage(a)
  {
    assert (log + [a])[..|log|] == log;
  }

  ghost function Extended(c: Campaign, a: Attempt): Campaign {
    c.(attempts := c.attempts + [a])
  }

  lemma AcceptsSnoc(c: Campaign, a: Attempt)
    requires Accepts(c)
    ensures Accepts(Extended(c, a)) <==>
            && |c.attempts| < ATTEMPT_LIMIT
            && Admissible(c.createdAt.ms, c.attempts, a)
            && Spent(c.attempts) + Usage(a) <= MAX_SAFE_INTEGER
  {
    AcceptsIffAppendable(c);
    AcceptsIffAppendable(Extended(c, a));
    AppendableSnoc(c.createdAt.ms, c.attempts, a);
    SpentSnoc(c.attempts, a);
  }

  ghost function Shortened(c: Campaign): Campaign
    requires c.attempts != []
  {
    c.(attempts := c.attempts[..|c.attempts| - 1])
  }

  ghost function Last(c: Campaign): Attempt
    requires c.attempts != []
  {
    c.attempts[|c.attempts| - 1]
  }

  lemma ShortenedIsAppendable(c: Campaign)
    requires c.attempts != [] && HeaderFault(c).None? && Appendable(c.createdAt.ms, c.attempts)
    ensures c == Extended(Shortened(c), Last(c)) && HeaderFault(Shortened(c)).None?
    ensures Appendable(c.createdAt.ms, Shortened(c).attempts)
    ensures Admissible(c.createdAt.ms, Shortened(c).attempts, Last(c))
  {
    var before := Shortened(c).attempts;
    assert c.attempts == before + [Last(c)];
    AppendableSnoc(c.createdAt.ms, before, Last(c));
  }

  lemma ResolvedIsWithinTotal(log: seq<Attempt>)
    requires !Unresolved(log)
    ensures Spent(log) <= TOTAL_TOKENS
  {
  }

  /** Dropping the last attempt keeps acceptance and leaves an unfrozen campaign within budget. */
  lemma AcceptsShortened(c: Campaign)
    requires Accepts(c) && c.attempts != []
    ensures c == Extended(Shortened(c), Last(c))
    ensures Accepts(Shortened(c)) && !Unresolved(Shortened(c).attempts)
    ensures 0 <= Spent(Shortened(c).attempts) <= TOTAL_TOKENS
  {
    AcceptsIffAppendable(c);
    ShortenedIsAppendable(c);
    SpentIsNatural(c.createdAt.ms, Shortened(c).attempts);
    ResolvedIsWithinTotal(Shortened(c).attempts);
    AcceptsIffAppendable(Shortened(c));
  }

  lemma SpentIsNatural(created: int, log: seq<Attempt>)
    requires Appendable(created, log)
    ensures 0 <= Spent(log)
  {
    forall i | 0 <= i < |log| ensures 0 <= Usage(log[i]) {
      AdmissibleUsage(created, log[..i], log[i]);
    }
    SumIsNatural(log);
  }

  lemma {:induction false} SumIsNatural(log: seq<Attempt>)
    requires forall i :: 0 <= i < |log| ==> 0 <= Usage(log[i])
    ensures 0 <= Spent(log)
  {
    if log != [] {
      SumIsNatural(log[..|log| - 1]);
    }
  }

  lemma AdmissibleUsage(created: int, before: seq<Attempt>, a: Attempt)
    requires Admissible(created, before, a)
    ensures 0 <= Usage(a)
  {
    if a.settlement.Some? {
      assert WellSettled(a.settlement.value);
    }
  }

  /******* When a transition succeeds *******/

  lemma BeginSucceedsIff(c: Campaign, id: string, purpose: Purpose, startedAt: Stamp, replacementOf: Option<string>)
    requires Accepts(c)
    ensures var next := Extended(c, Opened(id, purpose, startedAt, replacementOf));
            && (Begin(c, id, purpose, startedAt, replacementOf).Success? ==>
                  Begin(c, id, purpose, startedAt, replacementOf).value == next)
            && (Begin(c, id, purpose, startedAt, replacementOf).Success? <==>
                  |c.attempts| < ATTEMPT_LIMIT
                  && Admissible(c.createdAt.ms, c.attempts, Opened(id, purpose, startedAt, replacementOf)))
  {
    var a := Opened(id, purpose, startedAt, replacementOf);
    AcceptsOpened(c, a);
    BeginValidates(c, id, purpose, startedAt, replacementOf);
  }

  lemma BeginValidates(c: Campaign, id: string, purpose: Purpose, startedAt: Stamp, replacementOf: Option<string>)
    requires Accepts(c)
    ensures Begin(c, id, purpose, startedAt, replacementOf) ==
            if Unresolved(c.attempts) then Failure(Frozen)
            else Validated(Extended(c, Opened(id, purpose, startedAt, replacementOf)))
  {
  }

  lemma AcceptsOpened(c: Campaign, a: Attempt)
    requires Accepts(c) && a.settlement.None?
    ensures Accepts(Extended(c, a)) <==>
            |c.attempts| < ATTEMPT_LIMIT && Admissible(c.createdAt.ms, c.attempts, a)
  {
    AcceptsSnoc(c, a);
  }

  ghost function Settled(c: Campaign, s: Settlement): Campaign
    requires c.attempts != []
  {
    Extended(Shortened(c), Last(c).(settlement := Some(s)))
  }

  /** A usage record that can still be stored: well formed, and representable with the total so far. */
  ghost predicate Recordable(c: Campaign, s: Settlement) {
    && WellSettled(s)
    && Spent(c.attempts) + (if s.totalTokens.Integer? then s.totalTokens.n else 0) <= MAX_SAFE_INTEGER
  }

  lemma AdmissibleSettled(created: int, before: seq<Attempt>, open: Attempt, s: Settlement)
    requires Admissible(created, before, open) && open.settlement.None?
    ensures Admissible(created, before, open.(settlement := Some(s))) <==> WellSettled(s)
  {
  }

  lemma AcceptsSettled(c: Campaign, s: Settlement)
    requires Accepts(c) && c.attempts != [] && Last(c).settlement.None?
    ensures Accepts(Settled(c, s)) <==> Recordable(c, s)
  {
    var before, last := Shortened(c), Last(c);
    AcceptsShortened(c);
    AcceptsSnoc(before, last);
    AdmissibleSettled(c.createdAt.ms, before.attempts, last, s);
    AcceptsSnoc(before, last.(settlement := Some(s)));
    SpentSnoc(before.attempts, last);
  }

  /** Only the last attempt can be open, so settling is settling the last attempt. */
  lemma SettleSucceedsIff(c: Campaign, id: string, s: Settlement)
    requires Accepts(c)
    ensures Settle(c, id, s).Success? <==>
            && c.attempts != [] && Last(c).id == id && Last(c).settlement.None?
            && Recordable(c, s)
    ensures Settle(c, id, s).Success? ==> Settle(c, id, s).value == Settled(c, s)
  {
    var n, i := |c.attempts|, IndexOf(c.attempts, id);
    if i < n && c.attempts[i].settlement.None? {
      OnlyLastIsOpen(c, i);
      assert c.attempts[i := Last(c).(settlement := Some(s))] == Settled(c, s).attempts;
      AcceptsSettled(c, s);
    } else if n > 0 && Last(c).id == id && Last(c).settlement.None? {
      IdFoundAt(c, n - 1);
    }
  }

  lemma IdFoundAt(c: Campaign, i: nat)
    requires Accepts(c) && i < |c.attempts|
    ensures IndexOf(c.attempts, c.attempts[i].id) == i
  {
    AcceptsIffAppendable(c);
    AppendableIsDistinct(c.createdAt.ms, c.attempts);
  }

  lemma OnlyLastIsOpen(c: Campaign, i: nat)
    requires Accepts(c) && i < |c.attempts| && c.attempts[i].settlement.None?
    ensures i == |c.attempts| - 1
  {
    AcceptsIffAppendable(c);
    forall k | 0 <= k < |c.attempts| ensures !Unresolved(c.attempts[..k]) {
      assert Admissible(c.createdAt.ms, c.attempts[..k], c.attempts[k]);
    }
    assert Unresolved(c.attempts[..i + 1]);
  }

  /******* Accepted campaigns are the reachable campaigns *******/

  datatype Action =
    | DoBegin(id: string, purpose: Purpose, startedAt: Stamp, replacementOf: Option<string>)
    | DoSettle(id: string, settlement: Settlement)

  ghost function Apply(c: Campaign, action: Action): Result<Campaign, Error> {
    match action
    case DoBegin(id, purpose, startedAt, replacementOf) => Begin(c, id, purpose, startedAt, replacementOf)
    case DoSettle(id, settlement) => Settle(c, id, settlement)
  }

  ghost function Run(c: Campaign, actions: seq<Action>): Result<Campaign, Error> {
    if actions == [] then Success(c)
    else
      var reached :- Run(c, actions[..|actions| - 1]);
      Apply(reached, actions[|actions| - 1])
  }

  ghost predicate ReachedBy(c: Campaign, actions: seq<Action>) {
    var started := New(c.candidate, c.runId, c.createdAt);
    started.Success? && Run(started.value, actions) == Success(c)
  }

  lemma StepIsAccepted(c: Campaign, action: Action, next: Campaign)
    requires Accepts(c) && Apply(c, action) == Success(next)
    ensures Accepts(next)
    ensures next.candidate == c.candidate && next.runId == c.runId && next.createdAt == c.createdAt
  {
  }

  lemma {:induction false} ReachableIsAccepted(c: Campaign, actions: seq<Action>, reached: Campaign)
    requires Accepts(c) && Run(c, actions) == Success(reached)
    ensures Accepts(reached)
    ensures reached.candidate == c.candidate && reached.runId == c.runId && reached.createdAt == c.createdAt
  {
    if actions != [] {
      var prior := Run(c, actions[..|actions| - 1]).value;
      ReachableIsAccepted(c, actions[..|actions| - 1], prior);
      StepIsAccepted(prior, actions[|actions| - 1], reached);
    }
  }

  lemma RunSnoc(c: Campaign, actions: seq<Action>, action: Action)
    ensures Run(c, actions + [action]) ==
            if Run(c, actions).Success? then Apply(Run(c, actions).value, action) else Run(c, actions)
  {
    assert (actions + [action])[..|actions|] == actions;
  }

  /** Replays an accepted log as a begin, and a settle where it is settled, for each attempt. */
  lemma {:induction false} AcceptedIsReachable(c: Campaign) returns (actions: seq<Action>)
    requires Accepts(c)
    ensures ReachedBy(c, actions)
    decreases |c.attempts|
  {
    if c.attempts == [] {
      actions := [];
    } else {
      var before, last := Shortened(c), Last(c);
      AcceptsShortened(c);
      var replay := AcceptedIsReachable(before);
      var open := Opened(last.id, last.purpose, last.startedAt, last.replacementOf);
      var begin := DoBegin(last.id, last.purpose, last.startedAt, last.replacementOf);
      AcceptsSnoc(before, last);
      BeginSucceedsIff(before, last.id, last.purpose, last.startedAt, last.replacementOf);
      RunSnoc(New(c.candidate, c.runId, c.createdAt).value, replay, begin);
      actions := replay + [begin];
      if last.settlement.Some? {
        SettleReplays(c);
        RunSnoc(New(c.candidate, c.runId, c.createdAt).value, actions, DoSettle(last.id, last.settlement.value));
        actions := actions + [DoSettle(last.id, last.settlement.value)];
      }
    }
  }

  lemma SettleReplays(c: Campaign)
    requires Accepts(c) && c.attempts != [] && Last(c).settlement.Some?
    ensures var pending := Extended(Shortened(c), Last(c).(settlement := None));
            Settle(pending, Last(c).id, Last(c).settlement.value) == Success(c)
  {
    var before, last := Shortened(c), Last(c);
    var pending := Extended(before, last.(settlement := None));
    AcceptsShortened(c);
    AcceptsSnoc(before, last);
    AcceptsSnoc(before, last.(settlement := None));
    SpentSnoc(before.attempts, last.(settlement := None));
    assert Shortened(pending) == before;
    SettleSucceedsIff(pending, last.id, last.settlement.value);
  }

  /** The validator accepts exactly what some sequence of successful transitions produces. */
  lemma AcceptedIffReachable(c: Campaign)
    ensures Accepts(c) <==> exists actions :: ReachedBy(c, actions)
  {
    if Accepts(c) {
      var actions := AcceptedIsReachable(c);
    }
    if actions :| ReachedBy(c, actions) {
      ReachableIsAccepted(New(c.candidate, c.runId, c.createdAt).value, actions, c);
    }
  }

  /******* The main chain keeps its slots *******/

  lemma MainSlotsReserved(c: Campaign)
    requires Accepts(c)
    ensures |c.attempts| + MissingMain(MainSeen(c.attempts)) <= ATTEMPT_LIMIT
    decreases |c.attempts|
  {
    if c.attempts != [] {
      AcceptsShortened(c);
      MainSlotsReserved(Shortened(c));
      AcceptsSnoc(Shortened(c), Last(c));
      PrefixStep(c.attempts, |c.attempts| - 1);
      assert c.attempts[..|c.attempts|] == c.attempts;
    }
  }

  /** From any unfrozen campaign a missing main purpose can be begun under any fresh id, at any later time. */
  lemma MainNeverStarved(c: Campaign, id: string, purpose: Purpose, startedAt: int)
    requires Accepts(c) && !Unresolved(c.attempts)
    requires IsMain(purpose) && purpose !in MainSeen(c.attempts)
    requires SafeId(id) && id !in Ids(c.attempts)
    requires LastTime(c.createdAt.ms, c.attempts) <= startedAt
    ensures Begin(c, id, purpose, Canonical(startedAt), None) ==
            Success(Extended(c, Opened(id, purpose, Canonical(startedAt), None)))
  {
    MainSlotsReserved(c);
    assert forall p | p in c.attempts :: p.id in Ids(c.attempts);
    assert forall p | p in c.attempts && IsMain(p.purpose) :: p.purpose in MainSeen(c.attempts);
    BeginSucceedsIff(c, id, purpose, Canonical(startedAt), None);
  }

  /******* Runs are bounded *******/

  ghost function SettledCount(log: seq<Attempt>): nat {
    if log == [] then 0
    else SettledCount(log[..|log| - 1]) + (if log[|log| - 1].settlement.Some? then 1 else 0)
  }

  lemma SettledCountSnoc(log: seq<Attempt>, a: Attempt)
    ensures SettledCount(log + [a]) == SettledCount(log) + (if a.settlement.Some? then 1 else 0)
  {
    assert (log + [a])[..|log|] == log;
  }

  lemma {:induction false} SettledCountBound(log: seq<Attempt>)
    ensures SettledCount(log) <= |log|
  {
    if log != [] {
      SettledCountBound(log[..|log| - 1]);
    }
  }

  /** Each successful transition adds one attempt or settles one, so a run is as long as its log says. */
  lemma {:induction false} RunLength(c: Campaign, actions: seq<Action>, reached: Campaign)
    requires Accepts(c) && Run(c, actions) == Success(reached)
    ensures |c.attempts| + SettledCount(c.attempts) + |actions| ==
            |reached.attempts| + SettledCount(reached.attempts) <= 2 * ATTEMPT_LIMIT
  {
    AcceptsIffAppendable(c);
    SettledCountBound(c.attempts);
    if actions != [] {
      var prefix, action := actions[..|actions| - 1], actions[|actions| - 1];
      var prior := Run(c, prefix).value;
      ReachableIsAccepted(c, prefix, prior);
      RunLength(c, prefix, prior);
      StepProgress(prior, action);
      ReachableIsAccepted(c, actions, reached);
      SettledCountBound(reached.attempts);
    }
  }

  lemma StepProgress(c: Campaign, action: Action)
    requires Accepts(c) && Apply(c, action).Success?
    ensures var next := Apply(c, action).value.attempts;
            |next| + SettledCount(next) == |c.attempts| + SettledCount(c.attempts) + 1
  {
    match action
    case DoBegin(id, purpose, startedAt, replacementOf) =>
      BeginSucceedsIff(c, id, purpose, startedAt, replacementOf);
      SettledCountSnoc(c.attempts, Opened(id, purpose, startedAt, replacementOf));
    case DoSettle(id, s) =>
      SettleSucceedsIff(c, id, s);
      AcceptsShortened(c);
      SettledCountSnoc(Shortened(c).attempts, Last(c));
      SettledCountSnoc(Shortened(c).attempts, Last(c).(settlement := Some(s)));
  }

  /******* Budget *******/

  /** Every prefix that something follows is resolved. */
  lemma ResolvedPrefix(c: Campaign, i: nat)
    requires Accepts(c) && i < |c.attempts|
    requires i + 1 < |c.attempts| || !Unresolved(c.attempts)
    ensures !Unresolved(c.attempts[..i + 1])
  {
    AcceptsIffAppendable(c);
    if i + 1 < |c.attempts| {
      assert Admissible(c.createdAt.ms, c.attempts[..i + 1], c.attempts[i + 1]);
    } else {
      assert c.attempts[..i + 1] == c.attempts;
    }
  }

  lemma UsageIsNatural(c: Campaign, i: nat)
    requires Accepts(c) && i < |c.attempts|
    ensures 0 <= Usage(c.attempts[i])
  {
    AcceptsIffAppendable(c);
    AdmissibleUsage(c.createdAt.ms, c.attempts[..i], c.attempts[i]);
  }

  /** Whenever an attempt can be begun, all recorded usage is within both limits. */
  lemma BeginWithinBudget(c: Campaign, id: string, purpose: Purpose, startedAt: Stamp, replacementOf: Option<string>)
    requires Begin(c, id, purpose, startedAt, replacementOf).Success?
    ensures Spent(c.attempts) <= TOTAL_TOKENS
    ensures forall i :: 0 <= i < |c.attempts| ==> 0 <= Usage(c.attempts[i]) <= TOKENS_PER_ATTEMPT
    ensures forall i :: 0 <= i < |c.attempts| ==>
              c.attempts[i].settlement.Some? && c.attempts[i].settlement.value.outcome != Unknown
  {
    assert Accepts(c) && !Unresolved(c.attempts);
    forall i | 0 <= i < |c.attempts|
      ensures 0 <= Usage(c.attempts[i]) <= TOKENS_PER_ATTEMPT
      ensures c.attempts[i].settlement.Some? && c.attempts[i].settlement.value.outcome != Unknown
    {
      ResolvedPrefix(c, i);
      UsageIsNatural(c, i);
      PrefixStep(c.attempts, i);
    }
  }

  lemma AttemptBound(c: Campaign)
    requires Accepts(c)
    ensures |c.attempts| <= ATTEMPT_LIMIT
  {
  }

  /** With four attempts of at most 8192 tokens the total limit is never the check that freezes. */
  lemma TotalLimitIsImplied(c: Campaign)
    requires Accepts(c) && Spent(c.attempts) > TOTAL_TOKENS
    ensures c.attempts != [] && Usage(Last(c)) > TOKENS_PER_ATTEMPT
  {
    AttemptBound(c);
    AcceptsShortened(c);
    UnfrozenSpend(Shortened(c));
    assert Spent(Shortened(c).attempts) <= 3 * TOKENS_PER_ATTEMPT;
  }

  lemma UnfrozenSpend(c: Campaign)
    requires Accepts(c) && !Unresolved(c.attempts)
    ensures Spent(c.attempts) <= |c.attempts| * TOKENS_PER_ATTEMPT
    decreases |c.attempts|
  {
    if c.attempts != [] {
      AcceptsShortened(c);
      UnfrozenSpend(Shortened(c));
      SpentSnoc(Shortened(c).attempts, Last(c));
    }
  }

  /******* When a campaign is over *******/

  /** The last attempt was settled as unknown or over the attempt budget. */
  ghost predicate Sealed(c: Campaign) {
    && c.attempts != [] && Last(c).settlement.Some?
    && (Last(c).settlement.value.outcome == Unknown || Usage(Last(c)) > TOKENS_PER_ATTEMPT)
  }

  ghost predicate Exhausted(c: Campaign) {
    |c.attempts| == ATTEMPT_LIMIT && Last(c).settlement.Some?
  }

  lemma NothingSucceeds(c: Campaign, action: Action)
    requires Accepts(c) && (Sealed(c) || Exhausted(c))
    ensures Apply(c, action).Failure?
  {
    match action
    case DoBegin(id, purpose, startedAt, replacementOf) =>
      BeginSucceedsIff(c, id, purpose, startedAt, replacementOf);
    case DoSettle(id, s) =>
      SettleSucceedsIff(c, id, s);
  }

  /** No transition can succeed exactly when usage sealed the campaign or all four attempts are settled. */
  lemma TerminalIff(c: Campaign)
    requires Accepts(c)
    ensures (forall action :: Apply(c, action).Failure?) <==> Sealed(c) || Exhausted(c)
  {
    if Sealed(c) || Exhausted(c) {
      forall action ensures Apply(c, action).Failure? {
        NothingSucceeds(c, action);
      }
    } else {
      var action := EnabledAction(c);
    }
  }

  lemma EnabledAction(c: Campaign) returns (action: Action)
    requires Accepts(c) && !Sealed(c) && !Exhausted(c)
    ensures Apply(c, action).Success?
  {
    if c.attempts != [] && Last(c).settlement.None? {
      action := EnabledSettle(c);
    } else {
      NothingUnresolved(c);
      action := EnabledBegin(c);
    }
  }

  lemma EnabledSettle(c: Campaign) returns (action: Action)
    requires Accepts(c) && c.attempts != [] && Last(c).settlement.None?
    ensures Apply(c, action).Success?
  {
    AcceptsShortened(c);
    SpentSnoc(Shortened(c).attempts, Last(c));
    var nothing := Settlement(NotSent, Integer(0), None);
    SettleSucceedsIff(c, Last(c).id, nothing);
    action := DoSettle(Last(c).id, nothing);
  }

  lemma NothingUnresolved(c: Campaign)
    requires Accepts(c) && !Sealed(c) && !Exhausted(c)
    requires c.attempts != [] ==> Last(c).settlement.Some?
    ensures !Unresolved(c.attempts) && |c.attempts| < ATTEMPT_LIMIT
  {
    AttemptBound(c);
    if Spent(c.attempts) > TOTAL_TOKENS {
      TotalLimitIsImplied(c);
    }
  }

  lemma EnabledBegin(c: Campaign) returns (action: Action)
    requires Accepts(c) && !Unresolved(c.attempts) && |c.attempts| < ATTEMPT_LIMIT
    ensures Apply(c, action).Success?
  {
    var id := FreshId(c);
    var time, main := LastTime(c.createdAt.ms, c.attempts), MainSeen(c.attempts);
    if Initial !in main || Resume !in main {
      var purpose := if Initial !in main then Initial else Resume;
      MainNeverStarved(c, id, purpose, time);
      action := DoBegin(id, purpose, Canonical(time), None);
    } else {
      assert forall p | p in c.attempts :: p.id in Ids(c.attempts);
      BeginSucceedsIff(c, id, Preflight, Canonical(time), None);
      action := DoBegin(id, Preflight, Canonical(time), None);
    }
  }

  lemma FreshId(c: Campaign) returns (id: string)
    requires Accepts(c) && |c.attempts| < ATTEMPT_LIMIT
    ensures SafeId(id) && id !in Ids(c.attempts)
  {
    AcceptsIffAppendable(c);
    AppendableIsDistinct(c.createdAt.ms, c.attempts);
    DistinctIdsCount(c.attempts);
    id := FreshName(Ids(c.attempts));
  }

  lemma FreshName(ids: set<string>) returns (id: string)
    requires |ids| < 4
    ensures SafeId(id) && id !in ids
  {
    var names := {"a", "b", "c", "d"};
    assert "a"[0] == 'a' && "b"[0] == 'b' && "c"[0] == 'c' && "d"[0] == 'd';
    assert |names| == 4;
    assert |names - ids| + |names * ids| == |names|;
    assert |ids - names| + |ids * names| == |ids|;
    assert names * ids == ids * names;
    id :| id in names - ids;
  }

  /******* Replacement chains *******/

  /** A replacement names exactly one attempt, earlier and confirmed not sent. */
  lemma ReplacementNamesOne(c: Campaign, i: nat) returns (j: nat)
    requires Accepts(c) && i < |c.attempts| && c.attempts[i].purpose == Replacement
    ensures c.attempts[i].replacementOf.Some?
    ensures j < i && c.attempts[j].settlement.Some? && c.attempts[j].settlement.value.outcome == NotSent
    ensures forall k :: 0 <= k < |c.attempts| ==>
              (c.attempts[k].id == c.attempts[i].replacementOf.value <==> k == j)
  {
    var log := c.attempts;
    AcceptsIffAppendable(c);
    AppendableIsDistinct(c.createdAt.ms, log);
    assert Replaces(log[..i], log[i]) by {
      assert Admissible(c.createdAt.ms, log[..i], log[i]);
    }
    j := Predecessor(log, i);
  }

  lemma Predecessor(log: seq<Attempt>, i: nat) returns (j: nat)
    requires DistinctIds(log) && i < |log| && Replaces(log[..i], log[i])
    ensures j < i && ConfirmedNotSent(log[j])
    ensures forall k :: 0 <= k < |log| ==> (log[k].id == log[i].replacementOf.value <==> k == j)
  {
    var p :| p in log[..i] && p.id == log[i].replacementOf.value && ConfirmedNotSent(p);
    j :| 0 <= j < i && log[..i][j] == p;
    assert log[j] == p;
  }

  /** Two attempts never replace the same one, and only replacements name one: the links form disjoint chains. */
  lemma ReplacementChainsDisjoint(c: Campaign, i: nat, k: nat)
    requires Accepts(c) && i < k < |c.attempts|
    ensures c.attempts[k].replacementOf.Some? <==> c.attempts[k].purpose == Replacement
    ensures c.attempts[k].replacementOf.Some? ==> c.attempts[i].replacementOf != c.attempts[k].replacementOf
  {
    var log := c.attempts;
    AcceptsIffAppendable(c);
    assert Admissible(c.createdAt.ms, log[..k], log[k]);
    assert log[..k][i] in log[..k];
  }
}
