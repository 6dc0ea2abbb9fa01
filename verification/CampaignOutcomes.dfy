/**
 What each transition of an accepted campaign answers, told from the attempts in the log alone: the new campaign,
 or the first objection in the order in which the validator raises them.
 */
module CampaignOutcomes {
  import opened Wrappers
  import opened Campaign
  import opened CampaignTheorems

  /******* Time *******/

  /** No attempt was started later than this, and the campaign was not created later. */
  ghost predicate NotBefore(created: int, log: seq<Attempt>, time: int) {
    && created <= time
    && forall i :: 0 <= i < |log| && log[i].startedAt.Canonical? ==> log[i].startedAt.ms <= time
  }

  ghost predicate Timely(created: int, log: seq<Attempt>) {
    forall i :: 0 <= i < |log| ==> log[i].startedAt.Canonical? && LastTime(created, log[..i]) <= log[i].startedAt.ms
  }

  lemma AcceptedIsTimely(c: Campaign)
    requires Accepts(c)
    ensures c.createdAt.Canonical? && Timely(c.createdAt.ms, c.attempts)
  {
    AcceptsIffAppendable(c);
    forall i | 0 <= i < |c.attempts|
      ensures c.attempts[i].startedAt.Canonical?
      ensures LastTime(c.createdAt.ms, c.attempts[..i]) <= c.attempts[i].startedAt.ms
    {
      assert Admissible(c.createdAt.ms, c.attempts[..i], c.attempts[i]);
    }
  }

  lemma TimelyPrefix(created: int, log: seq<Attempt>, n: nat)
    requires Timely(created, log) && n <= |log|
    ensures Timely(created, log[..n])
  {
    assert forall i :: 0 <= i < n ==> log[..n][..i] == log[..i] && log[..n][i] == log[i];
  }

  lemma {:induction false} LastTimeIsLatest(created: int, log: seq<Attempt>, time: int)
    requires Timely(created, log)
    ensures LastTime(created, log) <= time <==> NotBefore(created, log, time)
  {
    if log != [] {
      var n := |log| - 1;
      TimelyPrefix(created, log, n);
      LastTimeIsLatest(created, log[..n], log[n].startedAt.ms);
      assert forall i :: 0 <= i < n ==> log[..n][i] == log[i];
    }
  }

  /** Time never runs backwards in an accepted campaign. */
  lemma TimesAscend(c: Campaign)
    requires Accepts(c)
    ensures c.createdAt.Canonical?
    ensures forall i :: 0 <= i < |c.attempts| ==>
              c.attempts[i].startedAt.Canonical? && c.createdAt.ms <= c.attempts[i].startedAt.ms
    ensures forall i, j :: 0 <= i < j < |c.attempts| ==> c.attempts[i].startedAt.ms <= c.attempts[j].startedAt.ms
  {
    var created, log := c.createdAt.ms, c.attempts;
    AcceptedIsTimely(c);
    forall j | 0 <= j < |log| ensures NotBefore(created, log[..j], log[j].startedAt.ms) {
      TimelyPrefix(created, log, j);
      LastTimeIsLatest(created, log[..j], log[j].startedAt.ms);
    }
    forall i, j | 0 <= i < j < |log| ensures log[i].startedAt.ms <= log[j].startedAt.ms {
      assert log[..j][i] == log[i];
    }
  }

  /******* The log in plain terms *******/

  /** Every attempt has come to a known end within its own allowance. */
  ghost predicate Quiet(log: seq<Attempt>) {
    forall i :: 0 <= i < |log| ==> KnownEnd(log[i])
  }

  ghost predicate KnownEnd(a: Attempt) {
    && a.settlement.Some? && a.settlement.value.outcome != Unknown
    && a.settlement.value.totalTokens.Integer? && a.settlement.value.totalTokens.n <= 8192
  }

  ghost predicate Begun(log: seq<Attempt>, purpose: Purpose) {
    exists i :: 0 <= i < |log| && log[i].purpose == purpose
  }

  ghost predicate Taken(log: seq<Attempt>, id: string) {
    exists i :: 0 <= i < |log| && log[i].id == id
  }

  /** The attempt of that id was confirmed not sent, and nothing replaces it yet. */
  ghost predicate Replaceable(log: seq<Attempt>, replacementOf: Option<string>) {
    && replacementOf.Some?
    && (exists i :: 0 <= i < |log| && log[i].id == replacementOf.value
                    && log[i].settlement.Some? && log[i].settlement.value.outcome == NotSent)
    && forall i :: 0 <= i < |log| ==> log[i].replacementOf != replacementOf
  }

  /**
   A known replacement gets a rival: the new attempt repeats an id that stands before it and names the same
   predecessor.  The validator's search over the whole array then rejects the old replacement.
   */
  ghost predicate Rivals(log: seq<Attempt>, id: string, replacementOf: Option<string>) {
    exists i, j :: 0 <= j < i < |log| && log[j].id == id
                   && log[i].purpose == Replacement && log[i].replacementOf == replacementOf
  }

  /** Slots that the main chain still needs. */
  ghost function Owed(log: seq<Attempt>): nat {
    (if Begun(log, Initial) then 0 else 1) + (if Begun(log, Resume) then 0 else 1)
  }

  /** The first objection to beginning an attempt now. */
  ghost function BeginObjection(c: Campaign, id: string, purpose: Purpose, startedAt: Stamp, replacementOf: Option<string>)
    : Option<Error>
    requires c.createdAt.Canonical?
  {
    var log := c.attempts;
    if !Quiet(log) then Some(Frozen)
    else if |log| == 4 then Some(LimitDrift)
    else if Rivals(log, id, replacementOf) then Some(BadReplacement)
    else if !SafeId(id) || Taken(log, id) || purpose == OtherPurpose then Some(InvalidAttempt)
    else if purpose == Replacement && !Replaceable(log, replacementOf) then Some(BadReplacement)
    else if purpose != Replacement && replacementOf.Some? then Some(StrayPredecessor)
    else if purpose in {Preflight, Replacement} && |log| + 1 + Owed(log) > 4 then Some(SlotsReserved)
    else if startedAt.Malformed? then Some(InvalidTimestamp)
    else if !NotBefore(c.createdAt.ms, log, startedAt.ms) then Some(TimeBackwards)
    else if purpose in {Initial, Resume} && Begun(log, purpose) then Some(DuplicateMain)
    else None
  }

  /******* The same in the validator's terms *******/

  lemma QuietIff(c: Campaign)
    requires Accepts(c)
    ensures Quiet(c.attempts) <==> !Unresolved(c.attempts)
  {
    var log := c.attempts;
    if !Unresolved(log) {
      forall i | 0 <= i < |log| ensures KnownEnd(log[i]) {
        ResolvedPrefix(c, i);
        PrefixStep(log, i);
        EndsAreWellSettled(c, i);
      }
    } else if Quiet(log) {
      assert log != [] && KnownEnd(log[|log| - 1]);
      if Spent(log) > TOTAL_TOKENS {
        TotalLimitIsImplied(c);
      }
    }
  }

  lemma EndsAreWellSettled(c: Campaign, i: nat)
    requires Accepts(c) && i < |c.attempts| && c.attempts[i].settlement.Some?
    ensures WellSettled(c.attempts[i].settlement.value)
  {
    AcceptsIffAppendable(c);
    assert Admissible(c.createdAt.ms, c.attempts[..i], c.attempts[i]);
  }

  lemma TakenIff(log: seq<Attempt>, id: string)
    ensures Taken(log, id) <==> id in Ids(log)
  {
    if id in Ids(log) {
      var a :| a in log && a.id == id;
      var i :| 0 <= i < |log| && log[i] == a;
    }
  }

  lemma BegunIff(log: seq<Attempt>, purpose: Purpose)
    requires IsMain(purpose)
    ensures Begun(log, purpose) <==> purpose in MainSeen(log)
  {
    if purpose in MainSeen(log) {
      var a :| a in log && IsMain(a.purpose) && a.purpose == purpose;
      var i :| 0 <= i < |log| && log[i] == a;
    }
  }

  lemma OwedIff(log: seq<Attempt>)
    ensures Owed(log) == MissingMain(MainSeen(log))
  {
    BegunIff(log, Initial);
    BegunIff(log, Resume);
  }

  lemma ReplaceableIff(log: seq<Attempt>, a: Attempt)
    ensures Replaceable(log, a.replacementOf) <==> Replaces(log, a)
  {
    assert forall i :: 0 <= i < |log| ==> log[i] in log;
  }

  /******* Appending an attempt to an accepted log *******/

  /** An earlier attempt's verdict changes only through a rival. */
  lemma EarlierFault(c: Campaign, a: Attempt, i: nat)
    requires Accepts(c) && i < |c.attempts| && !Unresolved(c.attempts)
    ensures var before := c.attempts[..i];
            AttemptFault(c.attempts + [a], c.createdAt.ms, i) ==
            if c.attempts[i].purpose == Replacement && a.id in Ids(before) && a.replacementOf == c.attempts[i].replacementOf
            then Some(BadReplacement) else None
  {
    var log, longer := c.attempts, c.attempts + [a];
    AcceptsIffAppendable(c);
    AppendableIsDistinct(c.createdAt.ms, log);
    FaultFree(c, i);
    assert longer[..i] == log[..i] && longer[i] == log[i];
    if log[i].purpose == Replacement {
      RefusedInLonger(log, a, i);
    }
  }

  lemma FaultFree(c: Campaign, i: nat)
    requires Accepts(c) && i < |c.attempts|
    ensures AttemptFault(c.attempts, c.createdAt.ms, i).None?
  {
    FaultFreeFrom(c.attempts, c.createdAt.ms, 0);
  }

  lemma {:induction false} FoundEarlier(log: seq<Attempt>, more: seq<Attempt>, id: string)
    requires FindById(log, id).Some?
    ensures FindById(log + more, id) == FindById(log, id)
  {
    assert (log + more)[1..] == log[1..] + more;
    if log[0].id != id {
      FoundEarlier(log[1..], more, id);
    }
  }

  lemma RefusedInLonger(log: seq<Attempt>, a: Attempt, i: nat)
    requires DistinctIds(log) && i < |log| && !ReplacementRefused(log, Ids(log[..i]), log[i].replacementOf)
    ensures ReplacementRefused(log + [a], Ids(log[..i]), log[i].replacementOf) <==>
            a.id in Ids(log[..i]) && a.replacementOf == log[i].replacementOf
  {
    FoundEarlier(log, [a], log[i].replacementOf.value);
    assert forall p :: p in log + [a] <==> p in log || p == a;
  }

  lemma {:induction false} FirstFaultOf(all: seq<Attempt>, created: int, i: nat, k: nat)
    requires i <= k < |all| && forall j :: i <= j < k ==> AttemptFault(all, created, j).None?
    ensures AttemptFault(all, created, k).Some? ==> FirstFault(all, created, i) == AttemptFault(all, created, k)
    ensures AttemptFault(all, created, k).None? && k == |all| - 1 ==> FirstFault(all, created, i).None?
    decreases k - i
  {
    if i < k {
      FirstFaultOf(all, created, i + 1, k);
    }
  }

  lemma FirstRival(log: seq<Attempt>, id: string, replacementOf: Option<string>) returns (k: nat)
    requires Rivals(log, id, replacementOf)
    ensures k < |log| && RivalAt(log, id, replacementOf, k)
    ensures forall i :: 0 <= i < k ==> !RivalAt(log, id, replacementOf, i)
  {
    var n, m :| 0 <= m < n < |log| && log[m].id == id
                && log[n].purpose == Replacement && log[n].replacementOf == replacementOf;
    assert log[..n][m] in log[..n];
    assert RivalAt(log, id, replacementOf, n);
    k := 0;
    while !RivalAt(log, id, replacementOf, k)
      invariant k <= n && forall i :: 0 <= i < k ==> !RivalAt(log, id, replacementOf, i)
      decreases n - k
    {
      k := k + 1;
    }
  }

  ghost predicate RivalAt(log: seq<Attempt>, id: string, replacementOf: Option<string>, i: nat)
    requires i < |log|
  {
    log[i].purpose == Replacement && id in Ids(log[..i]) && log[i].replacementOf == replacementOf
  }

  lemma NoRivalAt(log: seq<Attempt>, id: string, replacementOf: Option<string>, i: nat)
    requires !Rivals(log, id, replacementOf) && i < |log|
    ensures !RivalAt(log, id, replacementOf, i)
  {
    TakenIff(log[..i], id);
  }

  /** The verdict on a log with one more attempt: a rival's, or the verdict on that attempt. */
  lemma AppendedFault(c: Campaign, a: Attempt)
    requires Accepts(c) && !Unresolved(c.attempts)
    ensures FirstFault(c.attempts + [a], c.createdAt.ms, 0) ==
            if Rivals(c.attempts, a.id, a.replacementOf) then Some(BadReplacement)
            else AttemptFault(c.attempts + [a], c.createdAt.ms, |c.attempts|)
  {
    var log, longer := c.attempts, c.attempts + [a];
    forall i | 0 <= i < |log|
      ensures AttemptFault(longer, c.createdAt.ms, i) ==
              if RivalAt(log, a.id, a.replacementOf, i) then Some(BadReplacement) else None
    {
      EarlierFault(c, a, i);
    }
    if Rivals(log, a.id, a.replacementOf) {
      var k := FirstRival(log, a.id, a.replacementOf);
      FirstFaultOf(longer, c.createdAt.ms, 0, k);
    } else {
      forall i | 0 <= i < |log| ensures AttemptFault(longer, c.createdAt.ms, i).None? {
        NoRivalAt(log, a.id, a.replacementOf, i);
      }
      FirstFaultOf(longer, c.createdAt.ms, 0, |log|);
    }
  }

  lemma LastAppended(c: Campaign, a: Attempt)
    requires Accepts(c)
    ensures AttemptFault(c.attempts + [a], c.createdAt.ms, |c.attempts|) ==
            Fault(c.attempts + [a], a, Ids(c.attempts), MainSeen(c.attempts), LastTime(c.createdAt.ms, c.attempts),
                  Unresolved(c.attempts))
  {
    assert (c.attempts + [a])[..|c.attempts|] == c.attempts;
  }

  lemma DistinctWith(log: seq<Attempt>, a: Attempt)
    requires DistinctIds(log) && !Taken(log, a.id)
    ensures DistinctIds(log + [a])
  {
  }

  lemma AppendedReplacement(c: Campaign, a: Attempt)
    requires Accepts(c) && !Taken(c.attempts, a.id)
    ensures ReplacementRefused(c.attempts + [a], Ids(c.attempts), a.replacementOf) <==>
            !Replaceable(c.attempts, a.replacementOf)
  {
    var longer := c.attempts + [a];
    AcceptsIffAppendable(c);
    AppendableIsDistinct(c.createdAt.ms, c.attempts);
    DistinctWith(c.attempts, a);
    ReplacementIsLocal(longer, |c.attempts|);
    assert longer[..|c.attempts|] == c.attempts;
    ReplaceableIff(c.attempts, a);
  }

  lemma CountOfIds(c: Campaign)
    requires Accepts(c)
    ensures |Ids(c.attempts)| == |c.attempts|
  {
    AcceptsIffAppendable(c);
    AppendableIsDistinct(c.createdAt.ms, c.attempts);
    DistinctIdsCount(c.attempts);
  }

  /** The verdict on one more open attempt, in plain terms. */
  lemma OpenedFault(c: Campaign, id: string, purpose: Purpose, startedAt: Stamp, replacementOf: Option<string>)
    requires Accepts(c) && Quiet(c.attempts) && |c.attempts| < 4 && !Rivals(c.attempts, id, replacementOf)
    ensures AttemptFault(c.attempts + [Opened(id, purpose, startedAt, replacementOf)], c.createdAt.ms, |c.attempts|) ==
            BeginObjection(c, id, purpose, startedAt, replacementOf)
  {
    var log, a := c.attempts, Opened(id, purpose, startedAt, replacementOf);
    QuietIff(c);
    LastAppended(c, a);
    TakenIff(log, id);
    CountOfIds(c);
    OwedIff(log);
    AcceptedIsTimely(c);
    if startedAt.Canonical? {
      LastTimeIsLatest(c.createdAt.ms, log, startedAt.ms);
    }
    if IsMain(purpose) {
      BegunIff(log, purpose);
    }
    if !Taken(log, id) {
      AppendedReplacement(c, a);
    }
  }

  /** Beginning an attempt answers the longer campaign, or the first objection; it changes nothing else. */
  lemma BeginOutcome(c: Campaign, id: string, purpose: Purpose, startedAt: Stamp, replacementOf: Option<string>)
    requires Accepts(c)
    ensures c.createdAt.Canonical?
    ensures Begin(c, id, purpose, startedAt, replacementOf) ==
            match BeginObjection(c, id, purpose, startedAt, replacementOf)
            case Some(e) => Failure(e)
            case None =>
              Success(Campaign(c.schema, c.candidate, c.runId, c.createdAt, c.limits,
                               c.attempts + [Attempt(id, purpose, startedAt, 8192, None, replacementOf)]))
  {
    var a := Opened(id, purpose, startedAt, replacementOf);
    BeginValidates(c, id, purpose, startedAt, replacementOf);
    QuietIff(c);
    AttemptBound(c);
    if Quiet(c.attempts) && |c.attempts| < 4 {
      ExtendedVerdict(c, a);
      AppendedFault(c, a);
      if !Rivals(c.attempts, id, replacementOf) {
        OpenedFault(c, id, purpose, startedAt, replacementOf);
      }
    }
  }

  lemma ExtendedVerdict(c: Campaign, a: Attempt)
    requires Accepts(c) && !Unresolved(c.attempts) && |c.attempts| < 4 && a.settlement.None?
    ensures Validated(Extended(c, a)) ==
            match FirstFault(c.attempts + [a], c.createdAt.ms, 0)
            case Some(e) => Failure(e)
            case None => Success(Extended(c, a))
  {
    SpentSnoc(c.attempts, a);
  }

  /******* Settling *******/

  /** The first objection to this settlement of the last attempt. */
  ghost function SettleObjection(c: Campaign, id: string, s: Settlement): Option<Error> {
    var log := c.attempts;
    if log == [] || Last(c).id != id || Last(c).settlement.Some? then Some(NoOpenAttempt)
    else if s.outcome == OtherOutcome then Some(InvalidOutcome)
    else if s.receiptHash.Some? && !Sha256Text(s.receiptHash.value) then Some(InvalidReceipt)
    else if s.outcome == Unknown && (s.totalTokens != Absent || s.receiptHash.Some?) then Some(InventedUsage)
    else if !WellSettled(s) then Some(InvalidUsage)
    else if s.outcome != Unknown && Total(log) + s.totalTokens.n > 9_007_199_254_740_991 then Some(UnsafeTotal)
    else None
  }

  /** The measured tokens of a log. */
  ghost function Total(log: seq<Attempt>): int {
    if log == [] then 0
    else
      (match log[0].settlement
       case Some(Settlement(_, Integer(n), _)) => n
       case _ => 0) + Total(log[1..])
  }

  lemma {:induction false} TotalSnoc(log: seq<Attempt>, a: Attempt)
    ensures Total(log + [a]) == Total(log) + Usage(a)
  {
    var longer := log + [a];
    if log != [] {
      TotalSnoc(log[1..], a);
      assert longer[1..] == log[1..] + [a];
    }
  }

  lemma {:induction false} TotalIsSpent(log: seq<Attempt>)
    ensures Total(log) == Spent(log)
  {
    if log != [] {
      var n := |log| - 1;
      assert log == log[..n] + [log[n]];
      TotalIsSpent(log[..n]);
      TotalSnoc(log[..n], log[n]);
    }
  }

  lemma NoRivals(c: Campaign)
    requires Accepts(c) && c.attempts != []
    ensures Accepts(Shortened(c)) && !Unresolved(Shortened(c).attempts)
    ensures c.attempts == Shortened(c).attempts + [Last(c)] && DistinctIds(c.attempts)
    ensures !Rivals(Shortened(c).attempts, Last(c).id, Last(c).replacementOf)
    ensures AttemptFault(c.attempts, c.createdAt.ms, |c.attempts| - 1).None?
  {
    AcceptsShortened(c);
    AppendedFault(Shortened(c), Last(c));
    FaultFreeIsDistinct(c.attempts, c.createdAt.ms);
    FaultFree(c, |c.attempts| - 1);
  }

  /** With a settlement, an open attempt without a fault has the fault of its settlement. */
  lemma DoneFault(before: Campaign, open: Attempt, s: Settlement)
    requires Accepts(before) && open.settlement.None? && DistinctIds(before.attempts + [open])
    requires AttemptFault(before.attempts + [open], before.createdAt.ms, |before.attempts|).None?
    ensures var done := open.(settlement := Some(s));
            AttemptFault(before.attempts + [done], before.createdAt.ms, |before.attempts|) == SettlementFault(s)
  {
    var done := open.(settlement := Some(s));
    LastAppended(before, open);
    LastAppended(before, done);
    SameRefusal(before.attempts, open, done);
  }

  lemma SettledFault(c: Campaign, s: Settlement)
    requires Accepts(c) && c.attempts != [] && Last(c).settlement.None?
    ensures FirstFault(Settled(c, s).attempts, c.createdAt.ms, 0) == SettlementFault(s)
  {
    NoRivals(c);
    DoneFault(Shortened(c), Last(c), s);
    AppendedFault(Shortened(c), Last(c).(settlement := Some(s)));
  }

  lemma SettledVerdict(c: Campaign, s: Settlement)
    requires Accepts(c) && c.attempts != [] && Last(c).settlement.None?
    ensures Validated(Settled(c, s)) ==
            match SettlementFault(s)
            case Some(e) => Failure(e)
            case None =>
              if Spent(Settled(c, s).attempts) > MAX_SAFE_INTEGER then Failure(UnsafeTotal) else Success(Settled(c, s))
  {
    AttemptBound(c);
    SettledFault(c, s);
  }

  lemma SettledSpend(c: Campaign, s: Settlement)
    requires Accepts(c) && c.attempts != [] && Last(c).settlement.None?
    ensures Spent(Settled(c, s).attempts) == Spent(c.attempts) + (if s.totalTokens.Integer? then s.totalTokens.n else 0)
    ensures Spent(c.attempts) <= TOTAL_TOKENS
  {
    AcceptsShortened(c);
    SpentSnoc(Shortened(c).attempts, Last(c));
    SpentSnoc(Shortened(c).attempts, Last(c).(settlement := Some(s)));
  }

  lemma SettleValidates(c: Campaign, id: string, s: Settlement)
    requires Accepts(c)
    ensures Settle(c, id, s) ==
            if c.attempts == [] || Last(c).id != id || Last(c).settlement.Some? then Failure(NoOpenAttempt)
            else Validated(Settled(c, s))
  {
    var n, i := |c.attempts|, IndexOf(c.attempts, id);
    if i < n && c.attempts[i].settlement.None? {
      OnlyLastIsOpen(c, i);
      assert c.attempts[i := Last(c).(settlement := Some(s))] == Settled(c, s).attempts;
    } else if n > 0 && Last(c).id == id && Last(c).settlement.None? {
      IdFoundAt(c, n - 1);
    }
  }

  /** Settling answers the campaign with its last attempt settled, or the first objection; nothing else changes. */
  lemma SettleOutcome(c: Campaign, id: string, s: Settlement)
    requires Accepts(c)
    ensures Settle(c, id, s) ==
            match SettleObjection(c, id, s)
            case Some(e) => Failure(e)
            case None =>
              var a, n := Last(c), |c.attempts| - 1;
              Success(Campaign(c.schema, c.candidate, c.runId, c.createdAt, c.limits,
                               c.attempts[..n]
                               + [Attempt(a.id, a.purpose, a.startedAt, a.reservedTokens, Some(s), a.replacementOf)]))
  {
    SettleValidates(c, id, s);
    if c.attempts != [] && Last(c).id == id && Last(c).settlement.None? {
      SettledVerdict(c, s);
      SettledSpend(c, s);
      TotalIsSpent(c.attempts);
      WellSettledIff(s);
    }
  }

  /******* Creating *******/

  /** A new campaign is empty and carries the fixed limits; a bad identity is noticed before a bad time. */
  lemma NewOutcome(candidate: string, runId: string, createdAt: Stamp)
    ensures New(candidate, runId, createdAt) ==
            if !CandidateSha(candidate) || !SafeId(runId) then Failure(InvalidIdentity)
            else if createdAt.Malformed? then Failure(InvalidTimestamp)
            else Success(Campaign("openslack.r_ext_campaign.v1", candidate, runId, createdAt, Limits(4, 8192, 32768), []))
  {
  }

  lemma SameRefusal(log: seq<Attempt>, a: Attempt, b: Attempt)
    requires DistinctIds(log + [a]) && b == a.(settlement := b.settlement)
    ensures ReplacementRefused(log + [a], Ids(log), a.replacementOf) ==
            ReplacementRefused(log + [b], Ids(log), a.replacementOf)
  {
    assert (log + [a])[..|log|] == log && (log + [b])[..|log|] == log;
    forall i, j | 0 <= i < j < |log + [b]| ensures (log + [b])[i].id != (log + [b])[j].id {
      assert (log + [a])[i].id != (log + [a])[j].id;
    }
    ReplacementIsLocal(log + [a], |log|);
    ReplacementIsLocal(log + [b], |log|);
  }
}
