/**
 The persisted send campaign: a log of attempts that is validated from scratch on every
 transition (scripts/r-ext-go-qualification/campaign.ts).  The first half says what the
 validator decides, attempt by attempt; the methods below follow the source's loop and its
 two transitions.
 */
module Campaign {
  import opened Wrappers

  const SCHEMA := "openslack.r_ext_campaign.v1"
  const ATTEMPT_LIMIT := 4
  const TOKENS_PER_ATTEMPT := 8192
  const TOTAL_TOKENS := 32768
  const MAX_SAFE_INTEGER := 0x1F_FFFF_FFFF_FFFF

  datatype Purpose = Initial | Resume | Preflight | Replacement | OtherPurpose

  datatype Outcome = Reported | Failed | NotSent | Unknown | OtherOutcome

  /** A time field: canonical UTC text, known by its instant, or anything else. */
  datatype Stamp = Canonical(ms: int) | Malformed

  /** A usage field: absent, an integral number, or any other JSON value. */
  datatype Tokens = Absent | Integer(n: int) | NotInteger

  datatype Settlement = Settlement(outcome: Outcome, totalTokens: Tokens, receiptHash: Option<string>)

  datatype Attempt = Attempt(id: string, purpose: Purpose, startedAt: Stamp, reservedTokens: int,
                             settlement: Option<Settlement>, replacementOf: Option<string>)

  datatype Limits = Limits(attempts: int, tokensPerAttempt: int, totalTokens: int)

  const CAMPAIGN_LIMITS := Limits(ATTEMPT_LIMIT, TOKENS_PER_ATTEMPT, TOTAL_TOKENS)

  datatype Campaign = Campaign(schema: string, candidate: string, runId: string, createdAt: Stamp,
                               limits: Limits, attempts: seq<Attempt>)

  datatype Inspection = Inspection(campaign: Campaign, frozen: bool)

  datatype Error =
    | InvalidIdentity | InvalidTimestamp | LimitDrift
    | UnresolvedAttempt | InvalidAttempt | BadReplacement | StrayPredecessor | SlotsReserved
    | TimeBackwards | DuplicateMain
    | InvalidOutcome | InvalidReceipt | InventedUsage | InvalidUsage | UnsafeTotal
    | Frozen | NoOpenAttempt

  /******* Field grammars *******/

  predicate Alphanumeric(c: char) {
    'A' <= c <= 'Z' || 'a' <= c <= 'z' || '0' <= c <= '9'
  }

  predicate LowerHex(c: char) {
    'a' <= c <= 'f' || '0' <= c <= '9'
  }

  predicate SafeId(s: string) {
    && 1 <= |s| <= 160
    && Alphanumeric(s[0])
    && forall i :: 1 <= i < |s| ==> Alphanumeric(s[i]) || s[i] in "._:-"
  }

  predicate CandidateSha(s: string) {
    |s| == 40 && forall i :: 0 <= i < |s| ==> LowerHex(s[i])
  }

  predicate Sha256Text(s: string) {
    |s| == 64 && forall i :: 0 <= i < |s| ==> LowerHex(s[i])
  }

  /******* What a prefix of the log says *******/

  function Ids(log: seq<Attempt>): set<string> {
    set a | a in log :: a.id
  }

  predicate IsMain(p: Purpose) {
    p == Initial || p == Resume
  }

  function MainSeen(log: seq<Attempt>): set<Purpose> {
    set a | a in log && IsMain(a.purpose) :: a.purpose
  }

  function MissingMain(main: set<Purpose>): nat {
    (if Initial in main then 0 else 1) + (if Resume in main then 0 else 1)
  }

  function Usage(a: Attempt): int {
    match a.settlement
    case Some(Settlement(_, Integer(n), _)) => n
    case _ => 0
  }

  function Spent(log: seq<Attempt>): int {
    if log == [] then 0 else Spent(log[..|log| - 1]) + Usage(log[|log| - 1])
  }

  function LastTime(created: int, log: seq<Attempt>): int {
    if log != [] && log[|log| - 1].startedAt.Canonical? then log[|log| - 1].startedAt.ms else created
  }

  /** The log ends in an open attempt, in unknown usage, or in measured overage. */
  predicate Unresolved(log: seq<Attempt>) {
    log != [] &&
    var last := log[|log| - 1];
    || last.settlement.None?
    || last.settlement.value.outcome == Unknown
    || Usage(last) > TOKENS_PER_ATTEMPT
    || Spent(log) > TOTAL_TOKENS
  }

  /******* The decision for one attempt, in the order of the source's checks *******/

  function FindById(all: seq<Attempt>, id: string): Option<Attempt> {
    if all == [] then None else if all[0].id == id then Some(all[0]) else FindById(all[1..], id)
  }

  predicate ConfirmedNotSent(a: Attempt) {
    a.settlement.Some? && a.settlement.value.outcome == NotSent
  }

  /** The replacement clause as written: it searches the whole array, not just the prefix. */
  predicate ReplacementRefused(all: seq<Attempt>, ids: set<string>, replacementOf: Option<string>) {
    || replacementOf.None?
    || replacementOf.value !in ids
    || (var prior := FindById(all, replacementOf.value); prior.None? || !ConfirmedNotSent(prior.value))
    || (exists prior | prior in all :: prior.id in ids && prior.replacementOf == replacementOf)
  }

  function SettlementFault(s: Settlement): Option<Error> {
    if s.outcome == OtherOutcome then Some(InvalidOutcome)
    else if s.receiptHash.Some? && !Sha256Text(s.receiptHash.value) then Some(InvalidReceipt)
    else if s.outcome == Unknown then
      if s.totalTokens != Absent || s.receiptHash.Some? then Some(InventedUsage) else None
    else if || !s.totalTokens.Integer?
            || !(0 <= s.totalTokens.n <= MAX_SAFE_INTEGER)
            || (s.outcome == NotSent && (s.totalTokens.n != 0 || s.receiptHash.Some?))
            || (s.outcome != NotSent && s.receiptHash.None?)
    then Some(InvalidUsage)
    else None
  }

  /** One attempt's first fault, given what the attempts before it established. */
  function Fault(all: seq<Attempt>, a: Attempt, ids: set<string>, main: set<Purpose>, previousTime: int,
                 unresolved: bool): Option<Error>
  {
    if unresolved then Some(UnresolvedAttempt)
    else if !SafeId(a.id) || a.id in ids || a.purpose == OtherPurpose || a.reservedTokens != TOKENS_PER_ATTEMPT
    then Some(InvalidAttempt)
    else if a.purpose == Replacement && ReplacementRefused(all, ids, a.replacementOf) then Some(BadReplacement)
    else if a.purpose != Replacement && a.replacementOf.Some? then Some(StrayPredecessor)
    else if (a.purpose == Preflight || a.purpose == Replacement) && |ids| + 1 + MissingMain(main) > ATTEMPT_LIMIT
    then Some(SlotsReserved)
    else if a.startedAt.Malformed? then Some(InvalidTimestamp)
    else if a.startedAt.ms < previousTime then Some(TimeBackwards)
    else if IsMain(a.purpose) && a.purpose in main then Some(DuplicateMain)
    else if a.settlement.None? then None
    else SettlementFault(a.settlement.value)
  }

  function AttemptFault(all: seq<Attempt>, created: int, i: nat): Option<Error>
    requires i < |all|
  {
    var before := all[..i];
    Fault(all, all[i], Ids(before), MainSeen(before), LastTime(created, before), Unresolved(before))
  }

  function FirstFault(all: seq<Attempt>, created: int, i: nat): Option<Error>
    requires i <= |all|
    decreases |all| - i
  {
    if i == |all| then None
    else if AttemptFault(all, created, i).Some? then AttemptFault(all, created, i)
    else FirstFault(all, created, i + 1)
  }

  function HeaderFault(c: Campaign): Option<Error> {
    if c.schema != SCHEMA || !CandidateSha(c.candidate) || !SafeId(c.runId) then Some(InvalidIdentity)
    else if c.createdAt.Malformed? then Some(InvalidTimestamp)
    else if c.limits != CAMPAIGN_LIMITS || |c.attempts| > ATTEMPT_LIMIT then Some(LimitDrift)
    else None
  }

  /** The validator's whole verdict, first fault first. */
  function Inspect(c: Campaign): Result<Inspection, Error> {
    if HeaderFault(c).Some? then Failure(HeaderFault(c).value)
    else
      var fault := FirstFault(c.attempts, c.createdAt.ms, 0);
      if fault.Some? then Failure(fault.value)
      else if Spent(c.attempts) > MAX_SAFE_INTEGER then Failure(UnsafeTotal)
      else Success(Inspection(c, Unresolved(c.attempts)))
  }

  predicate Accepts(c: Campaign) {
    Inspect(c).Success?
  }

  /******* Transitions *******/

  function Validated(c: Campaign): Result<Campaign, Error> {
    var inspection :- Inspect(c);
    Success(inspection.campaign)
  }

  function New(candidate: string, runId: string, createdAt: Stamp): Result<Campaign, Error> {
    Validated(Campaign(SCHEMA, candidate, runId, createdAt, CAMPAIGN_LIMITS, []))
  }

  function Opened(id: string, purpose: Purpose, startedAt: Stamp, replacementOf: Option<string>): Attempt {
    Attempt(id, purpose, startedAt, TOKENS_PER_ATTEMPT, None, replacementOf)
  }

  function Begin(c: Campaign, id: string, purpose: Purpose, startedAt: Stamp, replacementOf: Option<string>)
    : Result<Campaign, Error>
  {
    var inspection :- Inspect(c);
    if inspection.frozen then Failure(Frozen)
    else Validated(c.(attempts := c.attempts + [Opened(id, purpose, startedAt, replacementOf)]))
  }

  /** The index of the first attempt with this id, or the length of the log. */
  function IndexOf(log: seq<Attempt>, id: string): (i: nat)
    ensures i <= |log|
    ensures i < |log| ==> log[i].id == id
    ensures forall j :: 0 <= j < i ==> log[j].id != id
  {
    if log == [] || log[0].id == id then 0 else 1 + IndexOf(log[1..], id)
  }

  function Settle(c: Campaign, id: string, settlement: Settlement): Result<Campaign, Error> {
    var valid :- Validated(c);
    var i := IndexOf(valid.attempts, id);
    if i == |valid.attempts| || valid.attempts[i].settlement.Some? then Failure(NoOpenAttempt)
    else Validated(valid.(attempts := valid.attempts[i := valid.attempts[i].(settlement := Some(settlement))]))
  }

  /******* The source's loops *******/

  method InspectCampaign(c: Campaign) returns (r: Result<Inspection, Error>)
    ensures r == Inspect(c)
  {
    if c.schema != SCHEMA || !CandidateSha(c.candidate) || !SafeId(c.runId) {
      return Failure(InvalidIdentity);
    }
    if c.createdAt.Malformed? {
      return Failure(InvalidTimestamp);
    }
    if c.limits != CAMPAIGN_LIMITS || |c.attempts| > ATTEMPT_LIMIT {
      return Failure(LimitDrift);
    }
    var created := c.createdAt.ms;
    var ids: set<string>, main: set<Purpose> := {}, {};
    var total, unresolved, previousTime := 0, false, created;
    for i := 0 to |c.attempts|
      invariant ids == Ids(c.attempts[..i]) && main == MainSeen(c.attempts[..i])
      invariant total == Spent(c.attempts[..i]) && unresolved == Unresolved(c.attempts[..i])
      invariant previousTime == LastTime(created, c.attempts[..i])
      invariant ResumesAt(c, i)
    {
      var attempt := c.attempts[i];
      PrefixStep(c.attempts, i);
      FaultHere(c, i);
      var fault := CheckAttempt(c.attempts, attempt, ids, main, previousTime, unresolved);
      if fault.Some? {
        return Failure(fault.value);
      }
      ids := ids + {attempt.id};
      previousTime := attempt.startedAt.ms;
      if IsMain(attempt.purpose) {
        main := main + {attempt.purpose};
      }
      if attempt.settlement.None? {
        unresolved := true;
        continue;
      }
      if attempt.settlement.value.outcome == Unknown {
        unresolved := true;
      } else {
        var tokens := attempt.settlement.value.totalTokens.n;
        total := total + tokens;
        if tokens > TOKENS_PER_ATTEMPT || total > TOTAL_TOKENS {
          unresolved := true;
        }
      }
    }
    assert c.attempts[..|c.attempts|] == c.attempts;
    if total > MAX_SAFE_INTEGER {
      return Failure(UnsafeTotal);
    }
    return Success(Inspection(c, unresolved));
  }

  /** The verdict on the whole log is the verdict on what follows attempt i. */
  ghost predicate ResumesAt(c: Campaign, i: nat)
    requires i <= |c.attempts| && c.createdAt.Canonical?
  {
    FirstFault(c.attempts, c.createdAt.ms, 0) == FirstFault(c.attempts, c.createdAt.ms, i)
  }

  lemma FaultHere(c: Campaign, i: nat)
    requires HeaderFault(c).None? && i < |c.attempts|
    requires ResumesAt(c, i)
    ensures var fault := AttemptFault(c.attempts, c.createdAt.ms, i);
            if fault.Some? then Inspect(c) == Failure(fault.value) else ResumesAt(c, i + 1)
  {
  }

  /** The throwing checks of the loop body, in source order. */
  method CheckAttempt(all: seq<Attempt>, attempt: Attempt, ids: set<string>, main: set<Purpose>, previousTime: int,
                      unresolved: bool) returns (fault: Option<Error>)
    ensures fault == Fault(all, attempt, ids, main, previousTime, unresolved)
    ensures fault.None? ==> attempt.startedAt.Canonical? && !unresolved
    ensures fault.None? && attempt.settlement.Some? && attempt.settlement.value.outcome != Unknown ==>
              attempt.settlement.value.totalTokens == Integer(Usage(attempt))
    ensures fault.None? && attempt.settlement.Some? && attempt.settlement.value.outcome == Unknown ==> Usage(attempt) == 0
  {
    if unresolved {
      return Some(UnresolvedAttempt);
    }
    if !SafeId(attempt.id) || attempt.id in ids || attempt.purpose == OtherPurpose ||
       attempt.reservedTokens != TOKENS_PER_ATTEMPT {
      return Some(InvalidAttempt);
    }
    if attempt.purpose == Replacement {
      if ReplacementRefused(all, ids, attempt.replacementOf) {
        return Some(BadReplacement);
      }
    } else if attempt.replacementOf.Some? {
      return Some(StrayPredecessor);
    }
    if attempt.purpose == Preflight || attempt.purpose == Replacement {
      if |ids| + 1 + MissingMain(main) > ATTEMPT_LIMIT {
        return Some(SlotsReserved);
      }
    }
    if attempt.startedAt.Malformed? {
      return Some(InvalidTimestamp);
    }
    if attempt.startedAt.ms < previousTime {
      return Some(TimeBackwards);
    }
    if attempt.purpose == Initial || attempt.purpose == Resume {
      if attempt.purpose in main {
        return Some(DuplicateMain);
      }
    }
    if attempt.settlement.None? {
      return None;
    }
    var settlement := attempt.settlement.value;
    if settlement.outcome == OtherOutcome {
      return Some(InvalidOutcome);
    }
    if settlement.receiptHash.Some? && !Sha256Text(settlement.receiptHash.value) {
      return Some(InvalidReceipt);
    }
    if settlement.outcome == Unknown {
      if settlement.totalTokens != Absent || settlement.receiptHash.Some? {
        return Some(InventedUsage);
      }
      return None;
    }
    if || !settlement.totalTokens.Integer?
       || !(0 <= settlement.totalTokens.n <= MAX_SAFE_INTEGER)
       || (settlement.outcome == NotSent && (settlement.totalTokens.n != 0 || settlement.receiptHash.Some?))
       || (settlement.outcome != NotSent && settlement.receiptHash.None?)
    {
      return Some(InvalidUsage);
    }
    return None;
  }

  /** What one more attempt does to each of the loop's accumulators. */
  lemma PrefixStep(log: seq<Attempt>, i: nat)
    requires i < |log|
    ensures log[..i + 1] != [] && log[..i + 1][|log[..i + 1]| - 1] == log[i]
    ensures Ids(log[..i + 1]) == Ids(log[..i]) + {log[i].id}
    ensures MainSeen(log[..i + 1]) == MainSeen(log[..i]) + (if IsMain(log[i].purpose) then {log[i].purpose} else {})
    ensures Spent(log[..i + 1]) == Spent(log[..i]) + Usage(log[i])
    ensures Unresolved(log[..i + 1]) <==>
            (|| log[i].settlement.None?
             || log[i].settlement.value.outcome == Unknown
             || Usage(log[i]) > TOKENS_PER_ATTEMPT
             || Spent(log[..i]) + Usage(log[i]) > TOTAL_TOKENS)
  {
    assert log[..i + 1] == log[..i] + [log[i]];
    assert log[..i + 1][..i] == log[..i];
  }

  method BeginAttempt(c: Campaign, id: string, purpose: Purpose, startedAt: Stamp, replacementOf: Option<string>)
    returns (r: Result<Campaign, Error>)
    ensures r == Begin(c, id, purpose, startedAt, replacementOf)
  {
    var inspected := InspectCampaign(c);
    if inspected.Failure? {
      return Failure(inspected.error);
    }
    if inspected.value.frozen {
      return Failure(Frozen);
    }
    var attempts := inspected.value.campaign.attempts;
    attempts := attempts + [Attempt(id, purpose, startedAt, TOKENS_PER_ATTEMPT, None, replacementOf)];
    var next := inspected.value.campaign.(attempts := attempts);
    inspected := InspectCampaign(next);
    return if inspected.Failure? then Failure(inspected.error) else Success(inspected.value.campaign);
  }

  method SettleAttempt(c: Campaign, id: string, settlement: Settlement) returns (r: Result<Campaign, Error>)
    ensures r == Settle(c, id, settlement)
  {
    var inspected := InspectCampaign(c);
    if inspected.Failure? {
      return Failure(inspected.error);
    }
    var attempts := inspected.value.campaign.attempts;
    var i := IndexOf(attempts, id);
    if i == |attempts| || attempts[i].settlement.Some? {
      return Failure(NoOpenAttempt);
    }
    attempts := attempts[i := attempts[i].(settlement := Some(settlement))];
    inspected := InspectCampaign(inspected.value.campaign.(attempts := attempts));
    return if inspected.Failure? then Failure(inspected.error) else Success(inspected.value.campaign);
  }
}
