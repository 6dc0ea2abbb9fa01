# Evidence machinery, modelled and proved

A Dafny project about the scripts that keep, check and transport qualification evidence. It models
the persisted send campaign, the drain observation schedule, the codecs and framings that evidence
travels in, the embedding of one JSON Schema in another, the locked recording of qualification runs,
the staged replacement of generated documents, and the manifest of a service tree. `dafny verify
dfyconfig.toml` checks everything.

| module | subject |
|---|---|
| Campaign, CampaignTheorems, CampaignOutcomes, CampaignGrammar | the log of send attempts, validated from scratch on every transition |
| DrainObservation, DrainTheorems, DrainReasons | forty timed samples against any clock, sleeper, scheduler and reader |
| PointerDecoding, SchemaEmbedding, SchemaMeaning, SchemaAcceptance | JSON Pointers; moving a schema below a new root; what a schema accepts |
| SourceSchema, ClosedObjects | the schema builders, the software-delivery source schema, and what its object schemas accept |
| CanonicalJson, CanonicalTheorems, CanonicalForm | number-free canonical JSON and its digest preimage |
| Base64 | the exact base64 check and the forged base64url tail |
| BatchFraming, CommittedInputs | git's batch framing; the inventory and the blobs of requested paths |
| TreeStream, TreeTheorems, TreeOutcome | the record stream a directory tree is hashed over |
| RecorderProtocol, RecorderTheorems, RecorderProgress | recorders around an exclusive lock file and an atomic rename |
| QualificationVerdict, LiveVerdict | what a verification of a recorded run says |
| GeneratedDocuments | stage, replace, roll back |
| ContractSplice | the generated block in a Python module |
| WorkspaceManifest, ManifestForm | the digest manifest of a service tree |
| Mulberry | the seeded generator of the fixtures |
| Wrappers, Lexical, Splitting, Decimal, JsonValues | shared vocabulary |

Methods follow the loops and state of the source and are proved equal to specification functions; the
modules named Theorems prove what the specifications promise. The modules named Outcomes, Reasons, Form and
Outcome say what each answer is in plain terms, without the functions that compute it, and prove that it is
exactly that. The environment is an input everywhere: clock
readings, wakes, callbacks, failing file-system calls, what git prints and what files hold are parameters
that the theorems quantify over.

Where the code does not do what one would expect of it, the exact condition is proved:

- Settling can fail on a well-formed settlement only because the total would leave the safe integers
  (`SettleSucceedsIff`); the total token limit is implied by the attempt limits (`TotalLimitIsImplied`).
- Beginning an attempt under a known id can be refused for a bad replacement instead of a duplicate id: the
  validator searches the whole array, so the new attempt can become the rival of an old replacement
  (`EarlierFault`, `BeginOutcome`).
- The embedding keeps a schema's meaning when references occur only as `$ref` to schema paths and no dropped
  key is in the way. The embedded schema is such a schema (`SoftwareDeliveryIsMovable`); outside that condition,
  `DataKeywordMovesIff` and `DroppedPropertyLosesItsSchema` show what breaks.
- A recorder may report a failure after its rename took effect: exactly when its record could be made at all
  (`FailureMayHaveCommitted`, `AloneFailureIff`). It may write a run that is too large to be read again
  (`OversizedRunBlocksRecording`); a stored run is readable exactly within the limit (`StoredRunReadableIff`).
- A tree whose paths hold a line feed or a backslash has no manifest (`ManifestExistsIff`).
- Rolling documents back rewrites their decoded text, so it is complete if and only if the replaced originals
  are proper text (`AllOrNothingIff`, `MalformedOriginalIsLost`).
- Splicing is idempotent if and only if the generated body has no end marker (`IdempotentIff`).
- The forged tail differs from its payload unless the payload's unused bits are already 1
  (`NonCanonicalTailWorks`), which no canonical payload has (`ForgedTailIsRejected`).

## Model

| member | source | states |
|---|---|---|
| `Campaign.InspectCampaign` | scripts/r-ext-go-qualification/campaign.ts:55-169 | the loop over `ids`, `main`, `total`, `unresolved`, `previousTime` gives, for every campaign, the verdict of the attempt-by-attempt specification: the first fault in source order, or acceptance with the freeze flag |
| `Campaign.CheckAttempt` | scripts/r-ext-go-qualification/campaign.ts:87-159 | the throwing checks of one iteration, in source order; an attempt without fault has a usable time and, when settled, known usage |
| `Campaign.PrefixStep` | scripts/r-ext-go-qualification/campaign.ts:118-166 | what one more attempt does to each accumulator of the loop |
| `Campaign.BeginAttempt` | scripts/r-ext-go-qualification/campaign.ts:171-190 | beginning validates before and after; a frozen campaign is refused; the new attempt is open and reserves the full budget |
| `Campaign.SettleAttempt` | scripts/r-ext-go-qualification/campaign.ts:192-198 | settling finds the first attempt of that id, refuses a missing or settled one, and revalidates |
| `CampaignTheorems.WellSettledIff` | scripts/r-ext-go-qualification/campaign.ts:133-159 | a settlement passes the checks exactly when unknown usage stays unknown, nothing sent costs nothing, and anything else is measured and has a receipt digest |
| `CampaignTheorems.ReplacementIsLocal` | scripts/r-ext-go-qualification/campaign.ts:99-112 | with distinct ids the two searches over the whole array look only at earlier attempts |
| `CampaignTheorems.FaultIsLocal` | scripts/r-ext-go-qualification/campaign.ts:87-159 | an attempt is free of faults exactly when it is admissible after the attempts before it, whatever comes later |
| `CampaignTheorems.AcceptsIffAppendable` | scripts/r-ext-go-qualification/campaign.ts:55-169 | acceptance is header validity, each attempt admissible after its prefix, and a representable total: it is prefix-closed, and every proper prefix is unfrozen |
| `CampaignTheorems.AcceptsShortened` | scripts/r-ext-go-qualification/campaign.ts:55-169 | dropping the last attempt keeps acceptance and leaves an unfrozen campaign within the total budget |
| `CampaignTheorems.BeginSucceedsIff` | scripts/r-ext-go-qualification/campaign.ts:171-190 | a begin succeeds exactly when a slot is free and the new attempt is admissible, and then appends exactly that attempt |
| `CampaignTheorems.SettleSucceedsIff` | scripts/r-ext-go-qualification/campaign.ts:192-198 | a settle succeeds exactly when it names the open last attempt and its usage can be recorded; only that attempt changes |
| `CampaignTheorems.OnlyLastIsOpen` | scripts/r-ext-go-qualification/campaign.ts:87-88 | in an accepted campaign no attempt but the last is open |
| `CampaignTheorems.SettleReplays` | scripts/r-ext-go-qualification/campaign.ts:192-198 | settling the last attempt of the log again with its own settlement rebuilds the log |
| `CampaignTheorems.ReachableIsAccepted` | scripts/r-ext-go-qualification/campaign.ts:171-198 | every run of successful transitions from an accepted campaign ends in an accepted campaign of the same identity |
| `CampaignTheorems.AcceptedIsReachable` | scripts/r-ext-go-qualification/campaign.ts:37-198 | an accepted log is replayed by one begin, and one settle where settled, for each attempt |
| `CampaignTheorems.AcceptedIffReachable` | scripts/r-ext-go-qualification/campaign.ts:37-198 | the validator accepts a campaign if and only if some sequence of successful begins and settles from a new campaign produces it |
| `CampaignTheorems.MainSlotsReserved` | scripts/r-ext-go-qualification/campaign.ts:113-127 | attempts so far plus missing main purposes never exceed the attempt limit |
| `CampaignTheorems.MainNeverStarved` | scripts/r-ext-go-qualification/campaign.ts:113-127 | from any unfrozen campaign a missing main purpose can be begun under any fresh id at any time not before the last |
| `CampaignTheorems.RunLength` | scripts/r-ext-go-qualification/campaign.ts:171-198 | each successful transition adds or settles one attempt, so every run has at most 2 * 4 transitions |
| `CampaignTheorems.BeginWithinBudget` | scripts/r-ext-go-qualification/campaign.ts:163-164 | whenever a begin succeeds all usage is known, within 8192 an attempt and 32768 in all |
| `CampaignTheorems.TotalLimitIsImplied` | scripts/r-ext-go-qualification/campaign.ts:161-164 | with the repository's limits the total limit never freezes a campaign that the attempt limit would not freeze |
| `CampaignTheorems.TerminalIff` | scripts/r-ext-go-qualification/campaign.ts:171-198 | no transition can succeed exactly when the last usage is unknown or over the attempt budget, or all four attempts are settled |
| `CampaignTheorems.ReplacementNamesOne` | scripts/r-ext-go-qualification/campaign.ts:99-110 | a replacement names exactly one attempt, earlier and confirmed not sent |
| `CampaignTheorems.ReplacementChainsDisjoint` | scripts/r-ext-go-qualification/campaign.ts:99-112 | no two attempts replace the same one and only replacements name one: the links form disjoint chains |
| `CampaignOutcomes.TimesAscend` | scripts/r-ext-go-qualification/campaign.ts:83-130 | in an accepted campaign every attempt has a canonical start, not before the creation of the campaign and not before the start of any earlier attempt |
| `CampaignOutcomes.LastTimeIsLatest` | scripts/r-ext-go-qualification/campaign.ts:128-130 | the time the loop compares with is the latest of all, so a start passes exactly when no attempt started later |
| `CampaignOutcomes.EarlierFault` | scripts/r-ext-go-qualification/campaign.ts:99-112 | appending an attempt changes the verdict on an earlier one only if the new attempt repeats an id that stands before a replacement and names the same predecessor |
| `CampaignOutcomes.BeginOutcome` | scripts/r-ext-go-qualification/campaign.ts:171-190 | a begin answers the campaign with one more open attempt of 8192 reserved tokens and nothing else changed, or the first objection of ten, each told from the ids, purposes, ends and times of the attempts in the log |
| `CampaignOutcomes.SettleOutcome` | scripts/r-ext-go-qualification/campaign.ts:192-198 | a settle answers the campaign with its last attempt settled and nothing else changed, or the first of six objections: no open attempt of that id, a bad outcome, a bad receipt, invented usage, unusable usage, an unsafe total |
| `CampaignOutcomes.NewOutcome` | scripts/r-ext-go-qualification/campaign.ts:37-48 | a new campaign is empty and has the limits 4, 8192 and 32768; a bad identity is refused before a bad time |
| `CampaignGrammar.SafeIdIff` | scripts/r-ext-go-qualification/evidence.ts:12 | an identifier is one letter or digit and at most 159 letters, digits, dots, underscores, colons and hyphens behind it |
| `CampaignGrammar.DigestsIff` | scripts/r-ext-go-qualification/evidence.ts:9-10 | a candidate is forty, a receipt digest sixty-four lower-case hexadecimal digits |
| `DrainObservation.ReadRace.Settle` | scripts/r-ext-go-qualification/observe.ts:156-162 | only the first outcome of an active race is retained |
| `DrainObservation.ReadRace.FireDeadline` | scripts/r-ext-go-qualification/observe.ts:165-182 | the deadline callback does nothing once settled or closed; otherwise it settles, as a read timeout if registration is over and the clock has reached the limit and as an invalid clock if not; it flags a fault if registration is still running, and aborts the read once |
| `DrainObservation.ReadRace.FireEarly` | scripts/r-ext-go-qualification/observe.ts:163-201 | any callback before registration returned is a registration fault, and the first settles the race |
| `DrainObservation.ReadRace.Deliver` | scripts/r-ext-go-qualification/observe.ts:202-231 | for every order of read value, read failure and deadline the first event fixes the outcome; on a closed or settled race nothing changes |
| `DrainObservation.SleepUntil` | scripts/r-ext-go-qualification/observe.ts:121-141 | the sleeping loop, with every wake checked, computes the specified wait |
| `DrainObservation.StartSample` | scripts/r-ext-go-qualification/observe.ts:118-142 | a start outside its own interval is refused |
| `DrainObservation.TakeSample` | scripts/r-ext-go-qualification/observe.ts:143-260 | one sample against any environment: the verdict of the specification, with the exact numbers of read and cancel calls |
| `DrainObservation.RunTurn` | scripts/r-ext-go-qualification/observe.ts:117-263 | the loop body: stop with the report so far or continue with one valid sample |
| `DrainObservation.ObserveDrain` | scripts/r-ext-go-qualification/observe.ts:87-266 | the whole schedule equals the specified report; no read starts in a turn whose registration failed, and cancel runs once in every turn whose registration returned |
| `DrainTheorems.WaitIff` | scripts/r-ext-go-qualification/observe.ts:126-141 | waiting succeeds exactly when finitely many wakes carry a strictly advancing clock to the deadline |
| `DrainTheorems.GoodTurnIffValidSample` | scripts/r-ext-go-qualification/observe.ts:143-261 | a turn yields a valid sample exactly when it starts in its interval, registration returns without a callback, the first event is a drained snapshot, and the readings end in the interval and agree |
| `DrainTheorems.PassIff` | scripts/r-ext-go-qualification/observe.ts:87-266 | PASS if and only if the start is usable and all forty turns are good |
| `DrainTheorems.RecordedIsSound` | scripts/r-ext-go-qualification/observe.ts:235-263 | every sample the schedule continues from is valid, timely and the turn's own answer |
| `DrainTheorems.ReportShape` | scripts/r-ext-go-qualification/observe.ts:97-106 | every report: samples numbered without gaps, all sound but possibly the last, which then gives the reason of the FAIL |
| `DrainTheorems.PassGuarantees` | scripts/r-ext-go-qualification/observe.ts:87-266 | a PASS means forty samples, one read and one cancel each, all drained, k*15000 <= started <= actual < (k+1)*15000, less than 30 s apart, wall time never backwards and within 15 s of monotonic time |
| `DrainTheorems.FailShape` | scripts/r-ext-go-qualification/observe.ts:100-106 | a FAIL has a reason; before the schedule it records nothing; afterwards only its last sample can be unsound |
| `DrainTheorems.LateEventsIrrelevant` | scripts/r-ext-go-qualification/observe.ts:156-182 | two environments that differ only after the first event of each race give the same report |
| `DrainReasons.WaitFailsIff` | scripts/r-ext-go-qualification/observe.ts:121-141 | the wait fails for a reason exactly when, after some wakes that moved the clock forward short of the deadline, the next one is a rejected sleep, an unusable or earlier reading, or the same reading again |
| `DrainReasons.ArriveIff` | scripts/r-ext-go-qualification/observe.ts:112-142 | a sample does not start, for a reason, exactly when the first reading is unusable or earlier, the wait fails for that reason, or the clock passes the next deadline; otherwise it starts at the first reading past its deadline |
| `DrainReasons.AbandonedIff` | scripts/r-ext-go-qualification/observe.ts:163-240 | a started sample goes unrecorded exactly for a registration that failed, a callback during it, or unusable readings at the end, and the reason is an invalid clock |
| `DrainReasons.RecordedBadIff` | scripts/r-ext-go-qualification/observe.ts:202-261 | an unsound sample is recorded with exactly its offsets, its snapshot and the reason of the first event: a deadline past the limit is a timeout, one before it or without a usable clock an invalid clock, a rejected read a failed read, and a misshapen or uncountable value an invalid snapshot; a failing cancellation, and a late, undrained or disagreeing sample, give theirs |
| `DrainReasons.FailIff` | scripts/r-ext-go-qualification/observe.ts:87-266 | the report is a FAIL for a reason, after so many sound samples and with this last sample, if and only if the answers of the environment give that reason at the first turn that is not good |
| `DrainReasons.FailHasFault` | scripts/r-ext-go-qualification/observe.ts:97-106 | a started schedule fails if and only if some turn has such a fault after good turns only |
| `DrainReasons.CallsOfTurn` | scripts/r-ext-go-qualification/observe.ts:163-226 | a turn reads once if registration returned and no callback had fired, and otherwise never; it cancels once exactly when registration returned |
| `PointerDecoding.TwoPassIsOnePass` | scripts/documentation/lib.ts:283 | replacing `~1` and then `~0` equals decoding in one pass, on every string (section 4 of RFC 6901) |
| `PointerDecoding.PassOrderMatters` | scripts/documentation/lib.ts:283 | the passes in the other order decode alike exactly for texts without an escaped tilde in front of a 1 |
| `PointerDecoding.DecodeUndoesEscape` | scripts/documentation/lib.ts:283 | decoding undoes escaping for every key, and an escaped key has no slash |
| `PointerDecoding.AdmittedIff` | scripts/documentation/lib.ts:271-276 | the pointer to a key path is admitted exactly when the path is not empty and no key contains `..` |
| `PointerDecoding.ResolveJsonPointer` | scripts/documentation/lib.ts:280-290 | the loop over encoded parts returns a value exactly when a chain of own properties leads to it along the decoded path: fields by key, elements by the decimal text of their index, and the length of an array |
| `PointerDecoding.EncodeDecodes` | scripts/documentation/lib.ts:282-283 | splitting and decoding the pointer to a path gives the path back |
| `PointerDecoding.ResolveReachesPath` | scripts/documentation/lib.ts:280-290 | resolving the pointer to any non-empty path reaches exactly the value that own properties lead to along that path |
| `PointerDecoding.WalkIff` | scripts/documentation/lib.ts:280-290 | walking reaches a value exactly when there is a chain of one value more than there are keys, each the own property of the one before |
| `PointerDecoding.AdmittedIsEncoded` | scripts/documentation/lib.ts:271-276 | the admitted pointers are exactly the encodings of non-empty paths without `..` in a key |
| `JsonValues.IndexIff` | scripts/documentation/lib.ts:284 | a key names an element exactly when it is the decimal text of the index, without leading zeros |
| `SchemaEmbedding.RewriteUnchangedIff` | scripts/organization-graph-contracts/contract-to-delivery.ts:423-436 | the transformation leaves a value alone exactly when it has no dropped key and no local reference as a field |
| `SchemaEmbedding.RewriteItemUnchangedIff` | scripts/organization-graph-contracts/contract-to-delivery.ts:431-433 | the same for a field's value, the one place where a reference is recognised |
| `SchemaEmbedding.ResolveCommutesIff` | scripts/organization-graph-contracts/contract-to-delivery.ts:423-436 | following a path in the rewritten value gives the rewritten target exactly when the path avoids dropped keys, and nothing otherwise |
| `SchemaEmbedding.RewrittenTokens` | scripts/organization-graph-contracts/contract-to-delivery.ts:431-432 | a rewritten reference is the old path below the new definition |
| `SchemaEmbedding.EmbeddedReference` | scripts/organization-graph-contracts/contract-to-delivery.ts:490 | in the composite schema a rewritten reference reaches the rewritten target |
| `SchemaMeaning.SchemaPathStaysMovable` | scripts/organization-graph-contracts/contract-to-delivery.ts:423-436 | from a movable schema, schema paths lead to movable schemas and never through a dropped key |
| `SchemaMeaning.TargetMoves` | scripts/organization-graph-contracts/contract-to-delivery.ts:423-436 | the evaluator resolves a rewritten reference in the composite schema to the rewritten target of the original |
| `SchemaMeaning.EmbeddingPreservesMeaning` | scripts/organization-graph-contracts/contract-to-delivery.ts:423-436 | every movable subschema accepts, rejects or is stuck on the same values in its new place, to every depth and for every vocabulary of data keywords (section 8.2.3.1 of JSON Schema Core 2020-12) |
| `SchemaMeaning.IdentifiersIgnored` | scripts/organization-graph-contracts/contract-to-delivery.ts:428 | the identifiers dropped at the root take no part in evaluation |
| `SchemaMeaning.EmbeddedSchemaAcceptsTheSame` | scripts/organization-graph-contracts/contract-to-delivery.ts:585-598 | a reference to the new definition accepts exactly what the original schema accepts at its own root |
| `SchemaMeaning.DataKeywordMovesIff` | scripts/organization-graph-contracts/contract-to-delivery.ts:427-434 | a data keyword keeps its meaning for every vocabulary exactly when the transformation leaves its value alone |
| `SchemaMeaning.DroppedPropertyLosesItsSchema` | scripts/organization-graph-contracts/contract-to-delivery.ts:428 | a property named like a dropped key loses its schema: an accepted value the original rejects |
| `SchemaAcceptance.VerdictsAreStable` | scripts/organization-graph-contracts/contract-to-delivery.ts:423-436 | a verdict reached at some depth is the verdict at every greater depth |
| `SchemaAcceptance.DecidesOnce` | scripts/organization-graph-contracts/contract-to-delivery.ts:423-436 | so no value is both accepted and rejected |
| `SchemaAcceptance.EmbeddedSchemaDecidesTheSame` | scripts/organization-graph-contracts/contract-to-delivery.ts:585-598 | a reference to the new definition accepts and rejects exactly what the original schema does, without any bound on depth |
| `SourceSchema.BuiltMoves` | scripts/organization-graph-contracts/software-delivery.ts:945-1013 | whatever the schema builders compose can be moved, for every vocabulary of data keywords |
| `ClosedObjects.ClosedAcceptsIff` | scripts/organization-graph-contracts/software-delivery.ts:945-957 | a built object schema accepts an object exactly when it has the type and the required fields, every field is a listed one that its own schema accepts, and every rule accepts the object, for every vocabulary of data keywords and without any bound on depth |
| `ClosedObjects.PropertySchemaIff` | scripts/organization-graph-contracts/software-delivery.ts:945-957 | a listed name has the schema of the last property of that name |
| `SourceSchema.SoftwareDeliveryIsMovable` | scripts/organization-graph-contracts/software-delivery.ts:959-1434 | the software-delivery source schema, with all its definitions and batches, meets the condition for being moved |
| `SourceSchema.EmbeddedSoftwareDelivery` | scripts/organization-graph-contracts/contract-to-delivery.ts:489-490 | embedded in any composite schema it accepts and rejects exactly what it does on its own |
| `CanonicalTheorems.StringParses` | scripts/documentation/task-claim-c0.ts:110-117 | a string literal parses back whatever follows it, lone surrogates included (section 3.2.2.2 of RFC 8785) |
| `CanonicalTheorems.PrintParses` | scripts/documentation/task-claim-c0.ts:109-119 | the text of a number-free value, with members in any order, parses back before any following text |
| `CanonicalTheorems.CanonicalIsPrint` | scripts/documentation/task-claim-c0.ts:114-118 | the canonical text is the text of the value with its members sorted (section 3.2.3 of RFC 8785) |
| `CanonicalTheorems.CanonicalParses` | scripts/documentation/task-claim-c0.ts:109-119 | the canonical text parses to the normal form, whatever follows it |
| `CanonicalTheorems.MeaningOfNormal` | scripts/documentation/task-claim-c0.ts:114-118 | sorting members keeps the meaning |
| `CanonicalTheorems.MeaningDeterminesNormal` | scripts/documentation/task-claim-c0.ts:114-118 | values of equal meaning have one normal form, so the text does not depend on key order |
| `CanonicalTheorems.SortedFormIff` | scripts/qualification/common.ts:58-73 | sorting the members of every record gives one form exactly for values that differ only in key order, numbers included |
| `CanonicalTheorems.EqualIffSameMeaning` | scripts/documentation/task-claim-c0.ts:121-123 | the codec's equality decides equality of values up to key order |
| `CanonicalTheorems.PreimageDetermines` | scripts/documentation/task-claim-c0.ts:392-400 | two digest preimages are equal if and only if domain and value are, for any domain text |
| `CanonicalForm.SpellsIff` | scripts/documentation/task-claim-c0.ts:110-111 | how each unit of a string is written: two units with their letter for exactly 8, 9, 10, 12, 13, 34 and 92, six with lower-case digits for exactly the other units below 32 and unpaired surrogates, and itself otherwise (section 3.2.2.2 of RFC 8785) |
| `CanonicalForm.QuoteIff` | scripts/documentation/task-claim-c0.ts:110-118 | the literal of a string is the concatenation of those pieces between quotation marks, and nothing else is |
| `CanonicalForm.LessIff` | scripts/documentation/task-claim-c0.ts:116 | keys are ordered by the first unit in which they differ, a proper prefix first (section 3.2.3 of RFC 8785) |
| `CanonicalForm.EncodeIff` | scripts/documentation/task-claim-c0.ts:107-119 | the codec answers a text if and only if it is the canonical text of the value, said without the codec: literals, brackets, commas, members in ascending key order; values with a number have none |
| `CanonicalForm.EqualIff` | scripts/documentation/task-claim-c0.ts:121-123 | two values compare by their canonical texts, and the comparison is refused exactly when one of them has none |
| `BatchFraming.ReadFrame` | scripts/r-ext-go-qualification/preflight.ts:41-53 | one frame at an offset of the batch, and the next offset |
| `BatchFraming.ParseBatch` | scripts/r-ext-go-qualification/preflight.ts:38-56 | the offset loop computes the parser that consumes its input frame by frame |
| `BatchFraming.ParseFromIsParseAll` | scripts/r-ext-go-qualification/preflight.ts:38-56 | parsing at offsets of one buffer is parsing what is left |
| `BatchFraming.FrameParses` | scripts/r-ext-go-qualification/preflight.ts:41-53 | a printed frame parses to its blob whatever the blob contains and whatever follows |
| `BatchFraming.ParsedFrameIsPrinted` | scripts/r-ext-go-qualification/preflight.ts:41-53 | only the print of a bounded blob parses |
| `BatchFraming.PrintThenParse` | scripts/r-ext-go-qualification/preflight.ts:38-56 | printing any bounded blobs and parsing gives them back |
| `BatchFraming.ParseThenPrint` | scripts/r-ext-go-qualification/preflight.ts:38-56 | accepted bytes are the print of the result, with nothing left over |
| `BatchFraming.ParsesIffPrinted` | scripts/r-ext-go-qualification/preflight.ts:38-56 | the parser is the exact inverse of the framing |
| `CommittedInputs.RecordParsesIff` | scripts/r-ext-go-qualification/preflight.ts:33 | an entry matches the pattern exactly when it is the print of the record |
| `CommittedInputs.CoversAll` | scripts/r-ext-go-qualification/preflight.ts:29-36 | as many different requested records as paths means a record for every path and no path requested twice, so the last lookup never fails |
| `CommittedInputs.InventoryIff` | scripts/r-ext-go-qualification/preflight.ts:26-36 | a listing splits and parses to records exactly when it is what git prints for them |
| `CommittedInputs.ReadInventory` | scripts/r-ext-go-qualification/preflight.ts:26-36 | the object ids are returned exactly when the listing covers the paths, and each path gets the id of its own record |
| `CommittedInputs.InventoryIsUnique` | scripts/r-ext-go-qualification/preflight.ts:26-36 | a listing has one reading |
| `CommittedInputs.CommittedInputs` | scripts/r-ext-go-qualification/preflight.ts:14-57 | both readings: the result is the parse of the batch for the ids of the inventory |
| `CommittedInputs.ReadsEachPath` | scripts/r-ext-go-qualification/preflight.ts:14-57 | whatever order git lists records in, the result is the content of each path's own object in request order |
| `TreeStream.Walker.AddFile` | scripts/qualification/common.ts:220-229 | one file is counted and recorded unless a bound is exceeded |
| `TreeStream.Walker.Walk` | scripts/qualification/common.ts:203-231 | the recursive walk records exactly the files below a directory at their full paths, or ends in an error exactly for a strange entry or an exceeded bound |
| `TreeStream.TreeText` | scripts/qualification/common.ts:194-233 | the hashed text is the stream of the records, or there is an error |
| `TreeStream.BoundsArePrefixClosed` | scripts/qualification/common.ts:222-224 | stopping at the first exceeded bound rejects the same trees as checking the whole tree |
| `TreeTheorems.EncodeDetermines` | scripts/qualification/common.ts:229 | the first record and the rest can be read off the text |
| `TreeTheorems.StreamDetermines` | scripts/qualification/common.ts:229-233 | different record lists have different streams |
| `TreeTheorems.RecordsAreTheFiles` | scripts/qualification/common.ts:203-231 | the records are exactly the files that can be looked up by path; empty directories leave no trace |
| `TreeTheorems.RecordsAscend` | scripts/qualification/common.ts:204-206 | files are visited in ascending order of path, component by component, however directories list their entries |
| `TreeTheorems.AscendingPathsUnique` | scripts/qualification/common.ts:204-206 | ascending records are determined by their set |
| `TreeTheorems.StreamIffSameFiles` | scripts/qualification/common.ts:194-234 | two trees give the same stream if and only if the same paths hold files of the same length and digest |
| `TreeOutcome.RegularIff` | scripts/qualification/common.ts:207-219 | the walk meets nothing strange exactly when no path of the tree leads to anything but a file or a directory |
| `TreeOutcome.TextOfIff` | scripts/qualification/common.ts:194-233 | a tree has a text if and only if it is a directory of files and directories with at most 512 files and four mebibytes, and the text is then one line for each file in ascending order: path, length in decimal and digest, behind NULs |
| `RecorderTheorems.EveryInterleaving` | scripts/qualification-capstone/lib.ts:124-171 | under every interleaving of recorders that are refused, fail inside the lock or crash: mutual exclusion by the handle, what a holder read is still stored, the log is in lock order, every commit passed every check (the run it read, the commit, the evidence, the secret scan) against the commits before it, and the stored run is the committed records applied one at a time |
| `RecorderTheorems.ReplaceKeepsInv` | scripts/qualification-capstone/lib.ts:337 | the rename keeps all of that and extends the log by one |
| `RecorderTheorems.NoUpdateLost` | scripts/qualification-capstone/lib.ts:153-166 | every committed step is stored with the status, environment, evidence references and artifact digests of the last request for it and the time of its commit; other steps are as they were |
| `RecorderTheorems.StoredIdentity` | scripts/qualification-capstone/lib.ts:153-166 | under every interleaving the stored run keeps its correlation id, commit and creation time, and its update time is that of the last commit |
| `RecorderTheorems.AppliedIff` | scripts/qualification-capstone/lib.ts:153-166 | the next run differs from the last in exactly its time and the recorded step, and that step has the status, environment, evidence, artifact digests of the request and the time of the call |
| `RecorderTheorems.MayRecordIff` | scripts/qualification-capstone/lib.ts:124-167 | the checks of a call, before and inside the lock and while reading, are exactly: the run is for the commit, bounded and sound, the new result is sound, and the new run shows no secret |
| `RecorderTheorems.ReportsAreTrue` | scripts/qualification-capstone/lib.ts:143-170 | a recorder that reports success has committed; a rejected or refused one has not |
| `RecorderTheorems.OnlyHolderUnlocks` | scripts/qualification-capstone/lib.ts:364-369 | in every reachable state the lock file disappears only when its creator, the only one with a handle and the latest to take the lock, leaves the finally block, or when an operator clears it while nobody has a handle |
| `RecorderTheorems.RefusedIsInert` | scripts/qualification-capstone/lib.ts:349-370 | in every reachable state a refused recorder has no handle, no turn and no commit, and whatever it still does, its finally block included, touches no file |
| `RecorderTheorems.RefusedUnderLock` | scripts/qualification-capstone/lib.ts:364-369 | a refused recorder does reach its finally block under the lock of another, which the missing handle protects |
| `RecorderTheorems.StoredRunReadableIff` | scripts/qualification-capstone/lib.ts:241-312 | every stored run parses, with evidence on each PASS where it is required, and can be read back if and only if it is within the size limit |
| `RecorderTheorems.StoredRunIsSecretFree` | scripts/qualification-capstone/lib.ts:167 | no interleaving stores a secret in a run that had none |
| `RecorderTheorems.SerialIsReachable` | scripts/qualification-capstone/lib.ts:124-171 | recorders one after another realise every serial history |
| `RecorderTheorems.StoredIffSerial` | scripts/qualification-capstone/lib.ts:124-171 | a run can be stored under some interleaving if and only if different recorders could have produced it one at a time, each allowed where it stands and changing its step and the time and nothing else |
| `RecorderTheorems.StuckForever` | scripts/qualification-capstone/lib.ts:246-252 | a stored run over the size limit is never changed again |
| `RecorderTheorems.AloneItCommits` | scripts/qualification-capstone/lib.ts:124-171 | from any state without a lock, a recorder on its own stores its record, field by field, and nothing else, logs one commit and frees the lock |
| `RecorderTheorems.FailureMayHaveCommitted` | scripts/qualification-capstone/lib.ts:337-346 | a call can report a failure and have recorded all the same if and only if its record passes every check after some serial history of other recorders; otherwise a reported failure means that nothing was recorded |
| `RecorderTheorems.AloneFailureIff` | scripts/qualification-capstone/lib.ts:337-346 | for a single recorder that is: if and only if its request passes every check against the run at some time |
| `RecorderTheorems.EndedRecordedIff` | scripts/qualification-capstone/lib.ts:337-346 | a call that ended recorded if and only if its rename took effect; success implies it |
| `RecorderTheorems.OversizedRunBlocksRecording` | scripts/qualification-capstone/lib.ts:326-337 | the write has no size check: a successful record can leave a run that no recorder ever changes again |
| `RecorderTheorems.UnsafeRemovalLosesUpdate` | scripts/qualification-capstone/lib.ts:356-359 | removing the lock under an active recorder loses an update |
| `RecorderProgress.RunsEnd` | scripts/qualification-capstone/lib.ts:124-171 | no recorder takes more than six steps, whatever the others do |
| `RecorderProgress.NeverStuck` | scripts/qualification-capstone/lib.ts:349-370 | in every reachable state a recorder that has not ended can take a step other than a crash or a failing call: nobody waits for anybody |
| `RecorderProgress.OnlyCrashesLeaveLocks` | scripts/qualification-capstone/lib.ts:349-370 | when every recorder has ended, the lock file is there only if the last to take it crashed while it had it |
| `RecorderProgress.AloneItFails` | scripts/qualification-capstone/lib.ts:143-170 | a request on its own that fails a check fails the call, stores nothing and frees the lock |
| `QualificationVerdict.CheckProfile` | scripts/qualification-capstone/lib.ts:200-210 | the inner loop appends exactly the faults of one profile |
| `QualificationVerdict.CheckProfiles` | scripts/qualification-capstone/lib.ts:197-211 | the outer loop appends those of all profiles; an unknown profile ends it |
| `QualificationVerdict.VerifyQualification` | scripts/qualification-capstone/lib.ts:173-222 | the whole verification with its four refusals and its list of failures |
| `QualificationVerdict.NoFaultsIff` | scripts/qualification-capstone/lib.ts:200-210 | a profile has no fault exactly when each required step passed recently |
| `QualificationVerdict.AllFaultsIff` | scripts/qualification-capstone/lib.ts:197-211 | no step is reported exactly when every required step of every profile passed recently |
| `QualificationVerdict.ValidIff` | scripts/qualification-capstone/lib.ts:173-222 | the verdict is valid if and only if the call is in order, the run is readable and free of secrets, it is for the commit asked about, and every required step of every profile passed recently |
| `QualificationVerdict.RefusedIff` | scripts/qualification-capstone/lib.ts:183-199 | the five refusals, each exactly under its own condition and in this order: bad profiles, an unreadable run, a secret, a bad window, an unknown profile |
| `QualificationVerdict.ListedIff` | scripts/qualification-capstone/lib.ts:189-211 | the list names exactly the true faults: another commit, and each required step of each profile that is missing, failed, or from the future or too old |
| `QualificationVerdict.ListedInOrder` | scripts/qualification-capstone/lib.ts:189-211 | the list stands in the order of profiles and steps, the commit first and a failure before staleness |
| `QualificationVerdict.ValidMeansRecorded` | scripts/qualification-capstone/lib.ts:124-222 | after any interleaving from an empty plan a valid verdict means that for each required step a recorder committed a recent PASS for the commit asked about, with evidence where required, and no later commit touched that step |
| `LiveVerdict.VerifyStep` | scripts/live-capstone/lib.ts:241-259 | one step: its faults, and whether it is missing or unsound |
| `LiveVerdict.VerifyPlatform` | scripts/live-capstone/lib.ts:230-261 | the loop over steps: its failures in order; complete means all recorded, passed means all passed and recent |
| `LiveVerdict.VerifyLiveCapstone` | scripts/live-capstone/lib.ts:196-228 | the verdict is valid if and only if the commit matches and both platforms passed, if and only if there is no failure; failures are those of the commit, of Windows and of Linux, in this order |
| `LiveVerdict.NoFaultsIff` | scripts/live-capstone/lib.ts:230-261 | a platform has no failure exactly when all its steps passed recently |
| `LiveVerdict.PlatformFaultsIff` | scripts/live-capstone/lib.ts:230-261 | the failures of a platform are exactly the true ones, in the order of the steps, a failure before staleness |
| `GeneratedDocuments.Workspace.Stage` | scripts/documentation/lib.ts:934-949 | staging stops at the first failing call and touches no target |
| `GeneratedDocuments.Workspace.Replace` | scripts/documentation/lib.ts:951-956 | renaming stops at the first failing rename; the targets before it hold the new texts |
| `GeneratedDocuments.Workspace.RollBack` | scripts/documentation/lib.ts:957-966 | undoing in reverse order leaves the specified contents |
| `GeneratedDocuments.Workspace.Generate` | scripts/documentation/lib.ts:930-972 | success exactly when no call fails; a failing staging call changes nothing; a failing rename leaves the rolled-back repository; the staging directory is gone |
| `GeneratedDocuments.Workspace.VerifyGenerated` | scripts/documentation/lib.ts:975-994 | the check passes exactly when every document reads as generated |
| `GeneratedDocuments.ReplacedContents` | scripts/documentation/lib.ts:953-956 | the replaced paths hold the new texts and all others are unchanged |
| `GeneratedDocuments.UndoneContents` | scripts/documentation/lib.ts:958-966 | undoing restores each path by itself |
| `GeneratedDocuments.UndoneIsRolledBack` | scripts/documentation/lib.ts:958-966 | undoing all renames, last first, is putting each original text back and removing what was absent |
| `GeneratedDocuments.RollbackIsCompleteIff` | scripts/documentation/lib.ts:942-965 | a failed generation leaves the repository as it was if and only if every replaced original survives being read and written as text |
| `GeneratedDocuments.AllOrNothingIff` | scripts/documentation/lib.ts:918-973 | for any documents and any failing calls: success puts every text in place and leaves other paths alone; a failure leaves the repository as it was if and only if no rename preceded it or the originals replaced by then survive as text |
| `GeneratedDocuments.OutcomeIff` | scripts/documentation/lib.ts:918-973 | what a generation leaves, path by path: every text in place if no call fails; the repository as it was if staging fails; and otherwise the same files, with the originals replaced before the first failing rename written again as text |
| `GeneratedDocuments.MalformedOriginalIsLost` | scripts/documentation/lib.ts:942-965 | an original with a byte that is not text comes back as other bytes |
| `GeneratedDocuments.RollbackKeepsOthers` | scripts/documentation/lib.ts:957-966 | absent targets are absent again and other paths never change |
| `GeneratedDocuments.VerifiesAfterSuccessIff` | scripts/documentation/lib.ts:972-994 | after success the check passes exactly when every text survives writing and reading |
| `ContractSplice.FoundBehind` | scripts/cleanup-broker/generate-administration-contract.py:63-65 | a marker put behind a text without it is found there and no earlier, because it does not overlap itself |
| `ContractSplice.SpliceShape` | scripts/cleanup-broker/generate-administration-contract.py:62-70 | from either branch, splicing replaces one stretch of the file, the same for every body |
| `ContractSplice.BlockIff` | scripts/cleanup-broker/generate-administration-contract.py:62-70 | the two splits find exactly the first start and the first end behind it |
| `ContractSplice.SpliceIff` | scripts/cleanup-broker/generate-administration-contract.py:62-70 | the text written back is exactly the file with the block from the first start marker to the first end marker behind it replaced, or, without a start marker, with the stretch from the first constant up to the first kept one replaced; otherwise there is none |
| `ContractSplice.SpliceAgain` | scripts/cleanup-broker/generate-administration-contract.py:62-70 | splicing into spliced text finds the old block again, unless its body has an end marker |
| `ContractSplice.IdempotentIff` | scripts/cleanup-broker/generate-administration-contract.py:62-70 | generating twice is generating once if and only if the body has no end marker in it |
| `ContractSplice.NoDriftAfterWriteIff` | scripts/cleanup-broker/generate-administration-contract.py:77-85 | a check right after a write reports no drift if and only if the body has no end marker in it |
| `ContractSplice.LastSpliceWins` | scripts/cleanup-broker/generate-administration-contract.py:62-70 | a later contract overwrites an earlier one without a trace |
| `Base64.BytesOfSextets` | scripts/documentation/task-claim-c0.ts:99-101 | decoding undoes encoding |
| `Base64.SextetsOfBytesIff` | scripts/documentation/task-claim-c0.ts:99-101 | encoding undoes decoding exactly for sextets with a canonical end: no single last one and no unused bit set (section 3.5 of RFC 4648) |
| `Base64.GroupsAgree` | scripts/documentation/task-claim-c0.ts:99-101 | each group of three bytes and its four sextets are the same number, a short last group filled up with zero bits (section 4 of RFC 4648) |
| `Base64.AlphabetOrder` | scripts/documentation/task-claim-c0.ts:94-98 | the two alphabets: letters, small letters and digits in order, then `+/` or `-_` (sections 4 and 5 of RFC 4648) |
| `Base64.EncodeIsShaped` | scripts/documentation/task-claim-c0.ts:94-98 | a canonical encoding matches the pattern, with the padding found and the length known |
| `Base64.CheckIffCanonical` | scripts/documentation/task-claim-c0.ts:92-105 | the check returns some bytes if and only if they are bounded and the text is their canonical encoding |
| `Base64.LastBitsIgnored` | scripts/organization-graph-contracts/index.ts:150-163 | bytes do not depend on the unused bits |
| `Base64.NonCanonicalTailWorks` | scripts/organization-graph-contracts/index.ts:150-163 | a variant exists exactly for payloads with unused bits; it decodes to the same bytes, is never canonical, and is a different text exactly when the unused bits were not already 1 |
| `Base64.ForgedTailIsRejected` | scripts/organization-graph-contracts/index.ts:150-163 | for every canonical payload with unused bits the variant differs, decodes to the same bytes and fails re-encoding |
| `WorkspaceManifest.GatheredIff` | scripts/notification-docs/lib.ts:602-619 | the recursive walk gathers exactly the files reachable without entering a cache directory |
| `WorkspaceManifest.Collector.CollectEntry` | scripts/notification-docs/lib.ts:602-619 | one entry adds the path texts of its files, without the manifest, and fails exactly for a strange entry outside the caches |
| `WorkspaceManifest.Collector.CollectTop` | scripts/notification-docs/lib.ts:593-600 | the same below every allowed top-level name |
| `WorkspaceManifest.CollectedIff` | scripts/notification-docs/lib.ts:593-619 | the collected texts are exactly those of the service's files |
| `WorkspaceManifest.LineParsesIff` | scripts/notification-docs/lib.ts:555-558 | a line matches exactly when it is a digest, two spaces and a path without backslash |
| `WorkspaceManifest.PartsOfJoined` | scripts/notification-docs/lib.ts:560-570 | splitting a joined path gives its components |
| `WorkspaceManifest.CheckEntry` | scripts/notification-docs/lib.ts:559-577 | a path is admitted exactly when it is safe and names a regular file of that digest |
| `WorkspaceManifest.CheckLine` | scripts/notification-docs/lib.ts:555-577 | one line: its form, its place after the lines before, its file |
| `WorkspaceManifest.CheckLines` | scripts/notification-docs/lib.ts:553-578 | the loop over lines, with the set of paths and the previous path |
| `WorkspaceManifest.BodySplits` | scripts/notification-docs/lib.ts:549-552 | any lines without line feeds are the lines of some text, whatever they end in |
| `WorkspaceManifest.VerifyManifest` | scripts/notification-docs/lib.ts:544-588 | a manifest text verifies if and only if its lines are strictly ascending and are exactly the lines of the collected files, each once, with the right digest |
| `WorkspaceManifest.AtMostOneManifest` | scripts/notification-docs/lib.ts:544-588 | texts that verify for one tree have the same lines |
| `WorkspaceManifest.ManifestExistsIff` | scripts/notification-docs/lib.ts:544-588 | some text verifies if and only if the tree has a file, nothing strange outside the caches, and neither a backslash nor a line feed in a path |
| `ManifestForm.SplitLinesIff` | scripts/notification-docs/lib.ts:550 | the lines of a text are the only parts, free of line feeds, that its line ends separate: a line feed, or a carriage return with it |
| `ManifestForm.ManifestLinesIff` | scripts/notification-docs/lib.ts:550-552 | the lines that are checked are those of the text, but for an empty last one |
| `ManifestForm.HashTextIff` | scripts/notification-docs/lib.ts:555 | a digest is sixty-four digits or letters from a to f |
| `ManifestForm.SafePathIff` | scripts/notification-docs/lib.ts:559-566 | a path is safe exactly when it is slash-separated names, none empty and none the parent directory, other than a lone dot, and is not the manifest itself |
| `ManifestForm.PlainIff` | scripts/notification-docs/lib.ts:593-619 | the collection fails exactly when a path below an allowed name and outside the caches leads to something strange |
| `ManifestForm.SomeManifestIff` | scripts/notification-docs/lib.ts:544-588 | some text verifies if and only if the walk meets nothing strange, meets a file to list, and no path to list holds a backslash or a line feed |
| `Mulberry.Generator.Next` | scripts/organization-graph-contracts/software-delivery.ts:414-420 | one draw advances the state by the odd increment modulo 2^32 and mixes it |
| `Mulberry.KnownDraws` | scripts/organization-graph-contracts/software-delivery.ts:414-420 | the mix of five states, the first states from the seeds 0, 1 and -1 among them |
| `Mulberry.Draw` | scripts/organization-graph-contracts/software-delivery.ts:412-421 | the draws from a seed are the mixed states after it, and the state counts them |
| `Mulberry.OutputsAt` | scripts/organization-graph-contracts/software-delivery.ts:412-421 | each draw is the mix of the state that its number determines, so equal seeds give equal sequences |
| `Mulberry.VisitedIff` | scripts/organization-graph-contracts/software-delivery.ts:412-421 | a word is the state after exactly the draws congruent to one number |
| `Mulberry.FullPeriod` | scripts/organization-graph-contracts/software-delivery.ts:412-421 | two draws leave the same state exactly when their numbers differ by a multiple of 2^32 |
| `Mulberry.EveryWordIsVisited` | scripts/organization-graph-contracts/contract-to-delivery.ts:231-240 | every 32-bit word is the state after fewer than 2^32 draws |
| `Mulberry.SelectIff` | scripts/organization-graph-contracts/software-delivery.ts:423-425 | selection stays inside a non-empty list, and each index takes one run of draws |
| `Mulberry.EveryIndexSelected` | scripts/organization-graph-contracts/software-delivery.ts:423-425 | every index of a list of at most 2^32 elements is selected by some draw |

## Left out

- Campaign.InspectCampaign: the model starts from records whose keys and field types are right, except where a field's type is itself a case; extra or missing JSON keys, which the source refuses first, are not part of it.
- DrainObservation.ObserveDrain: clock readings are integral milliseconds, and a wake is an answer rather than a promise; rounding of fractional clocks is not modelled. A schedule whose clock never answers has no counterpart.
- SchemaMeaning.EmbeddingPreservesMeaning: references are `$ref` to paths below `#/$defs/`; nested `$id`, anchors, dynamic references and percent-encoded pointers are not modelled, and the evaluator is stuck where a reference leads nowhere or the depth runs out.
- SourceSchema.SoftwareDeliveryIsMovable: regular expressions, identifiers and titles of the schema are parameters, over which the statement holds.
- SchemaEmbedding.ResolveCommutesIff: object keys have no order; the source keeps insertion order, which no reference depends on.
- PointerDecoding.ResolveJsonPointer: JavaScript's handling of inherited names is covered by own-property lookup; the checks of the path in front of `#` are not modelled.
- CanonicalTheorems.PreimageDetermines: texts are UTF-16 code units; UTF-8 encoding and the hash itself are not modelled, so the statement is about what is hashed.
- TreeTheorems.StreamIffSameFiles: digests are compared, not contents; that different contents have different digests is not assumed. A file that changes between its size check and its reading, and a path that leaves the root, have no counterpart.
- CommittedInputs.CommittedInputs: running git, its time limit and its output limit are left out; the listing is taken as text after UTF-8 decoding.
- RecorderTheorems.EveryInterleaving: the run exists already; creating a plan checks existence outside the lock and is left out. A step of the state machine is one file-system call or one pure computation; file modes, symbolic links, temporary names, flushing and the host's treatment of a failing close are not modelled.
- QualificationVerdict.VerifyQualification: times are instants; the digest of the judged bytes is left out.
- LiveVerdict.VerifyLiveCapstone: starts from a run that was read and passed the secret scan; the digest of its second reading of the file is left out, because the bytes may differ from the judged ones.
- GeneratedDocuments.Workspace.Generate: the calls of the rollback itself, and removing the staging directory, do not fail; documents are given, not rendered; ordinary-file checks count as staging calls that may fail.
- ContractSplice.IdempotentIff: the generated lines are any text; how they are rendered from the contract is left out.
- Base64.NonCanonicalTailWorks: payloads are symbols of the URL-safe alphabet without padding; the platform decoder's tolerance of other characters is left out.
- WorkspaceManifest.VerifyManifest: the text and the names are bytes of well-formed UTF-8, with the directory facts that names are not empty, "." or ".." and do not repeat.
- Mulberry.Draw: one generator stands for both copies in the source, which differ only in the names of their variables.
- Mulberry.SelectIff: the product is exact, as it is in double arithmetic for lists shorter than 2^21.
- CanonicalTheorems.SortedFormIff: says of the sorted value that it does not depend on key order; the text of numbers, and JavaScript's reordering of integer-like keys when that value is written, are not modelled.
- The vector tables of scripts/documentation/task-claim-c0.ts: looking vectors up, counting them and comparing their fields; the codec, the base64 check and the digest preimage they rest on are modelled.
- Projector, governance and workflow semantics: the scripts emit schemas and vectors for them; the deciding packages are not part of this model.
- Command-line parsing, process spawning, network clients, signing, archives, receipt field validators and secret patterns: plumbing and single-branch checks.
