# PaxPivot source truth, verified

PaxPivot tells travelers what official terminal pages said, when it was read, and how far that can be
trusted. This project models the part of it that decides those things and proves what its
documentation promises.

* **Register, gate, pipeline, run** (`Domain`, `Gate`, `SwitchKeys`, `Pipeline`, `PipelineLaws`, `RunTables`,
  `History`): every processing step passes one gate; a provider's answer is validated against the processing
  register and appended; a run reports one outcome per source and commits as a whole or not at all.
  The provider is an arbitrary function of the identity it is asked about. `History` interleaves runs
  with register edits and switch changes. Every decision is first stated as a condition on the register's own
  fields and the switches (`Gate.AuthorizedExactly`, `PipelineLaws.RecordedExactlyWhen`, `PipelineLaws.OutcomeKinds`).
* **Observation table** (`ObservationLog`, `ObservationLaws`, `ObservationListing`): rows are only
  appended, may supersede an earlier row of their source, and one row per source is current.
* **Reliability gate** (`Reliability.dfy`, `ReliabilityLaws`, `ReliabilityOutside`, `ReliabilityOrder`,
  `ReliabilityTies`, `ReliabilityChanges`, `ReliabilityVerdict`): window, gaps, change delays, nearest-rank
  percentile and verdict, each stated on the unsorted history; what one more read can do to them, and what the
  order of rows can. Times are integer microseconds; completion and 0.95 n are exact rationals.
* **Firecrawl provider** (`Firecrawl`, `FirecrawlLaws`, `FirecrawlPages`, `FirecrawlFetches`): the page cache,
  artifact discovery, what is fetched and why not, the requests made, the reduction of a page to an observation,
  and why the pipeline never refuses what it answers.
* **Page stamp parser** (`Regex`, `RegexSteps`, `RegexFacts`, `PageTime`, `PageTimeSearch`, `MonthTable`,
  `PageTimeRoundTrip`, `PageTimeAlone`): a backtracking matcher with a specification that does not mention the
  order of trying, the stamp expression, and the proof that the parser undoes the printing of a stamp in any
  spelling, with any of its optional marks and blanks, alone or inside markup.
* **Read models and seeding** (`TerminalFacts`, `ReadServices`, `TerminalViews`, `Seed`): the facts that are current,
  derived staleness, whose sources a terminal shows, agreement of the views, and an upsert that is idempotent and
  leaves alone what a person set.
* **Web edge** (`Calendar`, `TripForm`, `Session`): the trip form's date round trip over the civil calendar
  of section 21.4.1 of ECMA-262, and the signed session token with its constant-time comparison.

`Wrappers`, `Sequences` and `Digits` hold the option type, stable sorting, selection, and decimal and
hexadecimal text. `dafny verify dfyconfig.toml` checks everything.

Small definitions that larger statements rest on are fixed by code points, literals or fields beside them:
`Regex.CharactersExactly`, `SwitchKeys.HexDigitsExactly`, `TripForm.DateValueExactly`, `TripForm.FarYears`,
`TripForm.OnlyFullTextsAreRead`, `Seed.RaisesExactly`, `FirecrawlPages.UnknownIsRefused`.

Where the repository changes state the model does too: the observation table, the provider's page cache
and the register are classes whose methods are proved against functions of the old state, and the loops
of the repository are loops here. Everything proved about a run, a history or a second seeding is a lemma
about those functions.

## What the proofs turned up

Where code and documentation disagree the model follows the code.

* A kill switch key is documented as "rejected, never silently inert". A source key is accepted in any
  spelling that reads as a UUID, but compared with the canonical text only, so every other accepted spelling is
  inert (`SwitchKeys.AcceptedKeysStopExactly`, `SwitchKeys.OtherSpellingsAreInert`).
* The pipeline treats an empty query or fragment as absent; the table refuses the bare mark
  (`Domain.CredentialChecksDisagreeExactly`). An observation whose address ends in `?`, `#` or `?#` passes the
  pipeline and aborts the whole run, and with otherwise sound answers nothing else does (`RunTables.RunAbortsExactly`).
  So engaging a switch can make a run store more (`RunTables.ASwitchCanStoreMore`); exactly when is
  `RunTables.MoreSwitchesAddLess`.
* Retiring the current row can make an older row current again (`ObservationLaws.AnOlderRowCanReturn`); the exact
  effect of an append is `ObservationLaws.AppendMovesCurrent`.
* Inserting a successful read, whenever it was made, turns a verdict into Stop exactly when it moves the start of
  the window and the first silence or the completion from there is a Stop (`ReliabilityOutside.AReadHurtsExactly`).
  A read before the first row of a clipped window does that (`ReliabilityLaws.EarlierFirstReadCanStop`), and so
  does a read before the window, which unclips it (`ReliabilityOutside.ReadBeforeTheWindowCanStop`).
* The order in which tied observations are listed decides which hashes are neighbours, and through them the changes
  and even Pass against Watch (`ReliabilityTies.TiesDecideChanges`), but nothing else
  (`ReliabilityTies.TiesOnlyMoveChanges`).
* A terminal page read for artifact discovery is cached; its own observation does not use that cache, so a run
  requests the page twice exactly when it is needed for both (`FirecrawlFetches.RawAsksOfARun`).
* Facts are documented as closed by an `effective_to`, but rows are append-only and a closed row is only filtered
  out, so appending one never ends an open fact (`TerminalFacts.ClosedFactsChangeNothing`).
* The trip timestamp is shown as typed exactly for years from 1000 on; `getUTCFullYear` is not padded
  (`TripForm.ShownAsTyped`).
* A token issued before 1970 never verifies, since its text starts with a sign (`Session.IssuedTokenLifetime`).
* The in-memory table of the unit tests breaks ties differently from the database; over some rows it agrees exactly
  when no row observed when the database's was has a larger identifier (`ObservationListing.InMemoryAgrees`).

## Model

| member | source | states |
|---|---|---|
| ReliabilityGate.WindowContents | apps/api/paxpivot/application/source_reliability.py:86-95 | The measured window holds exactly the rows, and the measured reads exactly the successful rows, observed from start to now, in time order |
| ReliabilityGate.ClippedMeansNothingEarlier | apps/api/paxpivot/application/source_reliability.py:88-91 | A window is clipped if and only if it holds a row and no row of the whole history precedes it, and it then begins at the earliest observation there is |
| ReliabilityLaws.GapsTileTheWindow | apps/api/paxpivot/application/source_reliability.py:113-116 | The gaps are one more than the reads, none is negative, and they sum to exactly now minus begin |
| ReliabilityLaws.GapAccounting | apps/api/paxpivot/application/source_reliability.py:111-146 | longest gap times (reads + 1) covers the window, gaps over 6.5 h fit inside it, and any verdict but Stop forces (reads + 1) times 18.5 h to cover it |
| ReliabilityLaws.LongestGapIsLongestSilence | apps/api/paxpivot/application/source_reliability.py:113-126 | The longest gap, computed from sorted neighbours, is the longest stretch of the window in which no successful read of the unsorted history lies: one such stretch has that length and none is longer |
| ReliabilityLaws.NotStoppedMeansNeverSilentTooLong | apps/api/paxpivot/application/source_reliability.py:126-146 | In a measured window without Stop, every stretch over 18.5 h contains a successful read |
| ReliabilityLaws.AnotherReadNeverHurts | apps/api/paxpivot/application/source_reliability.py:88-136 | Inserting a successful read made from start to now never lengthens the longest gap, lowers completion or turns a verdict into Stop, as long as the window has a row or the history reaches back beyond it, and a clipped window's first row is not later than the read |
| ReliabilityLaws.EarlierReadExactly | apps/api/paxpivot/application/source_reliability.py:88-146 | In a clipped window a read made inside the window but before its first row moves the start to itself: the longest gap becomes the larger of the old one and the time from that read to the first successful one (or now), and the verdict is Stop exactly when that gap or the completion over the longer window says so |
| ReliabilityLaws.FirstReadOfAnEmptyWindow | apps/api/paxpivot/application/source_reliability.py:88-146 | Into an empty window with nothing before it the first read inside it starts the measurement, and the verdict is Stop exactly when it lies more than 18.5 hours or at least two cadences back; a source never observed was Unknown, any other that stops now stopped before |
| ReliabilityLaws.EarlierFirstReadCanStop | apps/api/paxpivot/application/source_reliability.py:88-91 | Two concrete histories: in a clipped window an added earlier read turns a verdict into Stop |
| ReliabilityOutside.ReadBeforeTheWindowExactly | apps/api/paxpivot/application/source_reliability.py:88-146 | A read before a clipped window unclips it: the start becomes the window's own, no read more is counted, the longest gap becomes the larger of the old one and the time from there to the first successful read (or now), and the verdict is Stop exactly when that gap or the completion over the whole window says so |
| ReliabilityOutside.OutsideRowChangesNothing | apps/api/paxpivot/application/source_reliability.py:86-151 | Every other row outside the window, read or failed, leaves the report of an observed source as it was, in all fields |
| ReliabilityOutside.FirstRowOutsideTheWindow | apps/api/paxpivot/application/source_reliability.py:97-151 | A source's first row, outside the window, turns Unknown into a measurement of the empty window: Stop exactly when that window exceeds 18.5 hours or expects a read |
| ReliabilityOutside.AReadHurtsExactly | apps/api/paxpivot/application/source_reliability.py:86-151 | For every history and every successful read, inside the window or outside: a verdict other than Stop becomes Stop if and only if the read is the source's first or precedes a clipped window's first row, and from the start it moves to the first silence exceeds 18.5 hours or the completion is under 90 % |
| ReliabilityOutside.ReadBeforeTheWindowCanStop | apps/api/paxpivot/application/source_reliability.py:88-91 | Two concrete histories: a read before the window turns a verdict into Stop |
| ReliabilityOrder.WindowDecides | apps/api/paxpivot/application/source_reliability.py:88-151 | Two histories with the same rows inside the window give equal reports as soon as they agree on "some row exists" and "some row precedes start" |
| ReliabilityOrder.CappedHistoryExactly | apps/api/paxpivot/tooling.py:336-359 | For every newest-first history the report on its newest limit + 1 rows equals the report on all of it, in all twelve fields, if and only if at most limit rows are as recent as start, or there are no more than limit + 1 rows, or the window is empty |
| ReliabilityOrder.CappedHistoryBeyondTheBound | apps/api/paxpivot/tooling.py:336-359 | Where the two differ and the listing reaches the window although rows precede it, the capped report calls the window clipped and the whole one does not |
| ReliabilityOrder.OrderDoesNotMatter | apps/api/paxpivot/application/source_reliability.py:86-151 | Where rows observed together are equal, so in particular with pairwise different times, every permutation of a history gives the same report |
| ReliabilityTies.TiesOnlyMoveChanges | apps/api/paxpivot/application/source_reliability.py:86-151 | Every permutation of any history, ties included, gives the same report except for the number of changes, their percentile and what these decide: start, clipped, expected, recorded, successful, completion, longest gap, gaps over the window and hashed agree, and Stop and Unknown hold for both or neither |
| ReliabilityTies.TiesDecideChanges | apps/api/paxpivot/application/source_reliability.py:117-146 | A concrete history with two tied reads: in one order it shows one change and passes, in the other two changes and is only watched |
| ReliabilityChanges.DetectionIsNearestRank | apps/api/paxpivot/application/source_reliability.py:117-125 | The report has a percentile exactly when it counts changes; it is then the delay of one, at least 95 % of the changes are no slower, fewer than 95 % are faster, and with fewer than 20 none is slower |
| ReliabilityChanges.ChangesAreCounted | apps/api/paxpivot/application/source_reliability.py:117-123 | The reported number of changes is the number of neighbouring successful reads with different hashes, and the delays with any given property are as many as such neighbours that lie so far apart |
| ReliabilityVerdict.UnknownExactly | apps/api/paxpivot/application/source_reliability.py:95-109 | A verdict is Unknown if and only if there is no cadence or the source was never observed, and nothing is measured then |
| ReliabilityVerdict.StopExactly | apps/api/paxpivot/application/source_reliability.py:126-132 | A verdict is Stop if and only if the source is measured and either its longest gap exceeds 18.5 hours or its successful reads are under 90 % of the expected ones, in whole numbers |
| ReliabilityVerdict.PassExactly | apps/api/paxpivot/application/source_reliability.py:88-136 | A verdict is Pass if and only if the source is measured, some row precedes the window, no gap exceeds 18.5 hours, 100 successful >= 95 expected > 0, the window has a read, every successful row from start to now of the unsorted history has a hash, and at least 95 % of the changes came within 6.5 hours |
| ReliabilityVerdict.HashedExactly | apps/api/paxpivot/application/source_reliability.py:92-93 | hashed is true if and only if the unsorted history has a successful row from start to now and every such row has a hash |
| ReliabilityVerdict.CountsExactly | apps/api/paxpivot/application/source_reliability.py:138-151 | recorded and successful are the numbers of positions of the unsorted history with such a row, and gaps over 6.5 hours the number of such stretches between neighbouring reads, start and now |
| ReliabilityVerdict.ExpectedExactly | apps/api/paxpivot/application/source_reliability.py:111 | The expected reads are the whole cadences that fit from the measured start to now |
| ReliabilityVerdict.CompletionExactly | apps/api/paxpivot/application/source_reliability.py:112 | Completion is the exact share of the expected reads, 100 once they are reached, and absent exactly when none is expected |
| ReliabilityVerdict.StartExactly | apps/api/paxpivot/application/source_reliability.py:88-91 | A report is clipped if and only if the window holds a row and none precedes it; the start is then the earliest observation and otherwise the given one |
| ObservationLog.ObservationRepository.Append | apps/api/paxpivot/infrastructure/repositories.py:264-265 | An insert is accepted exactly when key, CHECKs and both foreign keys hold, then adds that one row at the end, and otherwise leaves the table as it was |
| ObservationLog.ObservationRepository.LatestPerSource | tests/unit/support_sources.py:276-293 | One pass keeping the best unsuperseded row per source computes the current row of every source that has one |
| ObservationLaws.AdmittedExactly | apps/api/paxpivot/infrastructure/database.py:193-243 | The CHECKs, the primary key and the composite foreign key of an insert, in the columns of the new row and of the rows before it |
| ObservationLaws.SupersedesAnEarlierRow | apps/api/paxpivot/infrastructure/database.py:211-216 | In every table appends can reach, a superseded identifier names an earlier row of the same source |
| ObservationLaws.SupersessionIsAcyclic | apps/api/paxpivot/infrastructure/database.py:211-238 | A chain of supersessions never returns to a row it passed and is no longer than the table |
| ObservationLaws.ExactlyOneCurrent | apps/api/paxpivot/infrastructure/repositories.py:267-286 | Every source with a row has exactly one current row, a leaf that outranks all other leaves of its source, and no other source has any |
| ObservationLaws.SupersededNeverReturns | apps/api/paxpivot/infrastructure/repositories.py:267-286 | A superseded row is current at no later time, however the table grows |
| ObservationLaws.AppendMovesCurrent | apps/api/paxpivot/infrastructure/repositories.py:264-286 | Appending r leaves other sources' current rows alone and makes its own the better of old and r, unless r supersedes the old one, when it is the best of r and the remaining leaves |
| ObservationLaws.AnOlderRowCanReturn | apps/api/paxpivot/infrastructure/repositories.py:267-286 | Three concrete rows after which an older leaf is current again |
| ObservationListing.ListingIsRanked | apps/api/paxpivot/infrastructure/repositories.py:288-296 | The listing of a source holds exactly its rows, each as often as the table, in strictly descending rank |
| ObservationListing.CappedListingReportsTheWholeSource | apps/api/paxpivot/tooling.py:336-359 | In any reachable table the report from the capped database listing equals the report from all rows of the source under exactly the same three conditions, stated on the table |
| ObservationListing.InMemoryAgrees | tests/unit/support_sources.py:276-293 | Over any rows with different identifiers the unit tests' tie-break picks the database's row if and only if no row observed when that one was has a larger identifier |
| ObservationListing.InMemoryAgreesOnEveryPart | tests/unit/support_sources.py:276-293 | It does so on every part of a table if and only if, of two rows observed together, the one recorded later has the larger identifier |
| ObservationListing.InMemoryCanDisagree | tests/unit/support_sources.py:276-293 | Two concrete rows where it does not |
| Gate.EngagedSwitch | apps/api/paxpivot/application/source_gate.py:35-52 | A switch is reported exactly when some listed switch covers the step, and it is one of those |
| Gate.EngagedSwitchIsFirst | apps/api/paxpivot/application/source_gate.py:35-52 | No switch listed before the reported one covers the step |
| Gate.AuthorizedExactly | apps/api/paxpivot/domain/source.py:183-198 | A step is authorised if and only if no listed unreleased switch names the source, its adapter or the mode, the source is enabled, and either nobody reviewed it, the mode is retrieval and may_retrieve is set, or it is approved with that mode's own flag |
| Gate.RefusalSaysWhy | apps/api/paxpivot/application/source_gate.py:55-76 | A refusal is final and names the first check that failed: switch, disabled, restricted, paused, not approved, mode denied |
| Gate.SourceSwitchIsExact | apps/api/paxpivot/application/source_gate.py:42-44 | A source switch carrying one identifier's text stops that source and no other, because the text determines the identifier |
| SwitchKeys.CanonicalTextReads | apps/api/paxpivot/domain/source.py:250-254 | The canonical text of every identifier is an accepted key and reads back as that identifier |
| SwitchKeys.AcceptedKeysStopExactly | apps/api/paxpivot/domain/source.py:236-255 | Accepted mode and adapter keys always can stop something; an accepted source key can if and only if it is the canonical text of the identifier it reads as, however liberally numbers are read |
| SwitchKeys.AnAcceptedKeyCanBeInert | apps/api/paxpivot/domain/source.py:236-255 | A concrete accepted source key that stops nothing |
| SwitchKeys.OtherSpellingsAreInert | apps/api/paxpivot/domain/source.py:236-255 | Every identifier's canonical text behind "urn:uuid:" or in braces is accepted as a source key and stops nothing |
| SwitchKeys.BracesComeOff | apps/api/paxpivot/domain/source.py:250-254 | Reading a key strips exactly the braces at its two ends |
| Domain.CredentialChecksDisagreeExactly | apps/api/paxpivot/application/source_pipeline.py:62-94 | The pipeline's address check and the table's CHECK differ on exactly the addresses that end in a bare "?", "#" or "?#" |
| Domain.ContractExactly | apps/api/paxpivot/domain/source.py:76-96 | What the observation's validator accepts, in its fields: positive claims need a successful read, absence an interpretation, an interpretation a parser |
| Pipeline.ReportScope | apps/api/paxpivot/application/source_reliability.py:53-71 | Splits the register into the measured sources and the others with their reason, both in register order |
| Pipeline.CheckSource | apps/api/paxpivot/application/source_checks.py:117-141 | One source: asked exactly when not skipped, at most one row appended, and a refused append changes nothing |
| Pipeline.RunSourceChecks | apps/api/paxpivot/application/source_checks.py:144-167 | One outcome per source in register order, the provider asked about exactly the sources the report measures, and the table extended by exactly the accepted observations |
| Pipeline.CheckSourcesInTransaction | apps/api/paxpivot/infrastructure/database.py:309-335 | The table afterwards holds all rows of the run, or none of them when any was refused |
| Pipeline.RunsCompose | apps/api/paxpivot/application/source_checks.py:144-167 | A run over xs followed by ys equals the two runs in sequence: table, outcomes and questions |
| PipelineLaws.RecordedExactlyWhen | apps/api/paxpivot/application/source_pipeline.py:48-123 | An observation is recorded if and only if the register's fields grant its retrieval, the provider is its adapter and answered with its own observation of that source under the policy version in force, without query or fragment, and the fields grant parsing, raw storage and hashing where it shows them |
| PipelineLaws.OutcomeKinds | apps/api/paxpivot/application/source_checks.py:117-141 | Skipped, rejected, failed and recorded are each characterised by what the register grants, whose adapter it is and what came back; state and reason are there exactly when they should be |
| PipelineLaws.OutcomeSaysWhy | apps/api/paxpivot/application/source_checks.py:89-141 | Every outcome but recorded carries the reason of the first check that failed, or the provider's own |
| PipelineLaws.RunIsConserved | apps/api/paxpivot/application/source_checks.py:144-167 | A completed run appends exactly the rows it reports as recorded, in that order, and keeps everything before them |
| PipelineLaws.MoreSwitchesAcceptLess | apps/api/paxpivot/application/source_checks.py:144-167 | For the same provider answers, more engaged switches leave a subsequence of the observations accepted for the table |
| RunTables.MoreSwitchesAddLess | apps/api/paxpivot/infrastructure/database.py:309-335 | The rows a run adds to the table are a subsequence of those it adds with fewer switches if and only if the run with fewer commits, or the one with more aborts, or the latter accepts nothing |
| RunTables.ASwitchCanStoreMore | apps/api/paxpivot/infrastructure/database.py:309-335 | Two concrete sources: without a switch the run aborts and stores nothing, with a switch on the second it stores one row |
| RunTables.RunAbortsExactly | apps/api/paxpivot/infrastructure/database.py:309-335 | When the accepted observations meet their contract, are registered, carry new identifiers and supersede nothing, a run is rolled back if and only if one of their addresses ends in a bare mark |
| History.StepIsSafe | apps/api/paxpivot/application/source_pipeline.py:48-123 | Each event only extends the table, keeps it well formed, and each row it adds is justified by the register's fields, the switches and the provider at that moment |
| History.HistoriesAreSafe | apps/api/paxpivot/application/source_pipeline.py:48-123 | In every history of runs, switch changes and register edits, each added row was added by one run when no listed switch stopped its source, the source was enabled and its policy's own fields granted retrieval (and parsing, raw storage or hashing where the row shows them), with the policy version and adapter then in force and no query or fragment |
| History.HistoryExtends | apps/api/paxpivot/infrastructure/database.py:304-305 | No history changes or removes a stored row, and supersession stays well formed |
| History.AbsenceClaimsWereInterpreted | apps/api/paxpivot/domain/source.py:76-96 | A stored claim that nothing is published or compatible came from a successful read, interpreted while parsing was authorised |
| History.CurrentnessAlongAHistory | apps/api/paxpivot/infrastructure/repositories.py:267-286 | Along every history an observed source has a current row and a superseded row is never current again |
| History.StepSetsForce | apps/api/paxpivot/infrastructure/repositories.py:342-361 | A switch is listed from its engagement to a release of its identifier; a release only dates the stored switch, and the register in force is the last one put in place |
| History.SwitchedOffSourceStaysSilent | apps/api/paxpivot/application/source_gate.py:35-76 | After a switch is engaged and until it is released, no run adds a row for an identifier whose registered sources it stops, whatever else happens |
| History.ReleasedNoLongerCounts | apps/api/paxpivot/application/source_gate.py:35-76 | After a release the gate asks about the other unreleased switches only |
| Firecrawl.DiscoverArtifact | apps/api/paxpivot/infrastructure/providers/firecrawl.py:61-77 | Finds the first link under the folder whose file name names the schedule, or there is none |
| Firecrawl.Provider.FetchRegistered | apps/api/paxpivot/infrastructure/providers/firecrawl.py:222-255 | What is fetched through any valid cache equals what an uncached provider would fetch, and the requests made are exactly those not served from the cache |
| Firecrawl.Provider.Observe | apps/api/paxpivot/infrastructure/providers/firecrawl.py:144-168 | The answer is the uncached provider's answer, about the asked identity, at the call's time and under its identifier; cache and requests change as the fetch says |
| Firecrawl.Provider.FetchDocument | apps/api/paxpivot/infrastructure/providers/firecrawl.py:129-142 | The document is the uncached provider's; cache and requests change as the fetch says |
| Firecrawl.Provider.AnswerAll | apps/api/paxpivot/infrastructure/providers/firecrawl.py:112-255 | Any sequence and mixture of observe and document calls, each with its own time and identifier, answers as if uncached, and makes exactly the requests of its trace |
| FirecrawlFetches.RawAsksOfCalls | apps/api/paxpivot/infrastructure/providers/firecrawl.py:222-255 | Over any calls the raw page of an address is requested once per call that reads it, plus once if some call discovers an artifact through it and it was not cached: failures included, discovery never repeats a request |
| FirecrawlFetches.RawAsksOfARun | apps/api/paxpivot/infrastructure/providers/firecrawl.py:222-255 | In one run over a register with unique pages a page is requested once for its own source if that is asked, and once if an asked artifact is discovered through it: twice exactly when both are |
| FirecrawlLaws.ReducedIsPermitted | apps/api/paxpivot/infrastructure/providers/firecrawl.py:144-220 | Every observation reduced from a page meets the observation contract, although copies skip its validator, and everything the register demands |
| FirecrawlLaws.ReducedClaims | apps/api/paxpivot/infrastructure/providers/firecrawl.py:144-331 | Fresh exactly when reached, missing exactly on 404 and 410, hashed exactly when a hash of what was reached is allowed, and timed exactly when parsing was authorised and the page shows a stamp with a clock in a known zone; always observed at the call's time under its identifier, by this provider, under the source's policy version |
| FirecrawlLaws.ReducedReasons | apps/api/paxpivot/infrastructure/providers/firecrawl.py:144-331 | The reasons, in order: the status and what it means, a hash that is wanted and missing, and what became of the page's stamp |
| FirecrawlLaws.StatusIsSpelled | apps/api/paxpivot/infrastructure/providers/firecrawl.py:302-320 | The number in a reason is the page's status in decimal digits after its sign |
| FirecrawlLaws.FirecrawlRowsAreDated | apps/api/paxpivot/infrastructure/providers/firecrawl.py:144-168 | Every row a Firecrawl run adds for a source carries the time and the identifier of the call that asked about it, its identity and its policy version |
| FirecrawlPages.FetchExactly | apps/api/paxpivot/infrastructure/providers/firecrawl.py:222-255 | A fetch answers what the web answers for the source's own page, or for the first schedule linked on the first terminal page of its terminal that the register lets be retrieved; each refusal and failure is the one of the first step that fails |
| FirecrawlPages.DocumentExactly | apps/api/paxpivot/infrastructure/providers/firecrawl.py:129-142 | A document call about a registered source is answered by the fetch of that source |
| FirecrawlPages.FetchedExactly | apps/api/paxpivot/infrastructure/providers/firecrawl.py:257-292 | One request gives a page if and only if the service answered 200 with a readable body, blank documents dropped; otherwise the trouble is named by the code |
| FirecrawlPages.ArtifactExactly | apps/api/paxpivot/infrastructure/providers/firecrawl.py:57-77 | A link is the schedule if and only if it begins with the folder in any case and the decoded name up to its query stays in the folder and contains 72, at most one hyphen between blanks, and hr or hour in any case |
| FirecrawlLaws.FetchRefusesOnlyOrphans | apps/api/paxpivot/infrastructure/providers/firecrawl.py:222-292 | An authorised fetch fails with a refusal code if and only if an artifact has no terminal page that may be read |
| FirecrawlLaws.RejectedOnlyForAMissingParent | apps/api/paxpivot/application/source_checks.py:117-141 | A Firecrawl run reports a source as rejected exactly for that reason and says so; it records exactly what it could fetch |
| FirecrawlLaws.FirecrawlRunCommits | apps/api/paxpivot/tooling.py:212-264 | With fresh identifiers and a register that meets its CHECK, no row of a Firecrawl run is refused, so it is never rolled back |
| Regex.MatchIsDescription | apps/api/paxpivot/application/parsers/amc_page_time.py:27-31 | The backtracking matcher succeeds at a position exactly when some stretch from there is described by the expression, and what it reports is described |
| Regex.RunIsComplete | apps/api/paxpivot/application/parsers/amc_page_time.py:27-31 | Backtracking misses nothing: if some split lets the rest match, a match is found |
| Regex.SearchIsLeftmost | apps/api/paxpivot/application/parsers/amc_page_time.py:48-49 | A search reports the leftmost position with a match, or there is none |
| PageTime.CollapsedIsSingleSpaced | apps/api/paxpivot/application/parsers/amc_page_time.py:45-46 | Collapsing leaves single blanks only, and leaves such text unchanged |
| PageTime.ResultIsARealMoment | apps/api/paxpivot/application/parsers/amc_page_time.py:44-62 | Any result is a real calendar moment in range, midnight when the stamp is a bare date, and the leftmost match alone decides |
| PageTimeRoundTrip.StampRuns | apps/api/paxpivot/application/parsers/amc_page_time.py:16-31 | The expression matches every printed stamp where it stands and captures exactly its day, month, year and clock |
| PageTimeRoundTrip.StampNeedsItsHead | apps/api/paxpivot/application/parsers/amc_page_time.py:27-31 | In single-spaced text no stamp is read except at its opening words followed by a digit |
| PageTimeSearch.SeamIsNotCrossed | apps/api/paxpivot/application/parsers/amc_page_time.py:27-49 | Wherever "cu" follows some text, a stamp found from inside that text, in the text as continued, is also found there in the text alone |
| MonthTable.MonthWords | apps/api/paxpivot/application/parsers/amc_page_time.py:16-24 | The table reads a word as a month if and only if it is that month's English name, its first three letters, or "sept" for September |
| PageTimeRoundTrip.ParserUndoesPrinter | apps/api/paxpivot/application/parsers/amc_page_time.py:44-62 | Every well printed stamp, in any spelling and with any of the expression's optional marks and blanks, after any text in which the search finds no stamp and before text that cannot extend its clock, is read as exactly the moment it names, or as nothing when it names none |
| PageTimeRoundTrip.EveryMinuteReadsBack | apps/api/paxpivot/application/parsers/amc_page_time.py:44-62 | For every real date from 2020 to 2100, every minute and each of the three shapes with their optional blanks, any document, tags and entities included, whose normalised text shows the printed stamp after no other stamp is read back as that moment |
| PageTime.StripTagsConcat | apps/api/paxpivot/application/parsers/amc_page_time.py:16-45 | Text that ends every tag it opens is stripped by itself, whatever follows it |
| PageTime.TagIsABlank | apps/api/paxpivot/application/parsers/amc_page_time.py:16-45 | A tag becomes one blank |
| PageTimeAlone.EveryMarkedUpStampReadsBack | apps/api/paxpivot/application/parsers/amc_page_time.py:44-62 | The same for a printed stamp inside markup without entities: what stands before it ends the tags it opens and holds no stamp once stripped and collapsed, and what stands after it does not extend its clock |
| PageTimeAlone.EveryStampReadsBack | apps/api/paxpivot/application/parsers/amc_page_time.py:44-62 | The same for a printed stamp alone, with every side condition discharged: each real date from 2020 to 2100, minute, shape and spelling of the month's word reads back exactly |
| ReadServices.StalenessIsDerived | apps/api/paxpivot/application/read_services.py:56-82 | A positive reading is never older than 6.5 h, reading changes a state exactly from outdated positive to stale and copies every other field, and a stale reading stays as now grows |
| ReadServices.NewestIsFirstMaximum | apps/api/paxpivot/application/read_services.py:89-90 | The newest observation is the first among those observed last |
| TerminalViews.DetailListsItsOwn | apps/api/paxpivot/infrastructure/repositories.py:251-257 | A terminal's detail has a row for a registered source if and only if the source is of that terminal, one each, in register order, with the register's fields and no evidence when restricted |
| TerminalViews.DetailNamesItsTerminal | apps/api/paxpivot/application/read_services.py:169-186 | A detail exists exactly for listed terminals and carries the asked identifier and that terminal's name |
| TerminalViews.HeadlineNeedsItsOwnSource | apps/api/paxpivot/application/read_services.py:93-118 | A headline is absent if and only if no unrestricted source of that terminal has a stored observation |
| TerminalViews.OfficialUrlIsItsOwn | apps/api/paxpivot/application/read_services.py:106-117 | The official address is that of the terminal's first terminal-page source, and absent exactly when it has none |
| TerminalViews.NetworkShowsDetails | apps/api/paxpivot/application/read_services.py:121-149 | The network lists every terminal in order with the summary of its own detail |
| TerminalViews.HeadlineIsNewestRow | apps/api/paxpivot/application/read_services.py:93-118 | A detail's headline is the newest evidence among its own rows, and is absent exactly when no row shows any |
| TerminalViews.ViewsAgree | apps/api/paxpivot/application/read_services.py:196-236 | At one snapshot and moment the detail row of each source of the terminal shows what that source's health row shows, and nothing when restricted; neither shows an outdated positive state |
| ReadServices.NothingOutdatedIsShown | apps/api/paxpivot/application/read_services.py:56-236 | No positive state about something last seen over 6.5 hours ago appears in any terminal's headline in the network, in a detail's headline or rows, or in any health row, restricted sources included |
| ReadServices.HealthShowsTheCurrentRow | apps/api/paxpivot/application/read_services.py:216-236 | A health row has evidence exactly for observed sources, and it is that of the one current row |
| TerminalViews.HealthListsEverySource | apps/api/paxpivot/application/read_services.py:216-265 | Health has one row for each registered source at its place, with the register's fields |
| ReadServices.SwitchesOnlyFlag | apps/api/paxpivot/application/read_services.py:222-236 | Switches never change evidence; the flag is set exactly when some listed switch covers some mode |
| TerminalFacts.CurrentFactsExactly | apps/api/paxpivot/infrastructure/repositories.py:313-332 | The ranked listing of a terminal holds a fact if and only if it is the terminal's, open, and outranks every other open fact of its kind there |
| TerminalFacts.OneFactPerKind | apps/api/paxpivot/infrastructure/repositories.py:313-332 | Each kind is listed at most once, in the order of the kinds |
| TerminalFacts.ClosedFactsChangeNothing | apps/api/paxpivot/infrastructure/repositories.py:313-332 | Appending a fact that is already closed changes no listing, however new it is |
| ReadServices.OnlyDisplayableFactsLeave | apps/api/paxpivot/application/read_services.py:152-196 | A terminal's detail carries a fact if and only if it is the terminal's current fact of its kind and its own source is registered and approved for display; each kind at most once, in order |
| ReadServices.DisplayableFacts | apps/api/paxpivot/application/read_services.py:152-166 | The loop keeps exactly the facts whose source permits display, in order |
| ReadServices.SourceHealth | apps/api/paxpivot/application/read_services.py:239-265 | Each listed state's count is the number of rows in it, none is zero or missing, they come in the order of their wire values, and counts and never-observed add up to the number of sources |
| Seed.Register.SeedReferenceData | apps/api/paxpivot/infrastructure/bootstrap.py:267-323 | Commits exactly when no missing reference row's page is held by another row; each reference row is then as the next rows say, the counters are the growth of the tables and the number of altered rows, and a refused run changes nothing |
| Seed.Register.UpgradePolicies | apps/api/paxpivot/infrastructure/bootstrap.py:302-322 | A stored row on another known older version that nobody paused or restricted gets its reference's policy and date and keeps every other column, any other stays as it was; the loop counts the rows it changes and adds none |
| Seed.ReferenceRowAfter | apps/api/paxpivot/infrastructure/bootstrap.py:274-322 | Each reference row afterwards: inserted if missing; given its own reference's policy and updated_at, every other column kept, if it held another known older version and was neither paused nor restricted; otherwise as it was |
| Seed.OtherRowAfter | apps/api/paxpivot/infrastructure/bootstrap.py:298-301 | Rows that are not reference rows are neither added nor changed |
| Seed.MissingTerminals | apps/api/paxpivot/infrastructure/bootstrap.py:285-296 | Stored terminals are never changed, a reference terminal is stored afterwards, and no other terminal appears |
| Seed.SeedingRespectsPeople | apps/api/paxpivot/infrastructure/bootstrap.py:227-316 | A stored row changes only if it is a reference row on a known older version nobody paused or restricted, and then only in its policy columns and updated_at |
| Seed.PoliciesOnRecord | apps/api/paxpivot/infrastructure/bootstrap.py:38-121 | What the reference policies let the service do: unreviewed sources and schedule artifacts nothing, terminal pages exactly retrieval, parsing and display; with the reviewer and the civil date and hour of the review |
| Seed.SourceChecksExactly | apps/api/paxpivot/infrastructure/database.py:176-190 | The CHECKs of a source row in its columns; the policy's validator demands the same of its part and, beyond them, a positive retention |
| Seed.SeedingIsIdempotent | apps/api/paxpivot/infrastructure/bootstrap.py:267-323 | From any tables a second run meets no obstacle, changes nothing and alters no row |
| Seed.SeedingKeepsConstraints | apps/api/paxpivot/infrastructure/database.py:133-190 | A committed run leaves tables that meet every CHECK, unique page and foreign key |
| Seed.SeedTwice | apps/api/paxpivot/tooling.py:160-167 | Seeding twice: once the first run commits the second returns zeros and changes nothing |
| Calendar.CivilIsADate | apps/web/app/trips/new/route.ts:9-12 | Every day number is one existing Gregorian date, and that date's number |
| Calendar.DateOfItsDayNumber | apps/web/app/trips/new/route.ts:9-12 | Every existing Gregorian date comes back from its day number |
| TripForm.ToIsoAcceptsExistingMinutes | apps/web/app/trips/new/route.ts:6-14 | A text is accepted if and only if it is the padded print of an existing civil minute of the years 0 to 9999, or of such a second, whichever way the engine treats a day the month does not have |
| TripForm.ToIsoKeepsTheText | apps/web/app/trips/new/route.ts:6-14 | What is returned for it is the text itself with the moment's seconds, milliseconds and the zone added |
| TripForm.ShownAsTyped | apps/web/lib/presentation/adapters/format.ts:11-15 | The returned text reads back as the typed moment's milliseconds from 1970, and is shown with the year unpadded and the typed rest, so as typed if and only if the year is at least 1000 |
| Session.TimingSafeEqual | apps/web/lib/auth/session.ts:26-33 | The XOR/OR fold is true exactly for equal strings; on strings longer than any engine allows, exactly the NUL-padded twins are the exception |
| Session.BitByBit | apps/web/lib/auth/session.ts:26-33 | The XOR and OR of the fold work on each binary digit |
| Session.BytesAsSpelled | apps/web/lib/auth/session.ts:12-24 | A signature's text spells each byte of the digest by its two hexadecimal digits, small letters, in order |
| Session.VerifySession | apps/web/lib/auth/session.ts:43-56 | Accepts exactly the tokens made of a digit run, a dot and its signature, with an age from zero to twelve hours |
| Session.SplitsInTwo | apps/web/lib/auth/session.ts:49 | Splitting at dots gives two parts exactly when the text is those parts joined by its only dot |
| Session.GoodTokenParts | apps/web/lib/auth/session.ts:43-56 | A token is good exactly when its two parts are digits of the right age and their signature |
| Session.IssuedTokenLifetime | apps/web/lib/auth/session.ts:35-56 | An issued token is good exactly during its lifetime, and never when issued before 1970 |
| Session.TamperingNeedsACollision | apps/web/lib/auth/session.ts:43-56 | A signature moved to other digits is accepted only if both texts have the same signature |

## Left out

- HTTP, Firecrawl transport, environment, command line and printing: I/O. A remote page is a function of address and format that does not change during a run.
- SQLAlchemy, migrations, schema probing and PostgreSQL internals: the model keeps the stated constraints, atomic commit and rollback, and value snapshots; concurrent transactions are not modelled.
- `urljoin`, `HttpUrl`, `html.unescape`, `unquote`, IANA zone conversion, SHA-256, HMAC-SHA-256 and UUID5 are parameters or given values.
- IEEE rounding: completion and the percentile rank are exact; `Number(text)` is any rounding that is exact up to 2^53 and stays above it beyond.
- Unicode case folding and non-ASCII digits or blanks in regular expressions.
- The length and trimming rule of identifiers and the wire names of enumerations other than processing modes.
- What `int(text, 16)` inside `UUID` makes of texts other than plain hexadecimal digits is left open; the results on kill switch keys hold for any answer.
- Terminal entrance, coordinates and operational state, and explanation wording: lookups.
- `report_exit_code`, `exit_code` and `formatAge`: single branches over results proved here.
- The reference constants of the seed: only their policies are spelled out; identifiers, names and pages are any that are pairwise distinct; `Seed.SomeReference` shows that such constants exist.
- `new Date` on other texts than the form's own and its own ISO print.
- React screens, presentation tables, navigation, the trips service and its API routes.
- Session.VerifySession: assumes fewer than 2^32 code units per string, which every engine enforces; `Session.TimingSafeEqual` states what happens beyond.
- ObservationLog.ObservationRepository.Append: inserts one row per statement, as the application does; a multi-row insert that could build a supersession cycle is not modelled.
- ReliabilityOrder.OrderDoesNotMatter: needs rows observed together to be equal, because with ties the order of reads decides which hashes are neighbours; `ReliabilityTies` states what still holds and shows what does not.
