// From a provider's answer to an appended row
// (apps/api/paxpivot/application/source_pipeline.py and source_checks.py).
module Pipeline {
  import opened Wrappers
  import opened Sequences
  import opened Domain
  import opened Gate
  import opened ObservationLog

  // One run: the provider's name, its answer for each identity it may be asked about, and the
  // kill switches listed when the run began.
  datatype Run = Run(
    providerId: Identifier, answers: SourceIdentity -> Result<SourceObservation>, switches: seq<KillSwitch>)

  // ---- validation of what came back ----

  function Reject(code: ErrorCode, messageKey: Identifier): ApplicationError {
    ApplicationError(if code.Forbidden? then Forbidden else InvalidInput, messageKey, false)
  }

  function ModeDenial(source: Source, mode: ProcessingMode, switches: seq<KillSwitch>, policyKey: Identifier)
    : Option<ApplicationError>
  {
    if Authorized(source, mode, switches) then None
    else if EngagedSwitch(source, mode, switches).Some? then Some(Reject(Forbidden, "source.kill_switch_engaged"))
    else Some(Reject(Forbidden, policyKey))
  }

  // The last checks of `validate_against_policy`: what the observation kept and interpreted.
  function EvidenceDenial(source: Source, o: SourceObservation, switches: seq<KillSwitch>): Option<ApplicationError> {
    var raw := if o.payloadRef.Some? then ModeDenial(source, StoreRaw, switches, "source.raw_payload_denied") else None;
    if raw.Some? then raw
    else
      var parse :=
        if Interpreted(o.extraction) then ModeDenial(source, Parse, switches, "source.parse_denied") else None;
      if parse.Some? then parse
      else if o.contentHash.Some? && source.policy.rawPayload.Denied? then
        Some(Reject(Forbidden, "source.raw_hash_denied"))
      else None
  }

  function ValidateAgainstPolicy(source: Source, o: SourceObservation, switches: seq<KillSwitch>)
    : Option<ApplicationError>
  {
    if o.SourceId() != source.Id() then Some(Reject(InvalidInput, "source.observation_identity_mismatch"))
    else if o.provenance.policyVersionId != source.policy.policyVersionId then
      Some(Reject(InvalidInput, "source.observation_policy_mismatch"))
    else if CarriesCredentials(o.provenance.source.url) then
      Some(Reject(Forbidden, "source.url_carries_credentials"))
    else EvidenceDenial(source, o, switches)
  }

  // `record_observation` up to the append: the observation to store, or the refusal.
  function RecordDecision(source: Source, run: Run): Result<SourceObservation> {
    match AuthorizeProcessing(source, Retrieve, run.switches)
    case Failure(e) => Failure(e)
    case Success(_) =>
      if source.adapterId != Some(run.providerId) then
        Failure(Reject(InvalidInput, "source_provider.identity_mismatch"))
      else
        match run.answers(source.identity)
        case Failure(e) => Failure(e)
        case Success(o) =>
          if o.provenance.providerId != run.providerId then
            Failure(Reject(InvalidInput, "source.observation_provider_mismatch"))
          else
            match ValidateAgainstPolicy(source, o, run.switches)
            case Some(e) => Failure(e)
            case None => Success(o)
  }

  // ---- one source of a run ----

  datatype OutcomeKind = Recorded | Skipped | Rejected | ProviderFailure
  datatype Outcome = Outcome(
    sourceId: Uuid, kind: OutcomeKind, messageKey: Option<Identifier>, state: Option<SourceState>)

  function SkipReason(source: Source, providerId: Identifier, switches: seq<KillSwitch>): Option<Identifier> {
    match AuthorizeProcessing(source, Retrieve, switches)
    case Failure(e) => Some(e.messageKey)
    case Success(_) =>
      if source.adapterId != Some(providerId) then Some("source_provider.identity_mismatch") else None
  }

  function CheckOutcome(source: Source, run: Run): Outcome {
    match SkipReason(source, run.providerId, run.switches)
    case Some(reason) => Outcome(source.Id(), Skipped, Some(reason), None)
    case None =>
      match RecordDecision(source, run)
      case Success(o) => Outcome(source.Id(), Recorded, None, Some(o.state))
      case Failure(e) =>
        Outcome(source.Id(), if e.code.Forbidden? || e.code.InvalidInput? then Rejected else ProviderFailure,
                Some(e.messageKey), None)
  }

  // ---- a whole run, as functions of the registry ----

  function Measures(providerId: Identifier, switches: seq<KillSwitch>): Source -> bool {
    (s: Source) => SkipReason(s, providerId, switches).None?
  }
  function Skips(providerId: Identifier, switches: seq<KillSwitch>): Source -> bool {
    (s: Source) => SkipReason(s, providerId, switches).Some?
  }
  function WithReason(providerId: Identifier, switches: seq<KillSwitch>): Source -> (Source, Option<Identifier>) {
    (s: Source) => (s, SkipReason(s, providerId, switches))
  }
  function DecisionIn(run: Run): Source -> Result<SourceObservation> { (s: Source) => RecordDecision(s, run) }
  function OutcomeIn(run: Run): Source -> Outcome { (s: Source) => CheckOutcome(s, run) }
  function Identity(): Source -> SourceIdentity { (s: Source) => s.identity }

  function Successes<T>(results: seq<Result<T>>): seq<T> {
    if results == [] then []
    else if results[0].Success? then [results[0].value] + Successes(results[1..])
    else Successes(results[1..])
  }

  // The observations the run stores, in registry order.
  function Accepted(sources: seq<Source>, run: Run): seq<SourceObservation> {
    Successes(Map(sources, DecisionIn(run)))
  }

  // The identities the run asks the provider about, in order.
  function Asked(sources: seq<Source>, run: Run): seq<SourceIdentity> {
    Map(Filter(sources, Measures(run.providerId, run.switches)), Identity())
  }

  // Inserting rows one statement at a time; None when the database refuses one.
  function AppendAll(log: seq<Row>, observations: seq<SourceObservation>, registered: set<Uuid>, recordedAt: Time)
    : Option<seq<Row>>
    decreases observations
  {
    if observations == [] then Some(log)
    else if Admits(log, observations[0]) && observations[0].SourceId() in registered then
      AppendAll(log + [Row(observations[0], recordedAt)], observations[1..], registered, recordedAt)
    else None
  }

  function RunTable(log: seq<Row>, sources: seq<Source>, run: Run, registered: set<Uuid>, recordedAt: Time)
    : Option<seq<Row>>
  {
    AppendAll(log, Accepted(sources, run), registered, recordedAt)
  }

  // The table after a run in one transaction: all its rows, or none of them.
  function TableAfterRun(log: seq<Row>, sources: seq<Source>, run: Run, registered: set<Uuid>, recordedAt: Time)
    : seq<Row>
  {
    match RunTable(log, sources, run, registered, recordedAt)
    case Some(after) => after
    case None => log
  }

  // ---- the same run, step by step ----

  // `report_scope`: the sources a run would read, and the others with the reason.
  method ReportScope(sources: seq<Source>, switches: seq<KillSwitch>, providerId: Identifier)
    returns (measured: seq<Source>, notMeasured: seq<(Source, Option<Identifier>)>)
    ensures measured == Filter(sources, Measures(providerId, switches))
    ensures notMeasured == Map(Filter(sources, Skips(providerId, switches)), WithReason(providerId, switches))
  {
    measured, notMeasured := [], [];
    for i := 0 to |sources|
      invariant measured == Filter(sources[..i], Measures(providerId, switches))
      invariant notMeasured == Map(Filter(sources[..i], Skips(providerId, switches)), WithReason(providerId, switches))
    {
      ScopeStep(sources, i, switches, providerId);
      var reason := SkipReason(sources[i], providerId, switches);
      if reason.None? {
        measured := measured + [sources[i]];
      } else {
        notMeasured := notMeasured + [(sources[i], reason)];
      }
    }
    assert sources[..|sources|] == sources;
  }

  // `check_source`. An append the database refuses raises, which `raised` reports; `asked` is
  // whether the provider was invoked.
  method CheckSource(source: Source, run: Run, repository: ObservationRepository,
                     registered: set<Uuid>, recordedAt: Time)
    returns (outcome: Outcome, asked: bool, raised: bool)
    modifies repository
    ensures asked <==> SkipReason(source, run.providerId, run.switches).None?
    ensures raised <==> RunTable(old(repository.rows), [source], run, registered, recordedAt).None?
    ensures !raised ==> outcome == CheckOutcome(source, run)
    ensures !raised ==> RunTable(old(repository.rows), [source], run, registered, recordedAt) == Some(repository.rows)
    ensures raised ==> repository.rows == old(repository.rows)
  {
    asked, raised := false, false;
    OneSourceTable(repository.rows, source, run, registered, recordedAt);
    var reason := SkipReason(source, run.providerId, run.switches);
    if reason.Some? {
      return Outcome(source.Id(), Skipped, Some(reason.value), None), false, false;
    }
    asked := true;
    match RecordDecision(source, run)
    case Success(o) =>
      var stored := repository.Append(o, registered, recordedAt);
      outcome, raised := Outcome(source.Id(), Recorded, None, Some(o.state)), !stored;
    case Failure(e) =>
      outcome := Outcome(source.Id(), if e.code.Forbidden? || e.code.InvalidInput? then Rejected else ProviderFailure,
                         Some(e.messageKey), None);
  }

  // `run_source_checks`: every registered source once, in registry order.
  method RunSourceChecks(sources: seq<Source>, run: Run, repository: ObservationRepository,
                         registered: set<Uuid>, recordedAt: Time)
    returns (outcomes: seq<Outcome>, asked: seq<SourceIdentity>, raised: bool)
    modifies repository
    ensures raised <==> RunTable(old(repository.rows), sources, run, registered, recordedAt).None?
    ensures !raised ==> outcomes == Map(sources, OutcomeIn(run))
    ensures !raised ==> asked == Asked(sources, run)
    ensures !raised ==> RunTable(old(repository.rows), sources, run, registered, recordedAt) == Some(repository.rows)
  {
    outcomes, asked, raised := [], [], false;
    ghost var before := repository.rows;
    for i := 0 to |sources|
      invariant outcomes == Map(sources[..i], OutcomeIn(run))
      invariant asked == Asked(sources[..i], run)
      invariant RunTable(before, sources[..i], run, registered, recordedAt) == Some(repository.rows)
    {
      AskedStep(sources, i, run);
      TableStep(before, repository.rows, sources, i, run, registered, recordedAt);
      var outcome, invoked, failed := CheckSource(sources[i], run, repository, registered, recordedAt);
      if failed {
        raised := true;
        return;
      }
      outcomes := outcomes + [outcome];
      if invoked {
        asked := asked + [sources[i].identity];
      }
    }
    assert sources[..|sources|] == sources;
  }

  // The command around a run: one transaction, rolled back as a whole when anything in it raises.
  method CheckSourcesInTransaction(sources: seq<Source>, run: Run, repository: ObservationRepository,
                                   registered: set<Uuid>, recordedAt: Time)
    returns (outcomes: Option<seq<Outcome>>, asked: seq<SourceIdentity>)
    modifies repository
    ensures repository.rows == TableAfterRun(old(repository.rows), sources, run, registered, recordedAt)
    ensures outcomes.Some? <==> RunTable(old(repository.rows), sources, run, registered, recordedAt).Some?
    ensures outcomes.Some? ==> outcomes.value == Map(sources, OutcomeIn(run)) && asked == Asked(sources, run)
  {
    var atBegin := repository.rows;
    var found, invoked, raised := RunSourceChecks(sources, run, repository, registered, recordedAt);
    asked := invoked;
    if raised {
      repository.rows := atBegin;
      outcomes := None;
    } else {
      outcomes := Some(found);
    }
  }

  // ---- composition ----

  lemma ScopeStep(sources: seq<Source>, i: nat, switches: seq<KillSwitch>, providerId: Identifier)
    requires i < |sources|
    ensures var reason := SkipReason(sources[i], providerId, switches);
            var measured := Filter(sources[..i], Measures(providerId, switches));
            var skipped := Filter(sources[..i], Skips(providerId, switches));
            && Filter(sources[..i + 1], Measures(providerId, switches))
               == (if reason.None? then measured + [sources[i]] else measured)
            && Map(Filter(sources[..i + 1], Skips(providerId, switches)), WithReason(providerId, switches))
               == Map(skipped, WithReason(providerId, switches)) + (if reason.None? then [] else [(sources[i], reason)])
  {
    FilterStep(sources, i, Measures(providerId, switches));
    FilterStep(sources, i, Skips(providerId, switches));
    var skipped := Filter(sources[..i], Skips(providerId, switches));
    MapConcat(skipped, [sources[i]], WithReason(providerId, switches));
  }

  lemma SuccessesOfOne<T>(r: Result<T>)
    ensures Successes([r]) == if r.Success? then [r.value] else []
  {
    assert [r][1..] == [];
    assert r.Success? ==> [r.value] + [] == [r.value];
  }

  // What a run over a single source does to the table.
  lemma OneSourceTable(log: seq<Row>, source: Source, run: Run, registered: set<Uuid>, recordedAt: Time)
    ensures RunTable(log, [source], run, registered, recordedAt)
         == if RecordDecision(source, run).Success?
            then AppendAll(log, [RecordDecision(source, run).value], registered, recordedAt) else Some(log)
  {
    assert Map([source], DecisionIn(run)) == [DecisionIn(run)(source)];
    SuccessesOfOne(RecordDecision(source, run));
  }

  lemma {:induction false} SuccessesConcat<T>(xs: seq<Result<T>>, ys: seq<Result<T>>)
    ensures Successes(xs + ys) == Successes(xs) + Successes(ys)
  {
    if xs == [] {
      assert xs + ys == ys;
    } else {
      assert (xs + ys)[1..] == xs[1..] + ys;
      SuccessesConcat(xs[1..], ys);
    }
  }

  lemma AcceptedConcat(xs: seq<Source>, ys: seq<Source>, run: Run)
    ensures Accepted(xs + ys, run) == Accepted(xs, run) + Accepted(ys, run)
  {
    MapConcat(xs, ys, DecisionIn(run));
    SuccessesConcat(Map(xs, DecisionIn(run)), Map(ys, DecisionIn(run)));
  }

  lemma {:induction false} AppendAllConcat(log: seq<Row>, xs: seq<SourceObservation>, ys: seq<SourceObservation>,
                                           registered: set<Uuid>, recordedAt: Time)
    ensures AppendAll(log, xs + ys, registered, recordedAt) ==
            match AppendAll(log, xs, registered, recordedAt)
            case None => None
            case Some(mid) => AppendAll(mid, ys, registered, recordedAt)
    decreases xs
  {
    if xs == [] {
      assert xs + ys == ys;
    } else {
      assert (xs + ys)[1..] == xs[1..] + ys;
      if Admits(log, xs[0]) && xs[0].SourceId() in registered {
        AppendAllConcat(log + [Row(xs[0], recordedAt)], xs[1..], ys, registered, recordedAt);
      }
    }
  }

  // A run over one registry followed by another, in one transaction, is the run over both.
  lemma RunsCompose(log: seq<Row>, xs: seq<Source>, ys: seq<Source>, run: Run, registered: set<Uuid>, recordedAt: Time)
    ensures RunTable(log, xs + ys, run, registered, recordedAt) ==
            match RunTable(log, xs, run, registered, recordedAt)
            case None => None
            case Some(mid) => RunTable(mid, ys, run, registered, recordedAt)
    ensures Map(xs + ys, OutcomeIn(run)) == Map(xs, OutcomeIn(run)) + Map(ys, OutcomeIn(run))
    ensures Asked(xs + ys, run) == Asked(xs, run) + Asked(ys, run)
  {
    AcceptedConcat(xs, ys, run);
    AppendAllConcat(log, Accepted(xs, run), Accepted(ys, run), registered, recordedAt);
    var measures := Measures(run.providerId, run.switches);
    FilterConcat(xs, ys, measures);
    MapConcat(xs, ys, OutcomeIn(run));
    MapConcat(Filter(xs, measures), Filter(ys, measures), Identity());
  }

  lemma AskedStep(sources: seq<Source>, i: nat, run: Run)
    requires i < |sources|
    ensures Asked(sources[..i + 1], run)
         == if SkipReason(sources[i], run.providerId, run.switches).None?
            then Asked(sources[..i], run) + [sources[i].identity] else Asked(sources[..i], run)
  {
    FilterStep(sources, i, Measures(run.providerId, run.switches));
  }

  // One more source extends the table as if it were run alone on what is there; once the database
  // has refused a row, no completion of the run exists.
  lemma TableStep(before: seq<Row>, rows: seq<Row>, sources: seq<Source>, i: nat, run: Run,
                  registered: set<Uuid>, recordedAt: Time)
    requires i < |sources|
    requires RunTable(before, sources[..i], run, registered, recordedAt) == Some(rows)
    ensures RunTable(before, sources[..i + 1], run, registered, recordedAt)
         == RunTable(rows, [sources[i]], run, registered, recordedAt)
    ensures RunTable(rows, [sources[i]], run, registered, recordedAt).None? ==>
            RunTable(before, sources, run, registered, recordedAt).None?
  {
    assert sources[..i + 1] == sources[..i] + [sources[i]];
    assert sources == sources[..i + 1] + sources[i + 1..];
    RunsCompose(before, sources[..i], [sources[i]], run, registered, recordedAt);
    RunsCompose(before, sources[..i + 1], sources[i + 1..], run, registered, recordedAt);
  }
}
