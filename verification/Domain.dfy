// The source contracts: observations, the processing register and kill switches
// (apps/api/paxpivot/domain/source.py, application/result.py).
module Domain {
  import opened Wrappers

  type Uuid = u: nat | u < 0x1_0000_0000_0000_0000_0000_0000_0000_0000
  type Identifier = string
  type Time = int  // microseconds on one absolute clock

  const MICROS_PER_MINUTE: int := 60_000_000
  const MICROS_PER_HOUR: int := 3_600_000_000

  // ---- results (application/result.py) ----

  datatype ErrorCode = Unauthorized | Forbidden | Unavailable | InvalidInput | Conflict
  datatype ApplicationError = ApplicationError(code: ErrorCode, messageKey: Identifier, retryable: bool)
  datatype Result<+T> = Success(value: T) | Failure(error: ApplicationError)

  // ---- page addresses, kept as their text with the two components the policy looks at ----

  type Url = string

  function Before(s: string, c: char): string {
    if s == "" || s[0] == c then "" else [s[0]] + Before(s[1..], c)
  }

  function After(s: string, c: char): string {
    if s == "" then "" else if s[0] == c then s[1..] else After(s[1..], c)
  }

  // RFC 3986 section 3: the fragment follows the first '#', the query the first '?' before it.
  function Fragment(u: Url): string { After(u, '#') }
  function Query(u: Url): string { After(Before(u, '#'), '?') }

  // `observed_url.query or observed_url.fragment`: an empty component counts as absent.
  predicate CarriesCredentials(u: Url) { Query(u) != "" || Fragment(u) != "" }

  // The stored columns' CHECK: neither marker occurs at all.
  predicate NoCredentialMarks(u: Url) { '?' !in u && '#' !in u }

  datatype SourceIdentity = SourceIdentity(sourceId: Uuid, url: Url, authority: Identifier)

  datatype Provenance = Provenance(
    source: SourceIdentity, observedAt: Time, sourceTime: Option<Time>,
    providerId: Identifier, policyVersionId: Identifier)

  // ---- observations ----

  datatype SourceState =
    | Fresh | Stale | Unreachable | ChangedUnparsed | Missing | StateConflict | MonitorDelayed
    | NoDepartures | NoCompatible | RestrictedUserOpen | ReviewRequired | Superseded | Withdrawn

  datatype RetrievalState = Succeeded | RetrievalFailed | RetrievalNotAttempted
  datatype ExtractionState = ExtractionNotAttempted | Exact | Reviewed | ExtractionFailed

  predicate Positive(s: SourceState) { s.Fresh? || s.NoDepartures? || s.NoCompatible? }
  predicate Interpreted(e: ExtractionState) { e.Exact? || e.Reviewed? }

  datatype SourceObservation = SourceObservation(
    observationId: Uuid, provenance: Provenance, state: SourceState,
    retrieval: RetrievalState, extraction: ExtractionState,
    parserVersion: Option<Identifier>, contentHash: Option<Identifier>,
    confidenceReasons: seq<Identifier>, payloadRef: Option<Identifier>,
    supersedes: Option<Uuid>)
  {
    function At(): Time { provenance.observedAt }
    function SourceId(): Uuid { provenance.source.sourceId }

    predicate EvidenceConsistent() {
      && (Positive(state) ==> retrieval.Succeeded?)
      && (state.NoDepartures? || state.NoCompatible? ==> Interpreted(extraction))
      && (Interpreted(extraction) ==> parserVersion.Some? && retrieval.Succeeded?)
      && confidenceReasons != []
      && (payloadRef.Some? ==> retrieval.Succeeded?)
      && supersedes != Some(observationId)
    }
  }

  // The contract of an observation, in its own fields: claims need a successful read, absence an
  // interpretation, and an interpretation a parser.
  lemma ContractExactly(o: SourceObservation)
    ensures o.EvidenceConsistent() <==>
              && (o.state in {Fresh, NoDepartures, NoCompatible} ==> o.retrieval == Succeeded)
              && (o.state in {NoDepartures, NoCompatible} ==> o.extraction in {Exact, Reviewed})
              && (o.extraction in {Exact, Reviewed} ==> o.parserVersion != None && o.retrieval == Succeeded)
              && o.confidenceReasons != []
              && (o.payloadRef != None ==> o.retrieval == Succeeded)
              && o.supersedes != Some(o.observationId)
  {
  }

  // ---- the processing register ----

  datatype SourceKind = TerminalPage | ScheduleArtifact | DirectoryPage | PolicyDocument
  datatype ReviewState = Approved | NeedsReview | Paused | Restricted
  datatype RawPayload = Denied | HashOnly | Snapshot
  datatype ProcessingMode = Retrieve | Parse | StoreRaw | Summarize | Display | AggregateHistory

  datatype Policy = Policy(
    policyVersionId: Identifier, reviewState: ReviewState,
    mayRetrieve: bool, mayParse: bool, maySummarize: bool, mayDisplay: bool, mayAggregate: bool,
    rawPayload: RawPayload, snapshotRetentionDays: Option<int>,
    reviewer: Option<Identifier>, reviewedAt: Option<Time>)
  {
    predicate ReviewConsistent() {
      && (snapshotRetentionDays.Some? ==> snapshotRetentionDays.value > 0)
      && (reviewState.Approved? ==> reviewer.Some? && reviewedAt.Some?)
      && (rawPayload.Snapshot? <==> snapshotRetentionDays.Some?)
      && (reviewState.Restricted? ==>
            !mayRetrieve && !mayParse && !maySummarize && !mayDisplay && !mayAggregate && rawPayload.Denied?)
    }

    predicate Allows(mode: ProcessingMode) {
      match reviewState
      case Paused | Restricted => false
      case NeedsReview => mode.Retrieve? && mayRetrieve
      case Approved =>
        match mode
        case Retrieve => mayRetrieve
        case Parse => mayParse
        case StoreRaw => rawPayload.Snapshot?
        case Summarize => maySummarize
        case Display => mayDisplay
        case AggregateHistory => mayAggregate
    }
  }

  datatype Source = Source(
    identity: SourceIdentity, name: Identifier, kind: SourceKind, terminalId: Option<Uuid>,
    enabled: bool, cadenceMinutes: Option<int>,
    adapterId: Option<Identifier>, adapterVersion: Option<Identifier>,
    policy: Policy, createdAt: Time, updatedAt: Time)
  {
    function Id(): Uuid { identity.sourceId }
  }

  // The first source with this identifier.
  function FindSource(sources: seq<Source>, id: Uuid): (r: Option<Source>)
    ensures r.Some? ==> r.value in sources && r.value.Id() == id
    ensures r.None? ==> forall s :: s in sources ==> s.Id() != id
  {
    if sources == [] then None else if sources[0].Id() == id then Some(sources[0]) else FindSource(sources[1..], id)
  }

  // ---- kill switches ----

  datatype SwitchScope = SourceScope | AdapterScope | ModeScope

  datatype KillSwitch = KillSwitch(
    switchId: Uuid, scope: SwitchScope, key: Identifier, reason: Identifier,
    engagedAt: Time, releasedAt: Option<Time>)
  {
    predicate Engaged() { releasedAt.None? }
  }

  function ModeValue(mode: ProcessingMode): string {
    match mode
    case Retrieve => "retrieve"
    case Parse => "parse"
    case StoreRaw => "store_raw"
    case Summarize => "summarize"
    case Display => "display"
    case AggregateHistory => "aggregate_history"
  }

  // ---- lemmas about addresses ----

  lemma {:induction false} AbsentMark(s: string, c: char)
    requires c !in s
    ensures Before(s, c) == s && After(s, c) == ""
  {
    if s != "" {
      AbsentMark(s[1..], c);
    }
  }

  lemma {:induction false} BeforeKeepsAbsence(s: string, c: char, d: char)
    ensures Before(s, c) <= s
    ensures d !in s ==> d !in Before(s, c)
  {
    if s != "" && s[0] != c {
      BeforeKeepsAbsence(s[1..], c, d);
    }
  }

  lemma {:induction false} MarkSplits(s: string, c: char)
    requires c in s
    ensures s == Before(s, c) + [c] + After(s, c)
  {
    if s[0] != c {
      MarkSplits(s[1..], c);
      assert s == [s[0]] + s[1..];
    }
  }

  ghost predicate EndsBare(u: Url, page: string) {
    '?' !in page && '#' !in page && (u == page + "?" || u == page + "#" || u == page + "?#")
  }

  // What the pipeline's check misses and the table's CHECK still refuses: exactly an address that
  // ends in a bare '?', a bare '#', or '?#'.
  lemma CredentialChecksDisagreeExactly(u: Url)
    ensures NoCredentialMarks(u) <==> '?' !in u && '#' !in u
    ensures CarriesCredentials(u) <==> !NoCredentialMarks(u) && !exists page: string :: EndsBare(u, page)
  {
    if NoCredentialMarks(u) {
      AbsentMark(u, '#');
      AbsentMark(u, '?');
    }
    if !CarriesCredentials(u) && !NoCredentialMarks(u) {
      BareMarks(u);
    }
    if page: string :| EndsBare(u, page) {
      BareMarksCarryNothing(page, u);
    }
  }

  lemma BareMarks(u: Url)
    requires !CarriesCredentials(u) && !NoCredentialMarks(u)
    ensures exists page: string :: EndsBare(u, page)
  {
    var head := Before(u, '#');
    BeforeExcludes(u, '#');
    var page := Before(head, '?');
    BeforeExcludes(head, '?');
    BeforeKeepsAbsence(head, '?', '#');
    if '#' in u { MarkSplits(u, '#'); } else { AbsentMark(u, '#'); }
    if '?' in head { MarkSplits(head, '?'); } else { AbsentMark(head, '?'); }
    assert NoCredentialMarks(page);
    assert page + "?" + "#" == page + "?#";
    assert page + ['?'] + "" == page + "?" && head + ['#'] + "" == head + "#";
    assert EndsBare(u, page);
  }

  lemma {:induction false} BeforeExcludes(s: string, c: char)
    ensures c !in Before(s, c)
  {
    if s != "" && s[0] != c {
      BeforeExcludes(s[1..], c);
    }
  }

  lemma {:induction false} AtMark(p: string, c: char, rest: string)
    requires c !in p
    ensures Before(p + [c] + rest, c) == p && After(p + [c] + rest, c) == rest
  {
    if p != "" {
      assert (p + [c] + rest)[1..] == p[1..] + [c] + rest;
      AtMark(p[1..], c, rest);
    }
  }

  lemma BareMarksCarryNothing(page: string, u: Url)
    requires EndsBare(u, page)
    ensures !CarriesCredentials(u) && !NoCredentialMarks(u)
  {
    AbsentMark(page, '?');
    AtMark(page, '?', "");
    assert page + "?" + "" == page + "?";
    if u == page + "?" {
      AbsentMark(u, '#');
      assert u[|page|] == '?';
    } else if u == page + "#" {
      AtMark(page, '#', "");
      assert page + "#" + "" == u;
      assert u[|page|] == '#';
    } else {
      AtMark(page + "?", '#', "");
      assert page + "?" + "#" + "" == u;
      assert u[|page|] == '?';
    }
  }
}
