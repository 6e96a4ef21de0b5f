// The Firecrawl provider fits the pipeline: what it answers is never refused by the register.
module FirecrawlLaws {
  import opened Wrappers
  import opened Sequences
  import opened Domain
  import opened Gate
  import opened ObservationLog
  import opened Pipeline
  import opened PipelineLaws
  import opened RunTables
  import opened Firecrawl
  import D = Digits
  import P = PageTime

  // ---- every answer meets the observation contract and the register ----

  ghost predicate Acceptable(source: Source, o: SourceObservation, switches: seq<KillSwitch>, id: Uuid) {
    && o.EvidenceConsistent() && Permitted(source, o, switches)
    && o.observationId == id && o.provenance.providerId == PROVIDER_ID
    && o.provenance.source == source.identity && o.supersedes.None?
    && !o.state.NoDepartures? && !o.state.NoCompatible?
  }

  // The validator is skipped when the page time is written into a copy; the copy satisfies it anyway.
  lemma PageTimeCopyIsAcceptable(source: Source, o: SourceObservation, stamp: Option<P.PageTime>,
                                 zones: map<Uuid, string>, outside: Outside, switches: seq<KillSwitch>, id: Uuid)
    requires Acceptable(source, o, switches, id) && o.retrieval.Succeeded? && Granted(source, Parse, switches)
    ensures Acceptable(source, WithStamp(source, o, stamp, zones, outside), switches, id)
  {
  }

  lemma PlainCopyIsAcceptable(source: Source, at: Time, status: int, digest: Option<Identifier>,
                              extra: Option<Identifier>, switches: seq<KillSwitch>, id: Uuid)
    requires !CarriesCredentials(source.identity.url) && (digest.Some? ==> !source.policy.rawPayload.Denied?)
    ensures Acceptable(source, Observation(source, at, status, digest, extra, id), switches, id)
  {
  }

  lemma ReducedIsPermitted(source: Source, page: Page, switches: seq<KillSwitch>, zones: map<Uuid, string>, at: Time,
                           id: Uuid, outside: Outside)
    requires !CarriesCredentials(source.identity.url)
    ensures Acceptable(source, Reduced(source, page, switches, zones, at, id, outside), switches, id)
  {
    var hashWanted := !source.policy.rawPayload.Denied?;
    var digest := if hashWanted && page.document.Some? then Some(outside.digest(page.document.value)) else None;
    var extra := if hashWanted && digest.None? then Some("content_hash_unavailable") else None;
    var o := Observation(source, at, page.status, digest, extra, id);
    PlainCopyIsAcceptable(source, at, page.status, digest, extra, switches, id);
    if source.kind.TerminalPage? && Authorized(source, Parse, switches) && o.retrieval.Succeeded?
       && page.document.Some? {
      var stamp := P.ParsePageTime(page.document.value, outside.unescape);
      AuthorizedExactly(source, Parse, switches);
      PageTimeCopyIsAcceptable(source, o, stamp, zones, outside, switches, id);
    }
  }

  // ---- what a stored page claims ----

  // The stamp names a moment with a clock, and the source's terminal lies in a known zone.
  ghost predicate TimeKnown(source: Source, stamp: Option<P.PageTime>, zones: map<Uuid, string>, outside: Outside) {
    && stamp.Some? && stamp.value.hasTime
    && source.terminalId.Some? && source.terminalId.value in zones
    && zones[source.terminalId.value] != "" && outside.knownZone(zones[source.terminalId.value])
  }

  ghost predicate ZoneKnown(source: Source, zones: map<Uuid, string>, outside: Outside) {
    && source.terminalId.Some? && source.terminalId.value in zones
    && zones[source.terminalId.value] != "" && outside.knownZone(zones[source.terminalId.value])
  }

  // The reasons a page's status alone gives, without the hash's.
  ghost function StatusReasons(status: int): seq<Identifier> {
    var http := "http_" + IntText(status);
    if 200 <= status < 300 then ["metadata_only", http]
    else if status in {401, 403} then ["http_forbidden", http]
    else [http]
  }

  // A stamp read in full replaces the first reason; otherwise the reason it was not read comes last.
  ghost function StampReasons(known: bool, stamp: Option<P.PageTime>, zoneKnown: bool, reasons: seq<Identifier>)
    : seq<Identifier>
    requires reasons != []
  {
    if known then reasons[1..] + ["page_time_parsed", "page_time_local_clock"]
    else if stamp == None then reasons + ["page_time_not_found"]
    else if !zoneKnown then reasons + ["page_time_zone_unknown"]
    else reasons + ["page_time_date_only"]
  }

  // What never changes between the plain observation and the one with a page time.
  ghost predicate Dated(source: Source, o: SourceObservation, at: Time, id: Uuid) {
    && o.observationId == id && o.provenance.source == source.identity && o.provenance.observedAt == at
    && o.provenance.providerId == "firecrawl" && o.provenance.policyVersionId == source.policy.policyVersionId
    && o.payloadRef == None && o.supersedes == None
  }

  lemma StampClaims(source: Source, o: SourceObservation, stamp: Option<P.PageTime>, zones: map<Uuid, string>,
                    outside: Outside)
    requires o.extraction.ExtractionNotAttempted? && o.provenance.sourceTime.None?
    ensures var after, known := WithStamp(source, o, stamp, zones, outside), TimeKnown(source, stamp, zones, outside);
            && after.state == o.state && after.retrieval == o.retrieval && after.contentHash == o.contentHash
            && after.provenance.sourceTime
               == (if known then Some(outside.instant(zones[source.terminalId.value], stamp.value)) else None)
            && after.extraction == (if known then Exact else ExtractionFailed)
            && after.parserVersion == Some("amc-page-time-v1")
    ensures var after := WithStamp(source, o, stamp, zones, outside);
            forall at, id :: Dated(source, o, at, id) ==> Dated(source, after, at, id)
  {
  }

  lemma StampKeepsReasons(source: Source, o: SourceObservation, stamp: Option<P.PageTime>, zones: map<Uuid, string>,
                          outside: Outside)
    requires o.confidenceReasons != [] && o.confidenceReasons[0] == "metadata_only"
    requires "metadata_only" !in o.confidenceReasons[1..]
    ensures WithStamp(source, o, stamp, zones, outside).confidenceReasons
         == StampReasons(TimeKnown(source, stamp, zones, outside), stamp, ZoneKnown(source, zones, outside),
                         o.confidenceReasons)
  {
    NothingWithout(o.confidenceReasons[1..], "metadata_only");
    assert [] + WithoutReason(o.confidenceReasons[1..], "metadata_only") == o.confidenceReasons[1..];
  }

  lemma {:induction false} NothingWithout(reasons: seq<Identifier>, gone: Identifier)
    requires gone !in reasons
    ensures WithoutReason(reasons, gone) == reasons
  {
    if reasons != [] {
      NothingWithout(reasons[1..], gone);
    }
  }

  lemma BaseClaims(source: Source, at: Time, status: int, digest: Option<Identifier>, extra: Option<Identifier>,
                   id: Uuid)
    ensures var o := Observation(source, at, status, digest, extra, id);
            && (o.state.Fresh? <==> 200 <= status < 300) && (o.retrieval.Succeeded? <==> 200 <= status < 300)
            && (o.state.Missing? <==> status == 404 || status == 410)
            && (o.state.Unreachable? <==> !o.state.Fresh? && !o.state.Missing?)
            && (o.retrieval == Succeeded || o.retrieval == RetrievalFailed)
            && o.contentHash == (if 200 <= status < 300 then digest else None)
            && o.extraction.ExtractionNotAttempted? && o.provenance.sourceTime.None? && o.parserVersion == None
            && Dated(source, o, at, id)
  {
  }

  lemma BaseReasons(source: Source, at: Time, status: int, digest: Option<Identifier>, extra: Option<Identifier>,
                    id: Uuid)
    ensures Observation(source, at, status, digest, extra, id).confidenceReasons
         == StatusReasons(status) + if extra.Some? then [extra.value] else []
  {
    assert StatusReasons(status) + [] == StatusReasons(status);
  }

  // The page's stamp was looked for.
  ghost predicate StampSought(source: Source, page: Page, switches: seq<KillSwitch>) {
    200 <= page.status < 300 && page.document.Some? && source.kind == TerminalPage && Granted(source, Parse, switches)
  }

  // What the stamp does to the claims of a plain observation.
  lemma ClaimsWithStamp(source: Source, base: SourceObservation, o: SourceObservation, sought: bool,
                        stamp: Option<P.PageTime>, zones: map<Uuid, string>, outside: Outside, at: Time, id: Uuid)
    requires base.extraction == ExtractionNotAttempted && base.provenance.sourceTime == None
    requires base.parserVersion == None && Dated(source, base, at, id)
    requires o == if sought then WithStamp(source, base, stamp, zones, outside) else base
    ensures o.state == base.state && o.retrieval == base.retrieval && o.contentHash == base.contentHash
    ensures o.extraction == if !sought then ExtractionNotAttempted
                            else if TimeKnown(source, stamp, zones, outside) then Exact else ExtractionFailed
    ensures o.parserVersion == if sought then Some("amc-page-time-v1") else None
    ensures o.provenance.sourceTime
         == if sought && TimeKnown(source, stamp, zones, outside)
            then Some(outside.instant(zones[source.terminalId.value], stamp.value)) else None
    ensures Dated(source, o, at, id)
  {
    StampClaims(source, base, stamp, zones, outside);
  }

  // A page is fresh exactly when it was reached, hashed exactly when the register allows a hash of
  // what was reached, and carries a page time exactly when parsing was authorised and it shows one; it is
  // always dated when the call was made and named as the caller named it.
  lemma ReducedClaims(source: Source, page: Page, switches: seq<KillSwitch>, zones: map<Uuid, string>, at: Time,
                      id: Uuid, outside: Outside, stamp: Option<P.PageTime>)
    requires page.document.Some? ==> stamp == P.ParsePageTime(page.document.value, outside.unescape)
    requires page.document.None? ==> stamp.None?
    ensures var o, reached := Reduced(source, page, switches, zones, at, id, outside), 200 <= page.status < 300;
            && (o.state.Fresh? <==> reached) && (o.retrieval.Succeeded? <==> reached)
            && (o.retrieval.RetrievalFailed? <==> !reached)
            && (o.state.Missing? <==> page.status == 404 || page.status == 410)
            && (o.state.Unreachable? <==> !o.state.Fresh? && !o.state.Missing?)
            && o.contentHash == (if reached && page.document.Some? && !source.policy.rawPayload.Denied?
                                 then Some(outside.digest(page.document.value)) else None)
    ensures var o := Reduced(source, page, switches, zones, at, id, outside);
            var sought := StampSought(source, page, switches);
            && o.extraction == (if !sought then ExtractionNotAttempted
                                else if TimeKnown(source, stamp, zones, outside) then Exact else ExtractionFailed)
            && o.parserVersion == (if sought then Some("amc-page-time-v1") else None)
            && o.provenance.sourceTime
               == (if sought && TimeKnown(source, stamp, zones, outside)
                   then Some(outside.instant(zones[source.terminalId.value], stamp.value)) else None)
    ensures Dated(source, Reduced(source, page, switches, zones, at, id, outside), at, id)
  {
    var digest, extra := DigestOf(source, page, outside), MissingHash(source, page, outside);
    var base := Observation(source, at, page.status, digest, extra, id);
    BaseClaims(source, at, page.status, digest, extra, id);
    ReducedForm(source, page, switches, zones, at, id, outside, stamp);
    ClaimsWithStamp(source, base, Reduced(source, page, switches, zones, at, id, outside),
                    StampSought(source, page, switches), stamp, zones, outside, at, id);
  }

  // The reasons it gives: the page's status, a hash that is wanted and missing, and what became of the stamp.
  lemma ReducedReasons(source: Source, page: Page, switches: seq<KillSwitch>, zones: map<Uuid, string>, at: Time,
                       id: Uuid, outside: Outside, stamp: Option<P.PageTime>)
    requires page.document.Some? ==> stamp == P.ParsePageTime(page.document.value, outside.unescape)
    requires page.document.None? ==> stamp.None?
    ensures var hashMissing := page.document.None? && source.policy.rawPayload != Denied;
            var reasons := StatusReasons(page.status) + if hashMissing then ["content_hash_unavailable"] else [];
            Reduced(source, page, switches, zones, at, id, outside).confidenceReasons
            == if StampSought(source, page, switches)
               then StampReasons(TimeKnown(source, stamp, zones, outside), stamp, ZoneKnown(source, zones, outside),
                                 reasons)
               else reasons
  {
    var digest, extra := DigestOf(source, page, outside), MissingHash(source, page, outside);
    var base := Observation(source, at, page.status, digest, extra, id);
    BaseReasons(source, at, page.status, digest, extra, id);
    ReducedForm(source, page, switches, zones, at, id, outside, stamp);
    if StampSought(source, page, switches) {
      MetadataComesFirst(page.status);
      assert StatusReasons(page.status) + [] == StatusReasons(page.status);
      StampKeepsReasons(source, base, stamp, zones, outside);
    }
  }

  lemma MetadataComesFirst(status: int)
    requires 200 <= status < 300
    ensures StatusReasons(status)[0] == "metadata_only" && "metadata_only" !in StatusReasons(status)[1..]
  {
    var http := "http_" + IntText(status);
    assert http[0] == 'h' && "metadata_only"[0] == 'm';
    assert StatusReasons(status)[1..] == [http];
  }

  // The number in a reason is the status, in decimal digits after its sign.
  lemma StatusIsSpelled(status: int)
    ensures status >= 0 ==> D.AllDigits(IntText(status)) && D.Value(IntText(status)) == status
    ensures status < 0 ==> IntText(status)[..1] == "-" && D.AllDigits(IntText(status)[1..])
                           && D.Value(IntText(status)[1..]) == -status
  {
    D.DecimalReads(if status >= 0 then status else -status);
  }

  function DigestOf(source: Source, page: Page, outside: Outside): Option<Identifier> {
    if !source.policy.rawPayload.Denied? && page.document.Some? then Some(outside.digest(page.document.value)) else None
  }

  function MissingHash(source: Source, page: Page, outside: Outside): Option<Identifier> {
    if !source.policy.rawPayload.Denied? && DigestOf(source, page, outside).None? then Some("content_hash_unavailable")
    else None
  }

  lemma ReducedForm(source: Source, page: Page, switches: seq<KillSwitch>, zones: map<Uuid, string>, at: Time, id: Uuid,
                    outside: Outside, stamp: Option<P.PageTime>)
    requires page.document.Some? ==> stamp == P.ParsePageTime(page.document.value, outside.unescape)
    requires page.document.None? ==> stamp.None?
    ensures var base := Observation(source, at, page.status, DigestOf(source, page, outside),
                                    MissingHash(source, page, outside), id);
            Reduced(source, page, switches, zones, at, id, outside)
            == if StampSought(source, page, switches) then WithStamp(source, base, stamp, zones, outside) else base
  {
    AuthorizedExactly(source, Parse, switches);
    BaseClaims(source, at, page.status, DigestOf(source, page, outside), MissingHash(source, page, outside), id);
  }

  // The registry the run reads is the registry the provider was built on, with distinct identifiers.
  ghost predicate DistinctSources(sources: seq<Source>) {
    forall i, j :: 0 <= i < j < |sources| ==> sources[i].Id() != sources[j].Id()
  }

  lemma {:induction false} RegisteredIsItself(sources: seq<Source>, source: Source)
    requires DistinctSources(sources) && source in sources
    ensures FindSource(sources, source.Id()) == Some(source)
  {
    if sources[0].Id() == source.Id() {
      var k :| 0 <= k < |sources| && sources[k] == source;
      assert k == 0 || sources[0].Id() != sources[k].Id();
    } else {
      assert source in sources[1..];
      assert DistinctSources(sources[1..]);
      RegisteredIsItself(sources[1..], source);
    }
  }

  function AnswersOf(sources: seq<Source>, switches: seq<KillSwitch>, zones: map<Uuid, string>, outside: Outside,
                     at: SourceIdentity -> Time, id: SourceIdentity -> Uuid)
    : SourceIdentity -> Result<SourceObservation>
  {
    (who: SourceIdentity) => ObserveUncached(sources, switches, zones, who, at(who), id(who), outside)
  }

  // A run of this provider over the registry and switches it was built on.
  function FirecrawlRun(sources: seq<Source>, switches: seq<KillSwitch>, zones: map<Uuid, string>, outside: Outside,
                        at: SourceIdentity -> Time, id: SourceIdentity -> Uuid): Run
  {
    Run(PROVIDER_ID, AnswersOf(sources, switches, zones, outside, at, id), switches)
  }

  lemma AnswerToARegisteredSource(sources: seq<Source>, switches: seq<KillSwitch>, zones: map<Uuid, string>,
                                  outside: Outside, at: SourceIdentity -> Time, id: SourceIdentity -> Uuid,
                                  source: Source)
    requires DistinctSources(sources) && source in sources && !CarriesCredentials(source.identity.url)
    ensures var answer := AnswersOf(sources, switches, zones, outside, at, id)(source.identity);
            var fetched := FetchUncached(sources, switches, source, outside);
            && (answer.Success? <==> fetched.Success?)
            && (answer.Failure? ==> answer.error == fetched.error)
            && (answer.Success? ==> Acceptable(source, answer.value, switches, id(source.identity)))
  {
    RegisteredIsItself(sources, source);
    var fetched := FetchUncached(sources, switches, source, outside);
    if fetched.Success? {
      ReducedIsPermitted(source, fetched.value, switches, zones, at(source.identity), id(source.identity), outside);
    }
  }

  // An artifact with no terminal page that may be read in its place.
  ghost predicate OrphanArtifact(sources: seq<Source>, switches: seq<KillSwitch>, source: Source) {
    source.kind.ScheduleArtifact? && forall s :: s in sources ==> !IsParentOf(s, source, switches)
  }

  // Firecrawl's own trouble never carries a refusal's code.
  lemma FetchedIsNotRefusal(wire: Wire)
    ensures Fetched(wire).Failure? ==> !RefusalCode(Fetched(wire).error)
  {
  }

  lemma TroubleIsNotRefusal(page: Result<Page>, pageUrl: Url, artifact: Source, outside: Outside)
    requires page.Failure? ==> !RefusalCode(page.error)
    ensures ArtifactBehind(page, pageUrl, artifact, outside).Failure? ==>
              !RefusalCode(ArtifactBehind(page, pageUrl, artifact, outside).error)
  {
    if page.Success? && 200 <= page.value.status < 300 && page.value.document.Some? {
      var links := outside.links(page.value.document.value, pageUrl);
      var href := FirstArtifact(links, artifact.identity.url, outside.unquote);
      if href.Some? {
        FetchedIsNotRefusal(outside.web(href.value, Markdown));
      }
    }
  }

  lemma FetchRefusesOnlyOrphans(sources: seq<Source>, switches: seq<KillSwitch>, source: Source, outside: Outside)
    requires Authorized(source, Retrieve, switches)
    ensures var r := FetchUncached(sources, switches, source, outside);
            && (r.Failure? && RefusalCode(r.error) <==> OrphanArtifact(sources, switches, source))
            && (r.Failure? && RefusalCode(r.error) ==> r.error.messageKey == "source_provider.artifact_parent_missing")
  {
    FetchedIsNotRefusal(outside.web(source.identity.url, RawHtml));
    var parent := ParentPage(sources, source, switches);
    if source.kind.ScheduleArtifact? && parent.Some? {
      var url := parent.value.identity.url;
      FetchedIsNotRefusal(outside.web(url, RawHtml));
      TroubleIsNotRefusal(Fetched(outside.web(url, RawHtml)), url, source, outside);
    }
  }

  // A Firecrawl run reports a source as rejected exactly when it is an artifact whose terminal page
  // is missing or may not be read, and says so; nothing it fetched is ever refused.
  lemma RejectedOnlyForAMissingParent(sources: seq<Source>, switches: seq<KillSwitch>, zones: map<Uuid, string>,
                                      outside: Outside, at: SourceIdentity -> Time, id: SourceIdentity -> Uuid,
                                      source: Source)
    requires DistinctSources(sources) && source in sources && !CarriesCredentials(source.identity.url)
    ensures var run := FirecrawlRun(sources, switches, zones, outside, at, id);
            var out := CheckOutcome(source, run);
            && (out.kind.Rejected? <==> AskedAbout(source, run) && OrphanArtifact(sources, switches, source))
            && (out.kind.Rejected? ==> out.messageKey == Some("source_provider.artifact_parent_missing"))
            && (out.kind.Recorded? <==>
                AskedAbout(source, run) && FetchUncached(sources, switches, source, outside).Success?)
  {
    var run := FirecrawlRun(sources, switches, zones, outside, at, id);
    OutcomeKinds(source, run);
    AnswerToARegisteredSource(sources, switches, zones, outside, at, id, source);
    if Authorized(source, Retrieve, switches) {
      FetchRefusesOnlyOrphans(sources, switches, source, outside);
    }
  }

  // ---- a Firecrawl run always commits ----

  ghost predicate DecisionIdsDiffer(a: Source, b: Source, run: Run) {
    RecordDecision(a, run).Success? && RecordDecision(b, run).Success? ==>
      RecordDecision(a, run).value.observationId != RecordDecision(b, run).value.observationId
  }

  lemma {:induction false} AcceptedIdsDiffer(sources: seq<Source>, run: Run)
    requires DistinctSources(sources)
    requires forall a, b :: 0 <= a < b < |sources| ==> DecisionIdsDiffer(sources[a], sources[b], run)
    ensures forall j, k :: 0 <= j < k < |Accepted(sources, run)| ==>
              Accepted(sources, run)[j].observationId != Accepted(sources, run)[k].observationId
  {
    if sources != [] {
      var rest, out := sources[1..], Accepted(sources, run);
      assert Map(sources, DecisionIn(run))[1..] == Map(rest, DecisionIn(run));
      AcceptedIdsDiffer(rest, run);
      if RecordDecision(sources[0], run).Success? {
        assert out == [RecordDecision(sources[0], run).value] + Accepted(rest, run);
        forall j, k | 0 <= j < k < |out| ensures out[j].observationId != out[k].observationId {
          if j == 0 {
            var i := AcceptedAreAnswers(rest, run, k - 1);
            assert DecisionIdsDiffer(sources[0], sources[i + 1], run);
          } else {
            assert out[j] == Accepted(rest, run)[j - 1] && out[k] == Accepted(rest, run)[k - 1];
          }
        }
      } else {
        assert out == Accepted(rest, run);
      }
    }
  }

  // Over a registry that meets its own CHECK, with fresh identifiers, no row of a Firecrawl run is
  // ever refused by the table, so the run is never rolled back and records every page it reached.
  lemma FirecrawlRunCommits(log: seq<Row>, sources: seq<Source>, switches: seq<KillSwitch>, zones: map<Uuid, string>,
                            outside: Outside, at: SourceIdentity -> Time, id: SourceIdentity -> Uuid, recordedAt: Time)
    requires DistinctSources(sources)
    requires forall s :: s in sources ==> NoCredentialMarks(s.identity.url)
    requires forall i, j :: 0 <= i < j < |sources| ==> id(sources[i].identity) != id(sources[j].identity)
    requires forall i, s :: 0 <= i < |log| && s in sources ==> log[i].Id() != id(s.identity)
    ensures RunTable(log, sources, FirecrawlRun(sources, switches, zones, outside, at, id),
                     set s | s in sources :: s.Id(), recordedAt).Some?
  {
    var run := FirecrawlRun(sources, switches, zones, outside, at, id);
    var registered := set s | s in sources :: s.Id();
    var stored := Accepted(sources, run);
    forall i | 0 <= i < |sources| && RecordDecision(sources[i], run).Success?
      ensures var o := RecordDecision(sources[i], run).value;
              Plain(o, registered) && o.observationId == id(sources[i].identity)
    {
      RecordedIsPlain(sources, switches, zones, outside, at, id, sources[i]);
    }
    forall a, b | 0 <= a < b < |sources| ensures DecisionIdsDiffer(sources[a], sources[b], run) {
    }
    AcceptedIdsDiffer(sources, run);
    forall k | 0 <= k < |stored|
      ensures Plain(stored[k], registered) && forall i :: 0 <= i < |log| ==> log[i].Id() != stored[k].observationId
    {
      var j := AcceptedAreAnswers(sources, run, k);
      assert sources[j] in sources;
    }
    PlainRowsAllAppend(log, stored, registered, recordedAt);
  }

  // Every row such a run adds is about one of its sources, observed when that source was asked about,
  // named as the run named it, and made by this provider under the source's policy version.
  lemma FirecrawlRowsAreDated(log: seq<Row>, sources: seq<Source>, switches: seq<KillSwitch>, zones: map<Uuid, string>,
                              outside: Outside, at: SourceIdentity -> Time, id: SourceIdentity -> Uuid,
                              registered: set<Uuid>, recordedAt: Time, k: nat)
    requires DistinctSources(sources)
    requires var run := FirecrawlRun(sources, switches, zones, outside, at, id);
             |log| <= k < |TableAfterRun(log, sources, run, registered, recordedAt)|
    ensures var row := TableAfterRun(log, sources, FirecrawlRun(sources, switches, zones, outside, at, id), registered,
                                     recordedAt)[k];
            && row.recordedAt == recordedAt
            && exists source :: source in sources && FetchUncached(sources, switches, source, outside).Success?
                                && Dated(source, row.obs, at(source.identity), id(source.identity))
  {
    var run := FirecrawlRun(sources, switches, zones, outside, at, id);
    var stored := Accepted(sources, run);
    AppendedRows(log, stored, registered, recordedAt);
    var row := TableAfterRun(log, sources, run, registered, recordedAt)[k];
    assert row == Row(stored[k - |log|], recordedAt) by {
      assert TableAfterRun(log, sources, run, registered, recordedAt)[|log| + (k - |log|)]
          == Row(stored[k - |log|], recordedAt);
    }
    var i := AcceptedAreAnswers(sources, run, k - |log|);
    RecordedExactlyWhen(sources[i], run);
    AnswerIsDated(sources, switches, zones, outside, at, id, sources[i]);
  }

  lemma AnswerIsDated(sources: seq<Source>, switches: seq<KillSwitch>, zones: map<Uuid, string>, outside: Outside,
                      at: SourceIdentity -> Time, id: SourceIdentity -> Uuid, source: Source)
    requires DistinctSources(sources) && source in sources
    requires AnswersOf(sources, switches, zones, outside, at, id)(source.identity).Success?
    ensures FetchUncached(sources, switches, source, outside).Success?
    ensures Dated(source, AnswersOf(sources, switches, zones, outside, at, id)(source.identity).value,
                  at(source.identity), id(source.identity))
  {
    RegisteredIsItself(sources, source);
    assert FindSource(sources, source.identity.sourceId) == Some(source);
    var who := source.identity;
    assert AnswersOf(sources, switches, zones, outside, at, id)(who)
        == ObserveUncached(sources, switches, zones, who, at(who), id(who), outside);
    var page := FetchUncached(sources, switches, source, outside).value;
    var stamp := if page.document.Some? then P.ParsePageTime(page.document.value, outside.unescape) else None;
    ReducedClaims(source, page, switches, zones, at(source.identity), id(source.identity), outside, stamp);
  }

  lemma RecordedIsPlain(sources: seq<Source>, switches: seq<KillSwitch>, zones: map<Uuid, string>, outside: Outside,
                        at: SourceIdentity -> Time, id: SourceIdentity -> Uuid, source: Source)
    requires DistinctSources(sources) && source in sources && NoCredentialMarks(source.identity.url)
    requires RecordDecision(source, FirecrawlRun(sources, switches, zones, outside, at, id)).Success?
    ensures var o := RecordDecision(source, FirecrawlRun(sources, switches, zones, outside, at, id)).value;
            Plain(o, set s | s in sources :: s.Id()) && o.observationId == id(source.identity)
  {
    CredentialChecksDisagreeExactly(source.identity.url);
    AnswerToARegisteredSource(sources, switches, zones, outside, at, id, source);
  }
}
