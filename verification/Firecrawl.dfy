// The Firecrawl provider: what it fetches, and the observation it reduces a page to
// (apps/api/paxpivot/infrastructure/providers/firecrawl.py).
module Firecrawl {
  import opened Wrappers
  import opened Sequences
  import opened Domain
  import opened Gate
  import D = Digits
  import R = Regex
  import P = PageTime

  const PROVIDER_ID: Identifier := "firecrawl"
  const PARSER_VERSION: Identifier := "amc-page-time-v1"

  // ---- the outside world, as functions that do not change during a run ----

  datatype Format = RawHtml | Markdown

  // Firecrawl's own answer: no connection, a refusal, or a page's status with what it returned for
  // the format (None when that is not text); None as a payload is a malformed body.
  datatype Page = Page(status: int, document: Option<string>)
  datatype Wire = NoConnection | Answer(code: int, payload: Option<Page>)

  datatype Outside = Outside(
    web: (Url, Format) -> Wire,
    links: (string, Url) -> seq<Url>,          // hrefs of a page, unescaped and resolved against it
    unquote: string -> string,
    unescape: string -> string,
    digest: string -> Identifier,
    knownZone: string -> bool,
    instant: (string, P.PageTime) -> Time)     // a local clock reading in a zone

  function Fail(code: ErrorCode, messageKey: Identifier, retryable: bool): ApplicationError {
    ApplicationError(code, messageKey, retryable)
  }

  // `_fetch`
  function Fetched(wire: Wire): Result<Page> {
    match wire
    case NoConnection => Failure(Fail(Unavailable, "source_provider.firecrawl_unreachable", true))
    case Answer(code, payload) =>
      if code == 401 then Failure(Fail(Unauthorized, "source_provider.firecrawl_unauthorized", false))
      else if code == 402 || code == 429 then Failure(Fail(Unavailable, "source_provider.firecrawl_budget", true))
      else if code >= 500 then Failure(Fail(Unavailable, "source_provider.firecrawl_unavailable", true))
      else if code != 200 then Failure(Fail(Unavailable, "source_provider.firecrawl_rejected", false))
      else if payload.None? then Failure(Fail(Unavailable, "source_provider.firecrawl_malformed", true))
      else
        var page := payload.value;
        Success(if page.document.Some? && P.Strip(page.document.value) == "" then page.(document := None) else page)
  }

  // ---- finding the schedule artifact on its page ----

  // `72\s*-?\s*(hr|hour)`
  function ArtifactName(): R.Re {
    R.Cat(R.Word("72"), R.Cat(R.Star(R.SpaceKind), R.Cat(R.Opt(R.Lit('-')), R.Cat(R.Star(R.SpaceKind),
      R.Group(1, R.Alt(R.Word("hr"), R.Word("hour")))))))
  }

  predicate UnderFolder(href: Url, folder: Url) {
    |folder| <= |href| && P.LowerText(href)[..|folder|] == P.LowerText(folder)
  }

  function FileName(href: Url, folder: Url, unquote: string -> string): string
    requires UnderFolder(href, folder)
  {
    unquote(Before(href[|folder|..], '?'))
  }

  predicate LeavesFolder(name: string) {
    '/' in name || '\\' in name || exists i :: 0 <= i < |name| - 1 && name[i] == '.' && name[i + 1] == '.'
  }

  predicate IsArtifact(href: Url, folder: Url, unquote: string -> string) {
    && UnderFolder(href, folder)
    && !LeavesFolder(FileName(href, folder, unquote))
    && R.Search(ArtifactName(), FileName(href, folder, unquote)).Some?
  }

  function FirstArtifact(hrefs: seq<Url>, folder: Url, unquote: string -> string): Option<Url> {
    if hrefs == [] then None
    else if IsArtifact(hrefs[0], folder, unquote) then Some(hrefs[0])
    else FirstArtifact(hrefs[1..], folder, unquote)
  }

  // `discover_artifact`: the first link under the folder whose file name names the schedule.
  method DiscoverArtifact(hrefs: seq<Url>, folder: Url, unquote: string -> string) returns (found: Option<Url>)
    ensures found == FirstArtifact(hrefs, folder, unquote)
    ensures found.Some? ==>
              exists i :: 0 <= i < |hrefs| && hrefs[i] == found.value && IsArtifact(hrefs[i], folder, unquote)
                          && forall j :: 0 <= j < i ==> !IsArtifact(hrefs[j], folder, unquote)
    ensures found.None? ==> forall i :: 0 <= i < |hrefs| ==> !IsArtifact(hrefs[i], folder, unquote)
  {
    for i := 0 to |hrefs|
      invariant forall j :: 0 <= j < i ==> !IsArtifact(hrefs[j], folder, unquote)
      invariant FirstArtifact(hrefs, folder, unquote) == FirstArtifact(hrefs[i..], folder, unquote)
    {
      var href := hrefs[i];
      if !UnderFolder(href, folder) {
        continue;
      }
      var name := FileName(href, folder, unquote);
      if LeavesFolder(name) {
        continue;
      }
      if R.Search(ArtifactName(), name).Some? {
        return Some(href);
      }
    }
    return None;
  }

  // ---- fetching, without a cache ----

  predicate IsParentOf(s: Source, artifact: Source, switches: seq<KillSwitch>) {
    s.kind.TerminalPage? && s.terminalId == artifact.terminalId && Authorized(s, Retrieve, switches)
  }

  function ParentPage(sources: seq<Source>, artifact: Source, switches: seq<KillSwitch>): (r: Option<Source>)
    ensures r.Some? ==> r.value in sources && IsParentOf(r.value, artifact, switches)
    ensures r.None? ==> forall s :: s in sources ==> !IsParentOf(s, artifact, switches)
  {
    if sources == [] then None
    else if IsParentOf(sources[0], artifact, switches) then Some(sources[0])
    else ParentPage(sources[1..], artifact, switches)
  }

  // What the artifact behind a fetched parent page answers.
  function ArtifactBehind(page: Result<Page>, pageUrl: Url, artifact: Source, outside: Outside): Result<Page> {
    match page
    case Failure(e) => Failure(e)
    case Success(p) =>
      if !(200 <= p.status < 300 && p.document.Some?) then
        Failure(Fail(Unavailable, "source_provider.artifact_parent_unreachable", true))
      else
        var href := FirstArtifact(outside.links(p.document.value, pageUrl), artifact.identity.url, outside.unquote);
        if href.None? then Failure(Fail(Unavailable, "source_provider.artifact_not_linked", true))
        else Fetched(outside.web(href.value, Markdown))
  }

  function FetchUncached(sources: seq<Source>, switches: seq<KillSwitch>, source: Source, outside: Outside)
    : Result<Page>
  {
    if !Authorized(source, Retrieve, switches) then
      Failure(Fail(InvalidInput, "source_provider.not_authorized", false))
    else if !source.kind.ScheduleArtifact? then Fetched(outside.web(source.identity.url, RawHtml))
    else
      match ParentPage(sources, source, switches)
      case None => Failure(Fail(InvalidInput, "source_provider.artifact_parent_missing", false))
      case Some(parent) =>
        ArtifactBehind(Fetched(outside.web(parent.identity.url, RawHtml)), parent.identity.url, source, outside)
  }

  // ---- the observation ----

  function IntText(n: int): string { if n >= 0 then D.Decimal(n) else "-" + D.Decimal(-n) }

  function Observation(source: Source, at: Time, status: int, digest: Option<Identifier>, extra: Option<Identifier>,
                       id: Uuid): (o: SourceObservation)
    ensures o.observationId == id && o.provenance.source == source.identity && o.provenance.observedAt == at
  {
    var http := "http_" + IntText(status);
    var (state, retrieval, reasons) :=
      if 200 <= status < 300 then (Fresh, Succeeded, ["metadata_only", http])
      else if status == 404 || status == 410 then (Missing, RetrievalFailed, [http])
      else if status == 401 || status == 403 then (Unreachable, RetrievalFailed, ["http_forbidden", http])
      else (Unreachable, RetrievalFailed, [http]);
    SourceObservation(
      id, Provenance(source.identity, at, None, PROVIDER_ID, source.policy.policyVersionId),
      state, retrieval, ExtractionNotAttempted, None, if retrieval.Succeeded? then digest else None,
      if extra.Some? then reasons + [extra.value] else reasons, None, None)
  }

  function WithoutReason(reasons: seq<Identifier>, gone: Identifier): seq<Identifier> {
    if reasons == [] then []
    else (if reasons[0] == gone then [] else [reasons[0]]) + WithoutReason(reasons[1..], gone)
  }

  function FailedExtraction(o: SourceObservation, reason: Identifier): SourceObservation {
    o.(extraction := ExtractionFailed, parserVersion := Some(PARSER_VERSION),
       confidenceReasons := o.confidenceReasons + [reason])
  }

  function StampedCopy(o: SourceObservation, sourceTime: Time): SourceObservation {
    o.(provenance := o.provenance.(sourceTime := Some(sourceTime)),
       extraction := Exact, parserVersion := Some(PARSER_VERSION),
       confidenceReasons := WithoutReason(o.confidenceReasons, "metadata_only")
                            + ["page_time_parsed", "page_time_local_clock"])
  }

  // `_with_page_time` on what the parser made of the page: a copy of the observation, made without
  // its validator.
  function WithStamp(source: Source, o: SourceObservation, stamp: Option<P.PageTime>, zones: map<Uuid, string>,
                     outside: Outside): (r: SourceObservation)
    ensures r.observationId == o.observationId && r.provenance.source == o.provenance.source
    ensures r.provenance.observedAt == o.provenance.observedAt
  {
    var zone :=
      if source.terminalId.Some? && source.terminalId.value in zones then zones[source.terminalId.value] else "";
    if stamp.None? then FailedExtraction(o, "page_time_not_found")
    else if zone == "" || !outside.knownZone(zone) then FailedExtraction(o, "page_time_zone_unknown")
    else if !stamp.value.hasTime then FailedExtraction(o, "page_time_date_only")
    else StampedCopy(o, outside.instant(zone, stamp.value))
  }

  // The observation a fetched page reduces to.
  function Reduced(source: Source, page: Page, switches: seq<KillSwitch>, zones: map<Uuid, string>, at: Time, id: Uuid,
                   outside: Outside): (o: SourceObservation)
    ensures o.observationId == id && o.provenance.source == source.identity && o.provenance.observedAt == at
  {
    var hashWanted := !source.policy.rawPayload.Denied?;
    var digest := if hashWanted && page.document.Some? then Some(outside.digest(page.document.value)) else None;
    var extra := if hashWanted && digest.None? then Some("content_hash_unavailable") else None;
    var o := Observation(source, at, page.status, digest, extra, id);
    if source.kind.TerminalPage? && Authorized(source, Parse, switches) && o.retrieval.Succeeded? && page.document.Some?
    then WithStamp(source, o, P.ParsePageTime(page.document.value, outside.unescape), zones, outside)
    else o
  }

  // `observe`, without a cache.
  function ObserveUncached(sources: seq<Source>, switches: seq<KillSwitch>, zones: map<Uuid, string>,
                           identity: SourceIdentity, at: Time, id: Uuid, outside: Outside): Result<SourceObservation>
  {
    var registered := FindSource(sources, identity.sourceId);
    if registered.None? || registered.value.identity != identity then
      Failure(Fail(InvalidInput, "source_provider.unknown_source", false))
    else
      match FetchUncached(sources, switches, registered.value, outside)
      case Failure(e) => Failure(e)
      case Success(page) => Success(Reduced(registered.value, page, switches, zones, at, id, outside))
  }

  // `fetch_document`, without a cache.
  function DocumentUncached(sources: seq<Source>, switches: seq<KillSwitch>, identity: SourceIdentity, outside: Outside)
    : Result<Page>
  {
    var registered := FindSource(sources, identity.sourceId);
    if registered.None? || registered.value.identity != identity then
      Failure(Fail(InvalidInput, "source_provider.unknown_source", false))
    else FetchUncached(sources, switches, registered.value, outside)
  }

  // ---- what is asked of the web ----

  datatype Ask = Ask(url: Url, format: Format)

  function IsRaw(u: Url): Ask -> bool { (a: Ask) => a == Ask(u, RawHtml) }

  predicate ReadsDirectly(source: Source, switches: seq<KillSwitch>) {
    Authorized(source, Retrieve, switches) && !source.kind.ScheduleArtifact?
  }

  // The page a fetch of this source discovers an artifact through.
  function DiscoveredThrough(sources: seq<Source>, switches: seq<KillSwitch>, source: Source): set<Url> {
    if Authorized(source, Retrieve, switches) && source.kind.ScheduleArtifact?
       && ParentPage(sources, source, switches).Some?
    then {ParentPage(sources, source, switches).value.identity.url} else {}
  }

  function ArtifactAsks(page: Result<Page>, pageUrl: Url, artifact: Source, outside: Outside): seq<Ask> {
    if page.Success? && 200 <= page.value.status < 300 && page.value.document.Some? then
      var hrefs := outside.links(page.value.document.value, pageUrl);
      var href := FirstArtifact(hrefs, artifact.identity.url, outside.unquote);
      if href.Some? then [Ask(href.value, Markdown)] else []
    else []
  }

  // The requests of one fetch when these pages are cached.
  function AsksOf(sources: seq<Source>, switches: seq<KillSwitch>, source: Source, outside: Outside, cached: set<Url>)
    : seq<Ask>
  {
    if !Authorized(source, Retrieve, switches) then []
    else if !source.kind.ScheduleArtifact? then [Ask(source.identity.url, RawHtml)]
    else
      match ParentPage(sources, source, switches)
      case None => []
      case Some(parent) =>
        var u := parent.identity.url;
        (if u in cached then [] else [Ask(u, RawHtml)])
        + ArtifactAsks(Fetched(outside.web(u, RawHtml)), u, source, outside)
  }

  // One call on the provider.
  datatype Call =
    | ObserveCall(identity: SourceIdentity, at: Time, id: Uuid)
    | DocumentCall(identity: SourceIdentity)

  datatype CallAnswer = Observed(observation: Result<SourceObservation>) | Document(document: Result<Page>)

  function AnswerUncached(sources: seq<Source>, switches: seq<KillSwitch>, zones: map<Uuid, string>, call: Call,
                          outside: Outside): CallAnswer
  {
    match call
    case ObserveCall(identity, at, id) =>
      Observed(ObserveUncached(sources, switches, zones, identity, at, id, outside))
    case DocumentCall(identity) => Document(DocumentUncached(sources, switches, identity, outside))
  }

  function AnswerTo(sources: seq<Source>, switches: seq<KillSwitch>, zones: map<Uuid, string>, outside: Outside)
    : Call -> CallAnswer
  {
    (call: Call) => AnswerUncached(sources, switches, zones, call, outside)
  }

  function AllUncached(sources: seq<Source>, switches: seq<KillSwitch>, zones: map<Uuid, string>, calls: seq<Call>,
                       outside: Outside): seq<CallAnswer>
  {
    Map(calls, AnswerTo(sources, switches, zones, outside))
  }

  lemma AllUncachedStep(sources: seq<Source>, switches: seq<KillSwitch>, zones: map<Uuid, string>, calls: seq<Call>,
                        k: nat, outside: Outside)
    requires k < |calls|
    ensures AllUncached(sources, switches, zones, calls[..k + 1], outside)
         == AllUncached(sources, switches, zones, calls[..k], outside)
            + [AnswerUncached(sources, switches, zones, calls[k], outside)]
  {
    var f := AnswerTo(sources, switches, zones, outside);
    MapStep(calls, k, f);
    assert f(calls[k]) == AnswerUncached(sources, switches, zones, calls[k], outside);
  }

  // The registered source a call is about, if its identity is the registered one.
  function CalledSource(sources: seq<Source>, identity: SourceIdentity): Option<Source> {
    var registered := FindSource(sources, identity.sourceId);
    if registered.Some? && registered.value.identity == identity then registered else None
  }

  function CallAsks(sources: seq<Source>, switches: seq<KillSwitch>, identity: SourceIdentity, outside: Outside,
                    cached: set<Url>): seq<Ask>
  {
    match CalledSource(sources, identity)
    case None => []
    case Some(source) => AsksOf(sources, switches, source, outside, cached)
  }

  function CallDiscovers(sources: seq<Source>, switches: seq<KillSwitch>, identity: SourceIdentity): set<Url> {
    match CalledSource(sources, identity)
    case None => {}
    case Some(source) => DiscoveredThrough(sources, switches, source)
  }

  // The pages cached and the requests made after some calls.
  function CachedAfter(sources: seq<Source>, switches: seq<KillSwitch>, calls: seq<Call>, cached: set<Url>): set<Url> {
    if calls == [] then cached
    else
      CachedAfter(sources, switches, calls[..|calls| - 1], cached)
      + CallDiscovers(sources, switches, calls[|calls| - 1].identity)
  }

  function Trace(sources: seq<Source>, switches: seq<KillSwitch>, calls: seq<Call>, outside: Outside, cached: set<Url>)
    : seq<Ask>
  {
    if calls == [] then []
    else
      var front := calls[..|calls| - 1];
      Trace(sources, switches, front, outside, cached)
      + CallAsks(sources, switches, calls[|calls| - 1].identity, outside, CachedAfter(sources, switches, front, cached))
  }

  lemma TraceStep(sources: seq<Source>, switches: seq<KillSwitch>, calls: seq<Call>, k: nat, outside: Outside,
                  cached: set<Url>, before: seq<Ask>)
    requires k < |calls|
    ensures var now := CachedAfter(sources, switches, calls[..k], cached);
            && CachedAfter(sources, switches, calls[..k + 1], cached)
               == now + CallDiscovers(sources, switches, calls[k].identity)
            && (before + Trace(sources, switches, calls[..k], outside, cached))
               + CallAsks(sources, switches, calls[k].identity, outside, now)
               == before + Trace(sources, switches, calls[..k + 1], outside, cached)
  {
    assert calls[..k + 1][..k] == calls[..k];
  }

  // ---- the provider, with its page cache ----

  class Provider {
    const sources: seq<Source>
    const switches: seq<KillSwitch>
    const zones: map<Uuid, string>
    const outside: Outside
    var pageCache: map<Url, Result<Page>>
    // Every request made, in order.
    ghost var asked: seq<Ask>

    // Every cached page is what the web answers.
    ghost predicate Valid()
      reads this
    {
      forall u :: u in pageCache ==> pageCache[u] == Fetched(outside.web(u, RawHtml))
    }

    constructor (sources: seq<Source>, switches: seq<KillSwitch>, zones: map<Uuid, string>, outside: Outside)
      ensures Valid() && asked == [] && pageCache == map[]
      ensures this.sources == sources && this.switches == switches && this.zones == zones && this.outside == outside
    {
      this.sources, this.switches, this.zones, this.outside := sources, switches, zones, outside;
      pageCache, asked := map[], [];
    }

    // `_fetch`: one request.
    method Fetch(url: Url, format: Format) returns (r: Result<Page>)
      modifies this`asked
      ensures r == Fetched(outside.web(url, format))
      ensures asked == old(asked) + [Ask(url, format)]
    {
      asked := asked + [Ask(url, format)];
      r := Fetched(outside.web(url, format));
    }

    // `_fetch_registered`
    method FetchRegistered(source: Source) returns (r: Result<Page>)
      requires Valid()
      modifies this`pageCache, this`asked
      ensures Valid()
      ensures r == FetchUncached(sources, switches, source, outside)
      ensures pageCache.Keys == old(pageCache.Keys) + DiscoveredThrough(sources, switches, source)
      ensures asked == old(asked) + AsksOf(sources, switches, source, outside, old(pageCache.Keys))
    {
      if !Authorized(source, Retrieve, switches) {
        return Failure(Fail(InvalidInput, "source_provider.not_authorized", false));
      }
      if !source.kind.ScheduleArtifact? {
        r := Fetch(source.identity.url, RawHtml);
        return;
      }
      var parent := ParentPage(sources, source, switches);
      if parent.None? {
        return Failure(Fail(InvalidInput, "source_provider.artifact_parent_missing", false));
      }
      var pageUrl := parent.value.identity.url;
      CachePage(pageUrl);
      r := FetchArtifact(source, pageUrl);
    }

    // The parent page is requested unless it is cached already.
    method CachePage(pageUrl: Url)
      requires Valid()
      modifies this`pageCache, this`asked
      ensures Valid() && pageCache.Keys == old(pageCache.Keys) + {pageUrl}
      ensures asked == old(asked) + if pageUrl in old(pageCache.Keys) then [] else [Ask(pageUrl, RawHtml)]
    {
      if pageUrl !in pageCache {
        var fetched := Fetch(pageUrl, RawHtml);
        pageCache := pageCache[pageUrl := fetched];
      }
    }

    // The rest of `_fetch_registered`, once the parent page is cached.
    method FetchArtifact(source: Source, pageUrl: Url) returns (r: Result<Page>)
      requires Valid() && pageUrl in pageCache
      modifies this`asked
      ensures r == ArtifactBehind(Fetched(outside.web(pageUrl, RawHtml)), pageUrl, source, outside)
      ensures asked == old(asked) + ArtifactAsks(Fetched(outside.web(pageUrl, RawHtml)), pageUrl, source, outside)
    {
      var page := pageCache[pageUrl];
      if page.Failure? {
        return page;
      }
      var Page(status, html) := page.value;
      if !(200 <= status < 300 && html.Some?) {
        return Failure(Fail(Unavailable, "source_provider.artifact_parent_unreachable", true));
      }
      var href := DiscoverArtifact(outside.links(html.value, pageUrl), source.identity.url, outside.unquote);
      if href.None? {
        return Failure(Fail(Unavailable, "source_provider.artifact_not_linked", true));
      }
      r := Fetch(href.value, Markdown);
    }

    // `observe`: what the cache holds never shows in the answer.
    method Observe(identity: SourceIdentity, at: Time, id: Uuid) returns (r: Result<SourceObservation>)
      requires Valid()
      modifies this
      ensures Valid()
      ensures r == ObserveUncached(sources, switches, zones, identity, at, id, outside)
      ensures r.Success? ==>
                && r.value.observationId == id && r.value.provenance.source == identity
                && r.value.provenance.observedAt == at
      ensures pageCache.Keys == old(pageCache.Keys) + CallDiscovers(sources, switches, identity)
      ensures asked == old(asked) + CallAsks(sources, switches, identity, outside, old(pageCache.Keys))
    {
      var fetched := FetchCalled(identity);
      if fetched.Failure? {
        return Failure(fetched.error);
      }
      var source := FindSource(sources, identity.sourceId).value;
      return Success(Reduced(source, fetched.value, switches, zones, at, id, outside));
    }

    // What both calls begin with: the registered source of the identity, and its page.
    method FetchCalled(identity: SourceIdentity) returns (r: Result<Page>)
      requires Valid()
      modifies this`pageCache, this`asked
      ensures Valid()
      ensures r == DocumentUncached(sources, switches, identity, outside)
      ensures pageCache.Keys == old(pageCache.Keys) + CallDiscovers(sources, switches, identity)
      ensures asked == old(asked) + CallAsks(sources, switches, identity, outside, old(pageCache.Keys))
    {
      var registered := FindSource(sources, identity.sourceId);
      if registered.None? || registered.value.identity != identity {
        return Failure(Fail(InvalidInput, "source_provider.unknown_source", false));
      }
      r := FetchRegistered(registered.value);
    }

    // `fetch_document`
    method FetchDocument(identity: SourceIdentity) returns (r: Result<Page>)
      requires Valid()
      modifies this
      ensures Valid()
      ensures r == DocumentUncached(sources, switches, identity, outside)
      ensures pageCache.Keys == old(pageCache.Keys) + CallDiscovers(sources, switches, identity)
      ensures asked == old(asked) + CallAsks(sources, switches, identity, outside, old(pageCache.Keys))
    {
      r := FetchCalled(identity);
    }

    method Answer(call: Call) returns (answer: CallAnswer)
      requires Valid()
      modifies this
      ensures Valid()
      ensures answer == AnswerUncached(sources, switches, zones, call, outside)
      ensures pageCache.Keys == old(pageCache.Keys) + CallDiscovers(sources, switches, call.identity)
      ensures asked == old(asked) + CallAsks(sources, switches, call.identity, outside, old(pageCache.Keys))
    {
      match call
      case ObserveCall(identity, at, id) =>
        var observation := Observe(identity, at, id);
        answer := Observed(observation);
      case DocumentCall(identity) =>
        var document := FetchDocument(identity);
        answer := Document(document);
    }

    // Calls in any order and mixture, each with its own time and identifier: every one answers as if
    // there were no cache, and the requests made are exactly those of the trace.
    method AnswerAll(calls: seq<Call>) returns (answers: seq<CallAnswer>)
      requires Valid()
      modifies this
      ensures Valid()
      ensures answers == AllUncached(sources, switches, zones, calls, outside)
      ensures pageCache.Keys == CachedAfter(sources, switches, calls, old(pageCache.Keys))
      ensures asked == old(asked) + Trace(sources, switches, calls, outside, old(pageCache.Keys))
    {
      answers := [];
      for k := 0 to |calls|
        invariant Valid()
        invariant answers == AllUncached(sources, switches, zones, calls[..k], outside)
        invariant pageCache.Keys == CachedAfter(sources, switches, calls[..k], old(pageCache.Keys))
        invariant asked == old(asked) + Trace(sources, switches, calls[..k], outside, old(pageCache.Keys))
      {
        TraceStep(sources, switches, calls, k, outside, old(pageCache.Keys), old(asked));
        AllUncachedStep(sources, switches, zones, calls, k, outside);
        var answer := Answer(calls[k]);
        answers := answers + [answer];
      }
      assert calls[..|calls|] == calls;
    }
  }
}
