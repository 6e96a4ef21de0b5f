// How often the Firecrawl provider asks for one page.
module FirecrawlFetches {
  import opened Sequences
  import opened Domain
  import opened Gate
  import opened Pipeline
  import opened Firecrawl
  import opened FirecrawlLaws

  // ---- any calls ----

  predicate CallReads(sources: seq<Source>, switches: seq<KillSwitch>, identity: SourceIdentity, u: Url) {
    var source := CalledSource(sources, identity);
    source.Some? && ReadsDirectly(source.value, switches) && source.value.identity.url == u
  }

  // How many of the calls read the page itself.
  function DirectReads(sources: seq<Source>, switches: seq<KillSwitch>, calls: seq<Call>, u: Url): nat {
    if calls == [] then 0
    else
      DirectReads(sources, switches, calls[..|calls| - 1], u)
      + if CallReads(sources, switches, calls[|calls| - 1].identity, u) then 1 else 0
  }

  ghost predicate SomeDiscovers(sources: seq<Source>, switches: seq<KillSwitch>, calls: seq<Call>, u: Url) {
    exists k: nat :: DiscoversAt(sources, switches, calls, u, k)
  }

  function RawAsks(asked: seq<Ask>, u: Url): nat { |Filter(asked, IsRaw(u))| }

  predicate DiscoversAt(sources: seq<Source>, switches: seq<KillSwitch>, calls: seq<Call>, u: Url, k: nat) {
    k < |calls| && u in CallDiscovers(sources, switches, calls[k].identity)
  }

  lemma DiscoversOneMore(sources: seq<Source>, switches: seq<KillSwitch>, calls: seq<Call>, u: Url)
    requires calls != []
    ensures SomeDiscovers(sources, switches, calls, u) <==>
            || SomeDiscovers(sources, switches, calls[..|calls| - 1], u)
            || u in CallDiscovers(sources, switches, calls[|calls| - 1].identity)
  {
    var front := calls[..|calls| - 1];
    if k: nat :| DiscoversAt(sources, switches, front, u, k) {
      assert DiscoversAt(sources, switches, calls, u, k);
    }
    if k: nat :| DiscoversAt(sources, switches, calls, u, k) {
      assert k == |front| || DiscoversAt(sources, switches, front, u, k);
    }
    assert u in CallDiscovers(sources, switches, calls[|front|].identity)
           ==> DiscoversAt(sources, switches, calls, u, |front|);
  }

  lemma {:induction false} CachedAreDiscovered(sources: seq<Source>, switches: seq<KillSwitch>, calls: seq<Call>,
                                               cached: set<Url>, u: Url)
    ensures u in CachedAfter(sources, switches, calls, cached)
            <==> u in cached || SomeDiscovers(sources, switches, calls, u)
  {
    if calls != [] {
      var front := calls[..|calls| - 1];
      CachedAreDiscovered(sources, switches, front, cached, u);
      DiscoversOneMore(sources, switches, calls, u);
    }
  }

  lemma RawAsksConcat(a: seq<Ask>, b: seq<Ask>, u: Url)
    ensures RawAsks(a + b, u) == RawAsks(a, u) + RawAsks(b, u)
  {
    FilterConcat(a, b, IsRaw(u));
  }

  // One call asks for the raw page once to read it, and once to discover through it unless it is cached.
  lemma CallRawAsks(sources: seq<Source>, switches: seq<KillSwitch>, identity: SourceIdentity, outside: Outside,
                    cached: set<Url>, u: Url)
    ensures RawAsks(CallAsks(sources, switches, identity, outside, cached), u)
         == (if CallReads(sources, switches, identity, u) then 1 else 0)
            + (if u in CallDiscovers(sources, switches, identity) && u !in cached then 1 else 0)
  {
    var source := CalledSource(sources, identity);
    if source.Some? && Authorized(source.value, Retrieve, switches) {
      var parent := ParentPage(sources, source.value, switches);
      if source.value.kind.ScheduleArtifact? && parent.Some? {
        var page := parent.value.identity.url;
        RawAsksConcat(if page in cached then [] else [Ask(page, RawHtml)],
                      ArtifactAsks(Fetched(outside.web(page, RawHtml)), page, source.value, outside), u);
      }
    }
  }

  // Over any calls, the raw page is asked for once per call that reads it, plus once if some call
  // discovers an artifact through it and it was not cached before.
  lemma {:induction false} RawAsksOfCalls(sources: seq<Source>, switches: seq<KillSwitch>, calls: seq<Call>,
                                          outside: Outside, cached: set<Url>, u: Url)
    ensures RawAsks(Trace(sources, switches, calls, outside, cached), u)
         == DirectReads(sources, switches, calls, u)
            + if SomeDiscovers(sources, switches, calls, u) && u !in cached then 1 else 0
  {
    if calls != [] {
      var front, last := calls[..|calls| - 1], calls[|calls| - 1];
      var now := CachedAfter(sources, switches, front, cached);
      RawAsksOfCalls(sources, switches, front, outside, cached, u);
      RawAsksConcat(Trace(sources, switches, front, outside, cached),
                    CallAsks(sources, switches, last.identity, outside, now), u);
      CallRawAsks(sources, switches, last.identity, outside, now, u);
      CachedAreDiscovered(sources, switches, front, cached, u);
      DiscoversOneMore(sources, switches, calls, u);
    }
  }

  // ---- one run ----

  function ObserveOf(at: SourceIdentity -> Time, id: SourceIdentity -> Uuid): SourceIdentity -> Call {
    (who: SourceIdentity) => ObserveCall(who, at(who), id(who))
  }

  // The calls of a run: one for each source it asks about, in register order.
  function RunCalls(sources: seq<Source>, run: Run, at: SourceIdentity -> Time, id: SourceIdentity -> Uuid): seq<Call> {
    Map(Asked(sources, run), ObserveOf(at, id))
  }

  // No two registered sources share an identifier or a page.
  ghost predicate UniqueRegister(sources: seq<Source>) {
    DistinctSources(sources)
    && forall i, j :: 0 <= i < j < |sources| ==> sources[i].identity.url != sources[j].identity.url
  }

  predicate IsAsked(source: Source, switches: seq<KillSwitch>) { SkipReason(source, PROVIDER_ID, switches).None? }

  // The run reads the page for its own source, or discovers some artifact through it.
  ghost predicate ReadInRun(sources: seq<Source>, switches: seq<KillSwitch>, u: Url) {
    exists s :: s in sources && IsAsked(s, switches) && !s.kind.ScheduleArtifact? && s.identity.url == u
  }

  ghost predicate DiscoveredInRun(sources: seq<Source>, switches: seq<KillSwitch>, u: Url) {
    exists s :: s in sources && IsAsked(s, switches) && u in DiscoveredThrough(sources, switches, s)
  }

  ghost predicate PageReadIn(part: seq<Source>, u: Url) {
    exists s :: s in part && !s.kind.ScheduleArtifact? && s.identity.url == u
  }

  lemma PageReadOneMore(front: seq<Source>, last: Source, u: Url)
    requires UniqueRegister(front + [last])
    ensures PageReadIn(front + [last], u)
            <==> PageReadIn(front, u) || (!last.kind.ScheduleArtifact? && last.identity.url == u)
    ensures !last.kind.ScheduleArtifact? && last.identity.url == u ==> !PageReadIn(front, u)
  {
    var part := front + [last];
    forall s | s in front ensures s.identity.url != last.identity.url {
      var k :| 0 <= k < |front| && front[k] == s;
      assert part[k] == s && part[|front|] == last;
    }
    assert last in part;
  }

  function CallsFor(part: seq<Source>, at: SourceIdentity -> Time, id: SourceIdentity -> Uuid): seq<Call> {
    Map(Map(part, Identity()), ObserveOf(at, id))
  }

  lemma LastCall(part: seq<Source>, at: SourceIdentity -> Time, id: SourceIdentity -> Uuid)
    requires part != []
    ensures var calls, n := CallsFor(part, at, id), |part| - 1;
            |calls| == |part| && calls[..n] == CallsFor(part[..n], at, id) && calls[n].identity == part[n].identity
  {
  }

  // One more source of the register adds a reading when it is the page's own.
  lemma SourceReads(register: seq<Source>, source: Source, switches: seq<KillSwitch>, u: Url)
    requires DistinctSources(register) && source in register && IsAsked(source, switches)
    ensures CallReads(register, switches, source.identity, u)
            <==> !source.kind.ScheduleArtifact? && source.identity.url == u
  {
    RegisteredIsItself(register, source);
  }

  lemma {:induction false} PartReads(register: seq<Source>, part: seq<Source>, switches: seq<KillSwitch>,
                                     at: SourceIdentity -> Time, id: SourceIdentity -> Uuid, u: Url)
    requires DistinctSources(register) && UniqueRegister(part)
    requires forall k :: 0 <= k < |part| ==> part[k] in register && IsAsked(part[k], switches)
    ensures DirectReads(register, switches, CallsFor(part, at, id), u) == if PageReadIn(part, u) then 1 else 0
  {
    if part != [] {
      var n := |part| - 1;
      PartReads(register, part[..n], switches, at, id, u);
      assert part == part[..n] + [part[n]];
      PageReadOneMore(part[..n], part[n], u);
      LastCall(part, at, id);
      SourceReads(register, part[n], switches, u);
    }
  }

  lemma PartDiscovers(register: seq<Source>, part: seq<Source>, switches: seq<KillSwitch>,
                      at: SourceIdentity -> Time, id: SourceIdentity -> Uuid, u: Url)
    requires DistinctSources(register) && forall s :: s in part ==> s in register
    ensures SomeDiscovers(register, switches, CallsFor(part, at, id), u) <==>
            exists s :: s in part && u in DiscoveredThrough(register, switches, s)
  {
    var calls := CallsFor(part, at, id);
    forall k | 0 <= k < |part|
      ensures CallDiscovers(register, switches, calls[k].identity) == DiscoveredThrough(register, switches, part[k])
    {
      RegisteredIsItself(register, part[k]);
    }
    if s :| s in part && u in DiscoveredThrough(register, switches, s) {
      var k :| 0 <= k < |part| && part[k] == s;
      assert DiscoversAt(register, switches, calls, u, k);
    }
    if k: nat :| DiscoversAt(register, switches, calls, u, k) {
      assert part[k] in part;
    }
  }

  lemma {:induction false} PartIsUnique(sources: seq<Source>, p: Source -> bool)
    requires UniqueRegister(sources)
    ensures UniqueRegister(Filter(sources, p))
  {
    if sources != [] {
      var rest := sources[1..];
      assert forall i :: 0 <= i < |rest| ==> rest[i] == sources[i + 1];
      PartIsUnique(rest, p);
      forall k | 0 <= k < |Filter(rest, p)|
        ensures Filter(rest, p)[k].Id() != sources[0].Id() && Filter(rest, p)[k].identity.url != sources[0].identity.url
      {
        assert Filter(rest, p)[k] in rest;
        var m :| 0 <= m < |rest| && rest[m] == Filter(rest, p)[k];
      }
    }
  }

  lemma AskedPartReads(sources: seq<Source>, switches: seq<KillSwitch>, at: SourceIdentity -> Time,
                       id: SourceIdentity -> Uuid, u: Url)
    requires UniqueRegister(sources)
    ensures var calls := CallsFor(Filter(sources, Measures(PROVIDER_ID, switches)), at, id);
            DirectReads(sources, switches, calls, u) == if ReadInRun(sources, switches, u) then 1 else 0
  {
    var part := Filter(sources, Measures(PROVIDER_ID, switches));
    PartIsUnique(sources, Measures(PROVIDER_ID, switches));
    forall k | 0 <= k < |part| ensures part[k] in sources && IsAsked(part[k], switches) {
      assert part[k] in part;
    }
    PartReads(sources, part, switches, at, id, u);
  }

  lemma AskedPartDiscovers(sources: seq<Source>, switches: seq<KillSwitch>, at: SourceIdentity -> Time,
                           id: SourceIdentity -> Uuid, u: Url)
    requires UniqueRegister(sources)
    ensures var calls := CallsFor(Filter(sources, Measures(PROVIDER_ID, switches)), at, id);
            SomeDiscovers(sources, switches, calls, u) <==> DiscoveredInRun(sources, switches, u)
  {
    PartDiscovers(sources, Filter(sources, Measures(PROVIDER_ID, switches)), switches, at, id, u);
  }

  // In one run a raw page is asked for once to read it for its own source and once to discover
  // through it: twice exactly when both are needed, and never more.
  lemma RawAsksOfARun(sources: seq<Source>, switches: seq<KillSwitch>, zones: map<Uuid, string>, outside: Outside,
                      at: SourceIdentity -> Time, id: SourceIdentity -> Uuid, u: Url)
    requires UniqueRegister(sources)
    ensures var run := FirecrawlRun(sources, switches, zones, outside, at, id);
            RawAsks(Trace(sources, switches, RunCalls(sources, run, at, id), outside, {}), u)
            == (if ReadInRun(sources, switches, u) then 1 else 0)
               + (if DiscoveredInRun(sources, switches, u) then 1 else 0)
  {
    var calls := CallsFor(Filter(sources, Measures(PROVIDER_ID, switches)), at, id);
    RawAsksOfCalls(sources, switches, calls, outside, {}, u);
    AskedPartReads(sources, switches, at, id, u);
    AskedPartDiscovers(sources, switches, at, id, u);
  }
}
