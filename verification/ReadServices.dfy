// The read models served to the web: derived staleness, terminal views and source health
// (apps/api/paxpivot/application/read_services.py).
module ReadServices {
  import opened Wrappers
  import opened Sequences
  import opened Domain
  import opened Gate
  import opened ObservationLog
  import opened ObservationLaws
  import opened TerminalFacts
  import ReliabilityGate

  const FRESHNESS_WINDOW: int := ReliabilityGate.FRESHNESS_WINDOW

  // ---- one observation, as it reads at `now` ----

  function Effective(o: SourceObservation, now: Time): SourceObservation {
    if Positive(o.state) && now - o.At() > FRESHNESS_WINDOW then o.(state := Stale) else o
  }

  datatype Evidence = Evidence(
    observationId: Uuid, state: SourceState, observedAt: Time, sourceTime: Option<Time>,
    retrieval: RetrievalState, extraction: ExtractionState, parserVersion: Option<Identifier>)

  function EvidenceRead(o: SourceObservation, now: Time): Evidence {
    var c := Effective(o, now);
    Evidence(c.observationId, c.state, c.At(), c.provenance.sourceTime, c.retrieval, c.extraction, c.parserVersion)
  }

  // `max(observations, key=observed_at, default=None)`: the first of the newest.
  function Newest(observations: seq<SourceObservation>): Option<SourceObservation> {
    if observations == [] then None
    else
      var rest := Newest(observations[..|observations| - 1]);
      var last := observations[|observations| - 1];
      if rest.None? || last.At() > rest.value.At() then Some(last) else rest
  }

  // ---- the snapshot every read composes on ----

  datatype Terminal = Terminal(terminalId: Uuid, name: Identifier)

  // The tables as one transaction sees them; sources are listed in name order.
  datatype Snapshot = Snapshot(sources: seq<Source>, terminals: seq<Terminal>, facts: seq<Fact>,
                               switches: seq<KillSwitch>, log: seq<Row>)

  function ObservationOf(latest: map<Uuid, Row>, id: Uuid): Option<SourceObservation> {
    if id in latest then Some(latest[id].obs) else None
  }

  function AtTerminal(id: Uuid): Source -> bool { (s: Source) => s.terminalId == Some(id) }
  function TerminalSources(snapshot: Snapshot, id: Uuid): seq<Source> { Filter(snapshot.sources, AtTerminal(id)) }

  function FindTerminal(terminals: seq<Terminal>, id: Uuid): Option<Terminal> {
    if terminals == [] then None
    else if terminals[0].terminalId == id then Some(terminals[0]) else FindTerminal(terminals[1..], id)
  }

  predicate IsRestricted(s: Source) { s.policy.reviewState.Restricted? }

  // Evidence a terminal may show for a source: nothing for one that is only opened by the user.
  function ShownEvidence(latest: map<Uuid, Row>, now: Time): Source -> Option<Evidence> {
    (s: Source) =>
      if s.Id() in latest && !IsRestricted(s) then Some(EvidenceRead(latest[s.Id()].obs, now)) else None
  }

  function Observed(sources: seq<Source>, latest: map<Uuid, Row>): seq<SourceObservation> {
    if sources == [] then []
    else if sources[0].Id() in latest && !IsRestricted(sources[0])
    then [latest[sources[0].Id()].obs] + Observed(sources[1..], latest)
    else Observed(sources[1..], latest)
  }

  // ---- a terminal ----

  datatype TerminalSummary = TerminalSummary(terminalId: Uuid, name: Identifier, officialUrl: Option<Url>,
                                             latest: Option<Evidence>)
  datatype TerminalSourceRead = TerminalSourceRead(
    sourceId: Uuid, name: Identifier, url: Url, kind: SourceKind, enabled: bool, reviewState: ReviewState,
    latest: Option<Evidence>)
  datatype TerminalDetail = TerminalDetail(summary: TerminalSummary, facts: seq<Fact>, sources: seq<TerminalSourceRead>)

  function OfficialUrl(sources: seq<Source>): Option<Url> {
    if sources == [] then None
    else if sources[0].kind.TerminalPage? then Some(sources[0].identity.url) else OfficialUrl(sources[1..])
  }

  function Summary(terminal: Terminal, sources: seq<Source>, latest: map<Uuid, Row>, now: Time): TerminalSummary {
    var headline := Newest(Observed(sources, latest));
    TerminalSummary(terminal.terminalId, terminal.name, OfficialUrl(sources),
                    if headline.Some? then Some(EvidenceRead(headline.value, now)) else None)
  }

  function SourceReadOf(latest: map<Uuid, Row>, now: Time): Source -> TerminalSourceRead {
    (s: Source) => TerminalSourceRead(s.Id(), s.name, s.identity.url, s.kind, s.enabled, s.policy.reviewState,
                                      ShownEvidence(latest, now)(s))
  }

  predicate MayDisplay(sources: seq<Source>, fact: Fact) {
    var source := FindSource(sources, fact.provenance.source.sourceId);
    source.Some? && source.value.policy.Allows(Display)
  }

  function DisplayableIn(sources: seq<Source>): Fact -> bool { (f: Fact) => MayDisplay(sources, f) }

  // `displayable_facts`: only facts whose source currently permits display leave the service.
  method DisplayableFacts(facts: seq<Fact>, sources: seq<Source>) returns (allowed: seq<Fact>)
    ensures allowed == Filter(facts, DisplayableIn(sources))
  {
    allowed := [];
    for i := 0 to |facts|
      invariant allowed == Filter(facts[..i], DisplayableIn(sources))
    {
      FilterStep(facts, i, DisplayableIn(sources));
      var source := FindSource(sources, facts[i].provenance.source.sourceId);
      if source.Some? && source.value.policy.Allows(Display) {
        allowed := allowed + [facts[i]];
      }
    }
    assert facts[..|facts|] == facts;
  }

  // `get_terminal_detail`
  function Detail(snapshot: Snapshot, id: Uuid, now: Time): Option<TerminalDetail> {
    match FindTerminal(snapshot.terminals, id)
    case None => None
    case Some(terminal) =>
      var latest, sources := Latest(snapshot.log), TerminalSources(snapshot, id);
      Some(TerminalDetail(
             Summary(terminal, sources, latest, now),
             Filter(ListCurrentFacts(snapshot.facts, id), DisplayableIn(snapshot.sources)),
             Map(sources, SourceReadOf(latest, now))))
  }

  function SummaryOf(snapshot: Snapshot, latest: map<Uuid, Row>, now: Time): Terminal -> TerminalSummary {
    (t: Terminal) => Summary(t, TerminalSources(snapshot, t.terminalId), latest, now)
  }

  // `list_terminal_network`
  function Network(snapshot: Snapshot, now: Time): seq<TerminalSummary> {
    Map(snapshot.terminals, SummaryOf(snapshot, Latest(snapshot.log), now))
  }

  // ---- source health ----

  datatype HealthRow = HealthRow(sourceId: Uuid, name: Identifier, url: Url, enabled: bool, reviewState: ReviewState,
                                 killSwitched: bool, latest: Option<Evidence>)

  const ALL_MODES: seq<ProcessingMode> := [Retrieve, Parse, StoreRaw, Summarize, Display, AggregateHistory]

  function HealthRowOf(latest: map<Uuid, Row>, switches: seq<KillSwitch>, now: Time): Source -> HealthRow {
    (s: Source) =>
      var o := ObservationOf(latest, s.Id());
      HealthRow(s.Id(), s.name, s.identity.url, s.enabled, s.policy.reviewState,
                exists mode | mode in ALL_MODES :: EngagedSwitch(s, mode, switches).Some?,
                if o.Some? then Some(EvidenceRead(o.value, now)) else None)
  }

  function HealthRows(snapshot: Snapshot, now: Time): seq<HealthRow> {
    Map(snapshot.sources, HealthRowOf(Latest(snapshot.log), snapshot.switches, now))
  }

  function InState(state: SourceState): HealthRow -> bool {
    (r: HealthRow) => r.latest.Some? && r.latest.value.state == state
  }
  function Unobserved(): HealthRow -> bool { (r: HealthRow) => r.latest.None? }

  // The states in the order of their wire values.
  const STATES: seq<SourceState> := [
    Fresh, MonitorDelayed, NoCompatible, NoDepartures, ReviewRequired, RestrictedUserOpen, ChangedUnparsed,
    StateConflict, Missing, Stale, Unreachable, Superseded, Withdrawn]

  function Listed(counts: map<SourceState, nat>, states: seq<SourceState>): seq<(SourceState, nat)> {
    if states == [] then []
    else if states[0] in counts then [(states[0], counts[states[0]])] + Listed(counts, states[1..])
    else Listed(counts, states[1..])
  }

  function Total(counts: seq<(SourceState, nat)>): nat { if counts == [] then 0 else counts[0].1 + Total(counts[1..]) }

  // `list_source_health`
  method SourceHealth(snapshot: Snapshot, now: Time)
    returns (rows: seq<HealthRow>, counts: seq<(SourceState, nat)>, neverObserved: nat)
    ensures rows == HealthRows(snapshot, now)
    ensures neverObserved == |Filter(rows, Unobserved())|
    ensures Total(counts) + neverObserved == |snapshot.sources|
    ensures forall state, n :: (state, n) in counts <==> n == |Filter(rows, InState(state))| && n > 0
    ensures InOrderOf(counts, STATES)
  {
    rows := Map(snapshot.sources, HealthRowOf(Latest(snapshot.log), snapshot.switches, now));
    var tally := TallyStates(rows);
    counts := Listed(tally, STATES);
    neverObserved := |Filter(rows, Unobserved())|;
    HealthCounts(tally, rows);
  }

  method TallyStates(rows: seq<HealthRow>) returns (tally: map<SourceState, nat>)
    ensures Tallies(tally, rows)
  {
    tally := map[];
    for i := 0 to |rows|
      invariant Tallies(tally, rows[..i])
    {
      TallyStep(tally, rows, i);
      if rows[i].latest.Some? {
        var state := rows[i].latest.value.state;
        tally := tally[state := (if state in tally then tally[state] else 0) + 1];
      }
    }
    assert rows[..|rows|] == rows;
  }

  lemma HealthCounts(tally: map<SourceState, nat>, rows: seq<HealthRow>)
    requires Tallies(tally, rows)
    ensures var counts := Listed(tally, STATES);
            && Total(counts) + |Filter(rows, Unobserved())| == |rows|
            && (forall state, n :: (state, n) in counts <==> n == |Filter(rows, InState(state))| && n > 0)
            && InOrderOf(counts, STATES)
  {
    CountsAreTallies(tally, rows);
    CountsAddUp(tally, rows);
    ListedInOrder(tally, STATES);
  }

  // Each state at most once, in the order of `states`.
  ghost predicate InOrderOf(counts: seq<(SourceState, nat)>, states: seq<SourceState>) {
    if counts == [] then true
    else if states == [] then false
    else if counts[0].0 == states[0] then InOrderOf(counts[1..], states[1..])
    else InOrderOf(counts, states[1..])
  }

  lemma {:induction false} ListedInOrder(counts: map<SourceState, nat>, states: seq<SourceState>)
    ensures InOrderOf(Listed(counts, states), states)
    ensures Listed(counts, states) != [] ==> Listed(counts, states)[0].0 in counts
  {
    if states != [] {
      ListedInOrder(counts, states[1..]);
      if states[0] in counts {
        assert Listed(counts, states)[1..] == Listed(counts, states[1..]);
      }
    }
  }

  ghost predicate Tallies(tally: map<SourceState, nat>, rows: seq<HealthRow>) {
    forall state :: CountIn(tally, state) == |Filter(rows, InState(state))| && (state in tally ==> tally[state] > 0)
  }

  function CountIn(tally: map<SourceState, nat>, state: SourceState): nat {
    if state in tally then tally[state] else 0
  }

  function Tallied(tally: map<SourceState, nat>, row: HealthRow): map<SourceState, nat> {
    if row.latest.None? then tally
    else tally[row.latest.value.state := CountIn(tally, row.latest.value.state) + 1]
  }

  lemma TallyOf(tally: map<SourceState, nat>, rows: seq<HealthRow>, i: nat, state: SourceState)
    requires i < |rows| && CountIn(tally, state) == |Filter(rows[..i], InState(state))|
    requires state in tally ==> tally[state] > 0
    ensures var next := Tallied(tally, rows[i]);
            && CountIn(next, state) == |Filter(rows[..i + 1], InState(state))|
            && (state in next ==> next[state] > 0)
  {
    FilterStep(rows, i, InState(state));
  }

  lemma TallyStep(tally: map<SourceState, nat>, rows: seq<HealthRow>, i: nat)
    requires i < |rows| && Tallies(tally, rows[..i])
    ensures Tallies(Tallied(tally, rows[i]), rows[..i + 1])
  {
    var next := Tallied(tally, rows[i]);
    forall state
      ensures CountIn(next, state) == |Filter(rows[..i + 1], InState(state))| && (state in next ==> next[state] > 0)
    {
      TallyOf(tally, rows, i, state);
    }
  }

  lemma {:induction false} ListedMembers(counts: map<SourceState, nat>, states: seq<SourceState>, state: SourceState,
                                         n: nat)
    ensures (state, n) in Listed(counts, states) <==> state in states && state in counts && counts[state] == n
  {
    if states != [] {
      ListedMembers(counts, states[1..], state, n);
    }
  }

  // Every state is listed, at its place.
  function PlaceOf(state: SourceState): nat {
    match state
    case Fresh => 0 case MonitorDelayed => 1 case NoCompatible => 2 case NoDepartures => 3
    case ReviewRequired => 4 case RestrictedUserOpen => 5 case ChangedUnparsed => 6 case StateConflict => 7
    case Missing => 8 case Stale => 9 case Unreachable => 10 case Superseded => 11 case Withdrawn => 12
  }

  lemma StateAtItsPlace(state: SourceState)
    ensures PlaceOf(state) < |STATES| && STATES[PlaceOf(state)] == state
  {
  }

  lemma PlaceOfState(i: nat)
    requires i < |STATES|
    ensures PlaceOf(STATES[i]) == i
  {
  }

  lemma CountIsATally(tally: map<SourceState, nat>, states: seq<SourceState>, rows: seq<HealthRow>,
                      state: SourceState, n: nat)
    requires Tallies(tally, rows) && state in states
    ensures (state, n) in Listed(tally, states) <==> n == |Filter(rows, InState(state))| && n > 0
  {
    ListedMembers(tally, states, state, n);
  }

  lemma CountsAreTallies(tally: map<SourceState, nat>, rows: seq<HealthRow>)
    requires Tallies(tally, rows)
    ensures forall state, n :: (state, n) in Listed(tally, STATES) <==> n == |Filter(rows, InState(state))| && n > 0
  {
    forall state, n ensures (state, n) in Listed(tally, STATES) <==> n == |Filter(rows, InState(state))| && n > 0 {
      StateAtItsPlace(state);
      CountIsATally(tally, STATES, rows, state, n);
    }
  }

  function SumOver(states: seq<SourceState>, rows: seq<HealthRow>): nat {
    if states == [] then 0 else |Filter(rows, InState(states[0]))| + SumOver(states[1..], rows)
  }

  lemma {:induction false} ListedTotal(tally: map<SourceState, nat>, states: seq<SourceState>, rows: seq<HealthRow>)
    requires Tallies(tally, rows)
    ensures Total(Listed(tally, states)) == SumOver(states, rows)
  {
    if states != [] {
      ListedTotal(tally, states[1..], rows);
      if states[0] in tally {
        assert Listed(tally, states)[1..] == Listed(tally, states[1..]);
      }
    }
  }

  ghost predicate DistinctStates(states: seq<SourceState>) {
    forall i, j :: 0 <= i < j < |states| ==> states[i] != states[j]
  }

  lemma {:induction false} OneRowOneState(states: seq<SourceState>, rows: seq<HealthRow>)
    requires DistinctStates(states) && rows != []
    ensures SumOver(states, rows) == SumOver(states, rows[1..])
            + (if rows[0].latest.Some? && rows[0].latest.value.state in states then 1 else 0)
  {
    if states != [] {
      OneRowOneState(states[1..], rows);
      if rows[0].latest.Some? && rows[0].latest.value.state == states[0] {
        assert states[0] !in states[1..];
      }
    }
  }

  lemma {:induction false} RowsPartition(rows: seq<HealthRow>)
    ensures SumOver(STATES, rows) + |Filter(rows, Unobserved())| == |rows|
  {
    if rows == [] {
      NothingToSum(STATES);
    } else {
      RowsPartition(rows[1..]);
      StatesAreDistinct();
      OneRowOneState(STATES, rows);
    }
  }

  lemma {:induction false} NothingToSum(states: seq<SourceState>)
    ensures SumOver(states, []) == 0
  {
    if states != [] {
      NothingToSum(states[1..]);
    }
  }

  lemma StatesAreDistinct()
    ensures DistinctStates(STATES)
  {
    forall i, j | 0 <= i < j < |STATES| ensures STATES[i] != STATES[j] {
      PlaceOfState(i);
      PlaceOfState(j);
    }
  }

  lemma CountsAddUp(tally: map<SourceState, nat>, rows: seq<HealthRow>)
    requires Tallies(tally, rows)
    ensures Total(Listed(tally, STATES)) + |Filter(rows, Unobserved())| == |rows|
  {
    ListedTotal(tally, STATES, rows);
    RowsPartition(rows);
  }

  // ---- what the views promise ----

  // A positive reading is never older than the window, a stale one never comes back, and nothing
  // but the state of an outdated positive observation is ever changed by reading it.
  lemma StalenessIsDerived(o: SourceObservation, now: Time, later: Time)
    ensures var e := EvidenceRead(o, now);
            && (e.state in {Fresh, NoDepartures, NoCompatible} ==> now - e.observedAt <= 23_400_000_000)
            && (e.state != o.state <==>
                  o.state in {Fresh, NoDepartures, NoCompatible} && now - o.At() > 23_400_000_000)
            && (e.state != o.state ==> e.state == Stale)
            && e.observationId == o.observationId && e.observedAt == o.At()
            && e.sourceTime == o.provenance.sourceTime && e.retrieval == o.retrieval
            && e.extraction == o.extraction && e.parserVersion == o.parserVersion
    ensures now <= later && EvidenceRead(o, now).state == Stale ==> EvidenceRead(o, later) == EvidenceRead(o, now)
  {
  }

  // The newest of some observations is the first among those observed last.
  lemma {:induction false} NewestIsFirstMaximum(observations: seq<SourceObservation>) returns (i: nat)
    requires observations != []
    ensures i < |observations| && Newest(observations) == Some(observations[i])
    ensures forall j :: 0 <= j < |observations| ==> observations[j].At() <= observations[i].At()
    ensures forall j :: 0 <= j < i ==> observations[j].At() < observations[i].At()
  {
    var last := |observations| - 1;
    var front := observations[..last];
    i := last;
    if front != [] {
      var k := NewestIsFirstMaximum(front);
      forall j | 0 <= j < last ensures front[j] == observations[j] {}
      if observations[last].At() <= observations[k].At() {
        i := k;
      }
    }
  }

  // What a terminal's rows show is exactly what its observed list holds.
  lemma {:induction false} ShownIsObserved(sources: seq<Source>, latest: map<Uuid, Row>, now: Time, i: nat)
    requires i < |sources| && ShownEvidence(latest, now)(sources[i]).Some?
    ensures exists k :: 0 <= k < |Observed(sources, latest)|
                        && ShownEvidence(latest, now)(sources[i])
                           == Some(EvidenceRead(Observed(sources, latest)[k], now))
  {
    var rest := sources[1..];
    var seen, seenRest := Observed(sources, latest), Observed(rest, latest);
    if i == 0 {
      assert ShownEvidence(latest, now)(sources[0]) == Some(EvidenceRead(seen[0], now));
    } else {
      ShownIsObserved(rest, latest, now, i - 1);
      assert rest[i - 1] == sources[i];
      var k :| 0 <= k < |seenRest| && ShownEvidence(latest, now)(sources[i]) == Some(EvidenceRead(seenRest[k], now));
      assert seen[|seen| - |seenRest| + k] == seenRest[k];
    }
  }

  lemma {:induction false} ObservedIsShown(sources: seq<Source>, latest: map<Uuid, Row>, now: Time, k: nat)
    requires k < |Observed(sources, latest)|
    ensures exists i :: 0 <= i < |sources|
                        && ShownEvidence(latest, now)(sources[i])
                           == Some(EvidenceRead(Observed(sources, latest)[k], now))
  {
    var rest := sources[1..];
    var seen, seenRest := Observed(sources, latest), Observed(rest, latest);
    var shift := |seen| - |seenRest|;
    if k < shift {
      assert ShownEvidence(latest, now)(sources[0]) == Some(EvidenceRead(seen[k], now));
    } else {
      assert seenRest[k - shift] == seen[k];
      ObservedIsShown(rest, latest, now, k - shift);
      var i :| 0 <= i < |rest| && ShownEvidence(latest, now)(rest[i]) == Some(EvidenceRead(seen[k], now));
      assert sources[i + 1] == rest[i];
    }
  }

  // A headline is the newest evidence among the rows; it is absent exactly when none of them shows any.
  lemma SummaryIsNewestRow(terminal: Terminal, sources: seq<Source>, latest: map<Uuid, Row>, now: Time)
    ensures var headline := Summary(terminal, sources, latest, now).latest;
            var rows := Map(sources, SourceReadOf(latest, now));
            && (headline.None? <==> forall i :: 0 <= i < |rows| ==> rows[i].latest.None?)
            && (headline.Some? ==> exists i :: 0 <= i < |rows| && rows[i].latest == headline)
            && (headline.Some? ==> forall i :: 0 <= i < |rows| && rows[i].latest.Some? ==>
                  rows[i].latest.value.observedAt <= headline.value.observedAt)
  {
    var seen := Observed(sources, latest);
    var rows := Map(sources, SourceReadOf(latest, now));
    var headline := Summary(terminal, sources, latest, now).latest;
    if seen != [] {
      var k := NewestIsFirstMaximum(seen);
      assert EvidenceRead(seen[k], now) == headline.value;
      ObservedIsShown(sources, latest, now, k);
      var i :| 0 <= i < |sources| && ShownEvidence(latest, now)(sources[i]) == Some(headline.value);
      assert rows[i].latest == headline;
    }
    forall i | 0 <= i < |rows| && rows[i].latest.Some?
      ensures headline.Some? && rows[i].latest.value.observedAt <= headline.value.observedAt
    {
      var e := rows[i].latest.value;
      assert ShownEvidence(latest, now)(sources[i]) == Some(e);
      ShownIsObserved(sources, latest, now, i);
      var k :| 0 <= k < |seen| && EvidenceRead(seen[k], now) == e;
      StalenessIsDerived(seen[k], now, now);
    }
  }

  // What is shown is not positive about something last seen more than 6.5 hours ago.
  ghost predicate NotOutdated(shown: Option<Evidence>, now: Time) {
    shown.Some? && shown.value.state in {Fresh, NoDepartures, NoCompatible} ==>
      now - shown.value.observedAt <= 23_400_000_000
  }

  lemma HeadlineIsNotOutdated(terminal: Terminal, sources: seq<Source>, latest: map<Uuid, Row>, now: Time)
    ensures NotOutdated(Summary(terminal, sources, latest, now).latest, now)
  {
    var seen := Observed(sources, latest);
    if seen != [] {
      var k := NewestIsFirstMaximum(seen);
      StalenessIsDerived(seen[k], now, now);
    }
  }

  lemma ShownIsNotOutdated(source: Source, latest: map<Uuid, Row>, switches: seq<KillSwitch>, now: Time)
    ensures NotOutdated(SourceReadOf(latest, now)(source).latest, now)
    ensures NotOutdated(HealthRowOf(latest, switches, now)(source).latest, now)
  {
    assert SourceReadOf(latest, now)(source).latest == ShownEvidence(latest, now)(source);
    if source.Id() in latest {
      StalenessIsDerived(latest[source.Id()].obs, now, now);
    }
  }

  // No view ever shows an outdated positive state: not a terminal's headline in the network or in its
  // detail, not a detail's rows, and not the health rows, restricted sources included.
  lemma NothingOutdatedIsShown(snapshot: Snapshot, terminalId: Uuid, now: Time)
    ensures forall k :: 0 <= k < |snapshot.terminals| ==> NotOutdated(Network(snapshot, now)[k].latest, now)
    ensures forall j :: 0 <= j < |snapshot.sources| ==> NotOutdated(HealthRows(snapshot, now)[j].latest, now)
    ensures Detail(snapshot, terminalId, now).Some? ==>
              var detail := Detail(snapshot, terminalId, now).value;
              && NotOutdated(detail.summary.latest, now)
              && forall i :: 0 <= i < |detail.sources| ==> NotOutdated(detail.sources[i].latest, now)
  {
    var latest := Latest(snapshot.log);
    forall k | 0 <= k < |snapshot.terminals| ensures NotOutdated(Network(snapshot, now)[k].latest, now) {
      var t := snapshot.terminals[k];
      HeadlineIsNotOutdated(t, TerminalSources(snapshot, t.terminalId), latest, now);
    }
    forall j | 0 <= j < |snapshot.sources| ensures NotOutdated(HealthRows(snapshot, now)[j].latest, now) {
      ShownIsNotOutdated(snapshot.sources[j], latest, snapshot.switches, now);
    }
    if Detail(snapshot, terminalId, now).Some? {
      var terminal := FindTerminal(snapshot.terminals, terminalId).value;
      var sources := TerminalSources(snapshot, terminalId);
      var detail := Detail(snapshot, terminalId, now).value;
      HeadlineIsNotOutdated(terminal, sources, latest, now);
      forall i | 0 <= i < |detail.sources| ensures NotOutdated(detail.sources[i].latest, now) {
        ShownIsNotOutdated(sources[i], latest, [], now);
      }
    }
  }

  // A terminal's detail carries a fact exactly when it is the terminal's current fact of its kind and
  // its own source is registered and approved for display; each kind appears at most once, in order.
  lemma OnlyDisplayableFactsLeave(snapshot: Snapshot, terminalId: Uuid, now: Time, f: Fact)
    requires Detail(snapshot, terminalId, now).Some? && DistinctFacts(snapshot.facts)
    requires forall i, j :: 0 <= i < j < |snapshot.sources| ==> snapshot.sources[i].Id() != snapshot.sources[j].Id()
    ensures f in Detail(snapshot, terminalId, now).value.facts <==>
              && f.terminalId == terminalId && IsCurrentFact(snapshot.facts, f)
              && exists i :: 0 <= i < |snapshot.sources| && snapshot.sources[i].Id() == f.provenance.source.sourceId
                   && snapshot.sources[i].policy.reviewState.Approved? && snapshot.sources[i].policy.mayDisplay
    ensures KindsAscend(Detail(snapshot, terminalId, now).value.facts)
  {
    CurrentFactsExactly(snapshot.facts, terminalId, f);
    OneFactPerKind(snapshot.facts, terminalId);
    SelectionAscends(ListCurrentFacts(snapshot.facts, terminalId), DisplayableIn(snapshot.sources));
    assert f in Detail(snapshot, terminalId, now).value.facts
           <==> f in ListCurrentFacts(snapshot.facts, terminalId) && MayDisplay(snapshot.sources, f);
  }

  // A health row reports evidence exactly for sources with a stored observation, and it is the one
  // row of the source that nothing has superseded and no other such row outranks.
  lemma HealthShowsTheCurrentRow(snapshot: Snapshot, now: Time, j: nat)
    requires ValidLog(snapshot.log) && j < |snapshot.sources|
    ensures var health, s := HealthRows(snapshot, now)[j], snapshot.sources[j];
            && (health.latest.Some? <==> s.Id() in SourcesIn(snapshot.log))
            && forall r: Row :: r.SourceId() == s.Id() && IsCurrent(snapshot.log, r) ==>
                 health.latest == Some(EvidenceRead(r.obs, now))
  {
    ExactlyOneCurrent(snapshot.log, snapshot.sources[j].Id());
  }

  lemma EveryModeIsListed(mode: ProcessingMode)
    ensures mode in ALL_MODES
  {
    assert ALL_MODES[0] == Retrieve && ALL_MODES[1] == Parse && ALL_MODES[2] == StoreRaw && ALL_MODES[3] == Summarize
        && ALL_MODES[4] == Display && ALL_MODES[5] == AggregateHistory;
  }

  // Kill switches show as a flag exactly when some mode is covered; they never change evidence.
  lemma SwitchesOnlyFlag(snapshot: Snapshot, other: seq<KillSwitch>, now: Time, j: nat)
    requires j < |snapshot.sources|
    ensures var here, there := HealthRows(snapshot, now)[j], HealthRows(snapshot.(switches := other), now)[j];
            && here.latest == there.latest
            && (here.killSwitched <==> exists mode, s :: s in snapshot.switches && Covers(s, snapshot.sources[j], mode))
  {
    var source := snapshot.sources[j];
    var latest := Latest(snapshot.log);
    assert HealthRows(snapshot, now)[j] == HealthRowOf(latest, snapshot.switches, now)(source);
    if mode, s :| s in snapshot.switches && Covers(s, source, mode) {
      EveryModeIsListed(mode);
      assert EngagedSwitch(source, mode, snapshot.switches).Some?;
    }
    if mode :| mode in ALL_MODES && EngagedSwitch(source, mode, snapshot.switches).Some? {
      var s := EngagedSwitch(source, mode, snapshot.switches).value;
      assert s in snapshot.switches && Covers(s, source, mode);
    }
  }
}
