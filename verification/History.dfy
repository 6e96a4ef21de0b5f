// Whole histories: check runs, switch changes and registry edits in any order.
module History {
  import opened Wrappers
  import opened Sequences
  import opened Domain
  import opened Gate
  import opened ObservationLog
  import opened ObservationLaws
  import opened Pipeline
  import opened PipelineLaws

  datatype World = World(registry: seq<Source>, switches: seq<KillSwitch>, log: seq<Row>)

  datatype Event =
    | CheckRun(providerId: Identifier, answers: SourceIdentity -> Result<SourceObservation>, startedAt: Time)
    | EditRegistry(registry: seq<Source>)
    | Engage(switch: KillSwitch)
    | Release(switchId: Uuid, at: Time)

  function IsEngaged(): KillSwitch -> bool { (s: KillSwitch) => s.Engaged() }
  function EngagedAt(): KillSwitch -> int { (s: KillSwitch) => s.engagedAt }
  function ReleaseOf(switchId: Uuid, at: Time): KillSwitch -> KillSwitch {
    (s: KillSwitch) => if s.switchId == switchId && s.Engaged() then s.(releasedAt := Some(at)) else s
  }

  // `list_engaged`: the switches not released, oldest first.
  function ListEngaged(switches: seq<KillSwitch>): seq<KillSwitch> {
    SortBy(Filter(switches, IsEngaged()), EngagedAt())
  }

  function RegisteredIds(registry: seq<Source>): set<Uuid> { set s | s in registry :: s.Id() }

  // A run reads the registry and the switches once, from the snapshot its transaction opened on.
  function RunIn(w: World, e: Event): Run
    requires e.CheckRun?
  {
    Run(e.providerId, e.answers, ListEngaged(w.switches))
  }

  function Step(w: World, e: Event): World {
    match e
    case CheckRun(_, _, startedAt) =>
      w.(log := TableAfterRun(w.log, w.registry, RunIn(w, e), RegisteredIds(w.registry), startedAt))
    case EditRegistry(registry) => w.(registry := registry)
    case Engage(switch) => w.(switches := w.switches + [switch])
    case Release(switchId, at) => w.(switches := Map(w.switches, ReleaseOf(switchId, at)))
  }

  function After(w: World, events: seq<Event>): World {
    if events == [] then w else Step(After(w, events[..|events| - 1]), events[|events| - 1])
  }

  // ---- what justifies a stored row ----

  // The register, the switches and the provider as they stood when the row was appended allow it.
  ghost predicate JustifiedBy(row: Row, source: Source, providerId: Identifier, switches: seq<KillSwitch>) {
    && row.SourceId() == source.Id()
    && source.adapterId == Some(providerId)
    && row.obs.provenance.providerId == providerId
    && row.obs.provenance.policyVersionId == source.policy.policyVersionId
    && Granted(source, Retrieve, switches)
    && (row.obs.extraction in {Exact, Reviewed} ==> Granted(source, Parse, switches))
    && (row.obs.payloadRef != None ==> Granted(source, StoreRaw, switches))
    && (row.obs.contentHash != None ==> source.policy.rawPayload != Denied)
    && NoCredentialMarks(row.obs.provenance.source.url)
    && Query(row.obs.provenance.source.url) == "" && Fragment(row.obs.provenance.source.url) == ""
  }

  ghost predicate JustifiedAt(w: World, e: Event, row: Row) {
    && e.CheckRun?
    && row.recordedAt == e.startedAt
    && exists source :: source in w.registry && JustifiedBy(row, source, e.providerId, ListEngaged(w.switches))
                        && e.answers(source.identity) == Success(row.obs)
  }

  lemma AppendedRowsAreAdmitted(log: seq<Row>, observations: seq<SourceObservation>, registered: set<Uuid>,
                                recordedAt: Time)
    requires ValidLog(log)
    requires AppendAll(log, observations, registered, recordedAt).Some?
    ensures ValidLog(AppendAll(log, observations, registered, recordedAt).value)
    decreases observations
  {
    if observations != [] {
      AppendKeepsValid(log, observations[0], recordedAt);
      AppendedRowsAreAdmitted(log + [Row(observations[0], recordedAt)], observations[1..], registered, recordedAt);
    }
  }

  // One event only ever extends the table, keeps it valid, and justifies each row it adds.
  lemma StepIsSafe(w: World, e: Event, k: nat)
    requires ValidLog(w.log)
    ensures w.log <= Step(w, e).log && ValidLog(Step(w, e).log)
    ensures |w.log| <= k < |Step(w, e).log| ==> JustifiedAt(w, e, Step(w, e).log[k])
  {
    if e.CheckRun? {
      var run := RunIn(w, e);
      var stored := Accepted(w.registry, run);
      if AppendAll(w.log, stored, RegisteredIds(w.registry), e.startedAt).Some? {
        AppendedRows(w.log, stored, RegisteredIds(w.registry), e.startedAt);
        AppendedRowsAreAdmitted(w.log, stored, RegisteredIds(w.registry), e.startedAt);
        var after := Step(w, e).log;
        if |w.log| <= k < |after| {
          assert after[|w.log| + (k - |w.log|)] == Row(stored[k - |w.log|], e.startedAt);
          var i := AcceptedAreAnswers(w.registry, run, k - |w.log|);
          var source := w.registry[i];
          assert Admits(after[..k], after[k].obs);
          StoredRowIsJustified(source, run, after[k]);
        }
      }
    }
  }

  lemma StoredRowIsJustified(source: Source, run: Run, row: Row)
    requires RecordDecision(source, run) == Success(row.obs) && RowChecks(row.obs)
    ensures JustifiedBy(row, source, run.providerId, run.switches)
    ensures run.answers(source.identity) == Success(row.obs)
  {
    RecordedExactlyWhen(source, run);
    CredentialChecksDisagreeExactly(row.obs.provenance.source.url);
  }

  // Row k of the final table was added by event n, which justified it then, and is unchanged since.
  ghost predicate AddedBy(w: World, events: seq<Event>, k: nat, n: nat) {
    && n < |events|
    && |After(w, events[..n]).log| <= k < |After(w, events[..n + 1]).log|
    && After(w, events[..n + 1]).log <= After(w, events).log
    && JustifiedAt(After(w, events[..n]), events[n], After(w, events).log[k])
  }

  lemma AddedStaysAdded(w: World, front: seq<Event>, e: Event, k: nat, n: nat)
    requires AddedBy(w, front, k, n) && After(w, front).log <= After(w, front + [e]).log
    ensures AddedBy(w, front + [e], k, n)
  {
    assert (front + [e])[..n] == front[..n] && (front + [e])[..n + 1] == front[..n + 1];
  }

  lemma AddedByTheLast(w: World, front: seq<Event>, e: Event, k: nat)
    requires ValidLog(After(w, front).log)
    requires |After(w, front).log| <= k < |Step(After(w, front), e).log|
    ensures AddedBy(w, front + [e], k, |front|)
  {
    StepIsSafe(After(w, front), e, k);
    assert (front + [e])[..|front|] == front && (front + [e])[..|front| + 1] == front + [e];
  }

  // From any valid start, every row any history adds was added by one of its check runs, at a
  // moment when the register and the switches then in force authorised it; and nothing that was
  // ever stored is changed or removed.
  lemma {:induction false} HistoriesAreSafe(w: World, events: seq<Event>, k: nat) returns (n: nat)
    requires ValidLog(w.log)
    requires |w.log| <= k < |After(w, events).log|
    ensures AddedBy(w, events, k, n)
  {
    var front, e := events[..|events| - 1], events[|events| - 1];
    assert events == front + [e];
    HistoryExtends(w, front);
    StepIsSafe(After(w, front), e, k);
    if k < |After(w, front).log| {
      n := HistoriesAreSafe(w, front, k);
      AddedStaysAdded(w, front, e, k, n);
    } else {
      n := |front|;
      AddedByTheLast(w, front, e, k);
    }
  }

  // The table is only ever extended, and supersession stays well formed.
  lemma {:induction false} HistoryExtends(w: World, events: seq<Event>)
    requires ValidLog(w.log)
    ensures w.log <= After(w, events).log && ValidLog(After(w, events).log)
  {
    if events != [] {
      HistoryExtends(w, events[..|events| - 1]);
      StepIsSafe(After(w, events[..|events| - 1]), events[|events| - 1], 0);
    }
  }

  // ---- the switches and the register in force ----

  // What is listed for a run: every switch nobody released, as often as stored, oldest first.
  lemma ListedExactly(switches: seq<KillSwitch>)
    ensures forall x :: x in ListEngaged(switches) <==> x in switches && x.releasedAt == None
    ensures forall i, j :: 0 <= i < j < |ListEngaged(switches)| ==>
              ListEngaged(switches)[i].engagedAt <= ListEngaged(switches)[j].engagedAt
  {
    var engaged := Filter(switches, IsEngaged());
    SortMembers(engaged, EngagedAt());
    SortCorrect(engaged, EngagedAt());
    forall i, j | 0 <= i < j < |ListEngaged(switches)|
      ensures ListEngaged(switches)[i].engagedAt <= ListEngaged(switches)[j].engagedAt
    {
      assert EngagedAt()(ListEngaged(switches)[i]) <= EngagedAt()(ListEngaged(switches)[j]);
    }
  }

  ghost predicate Releases(e: Event, id: Uuid) { e.Release? && e.switchId == id }

  lemma StoredAfter(w: World, e: Event, x: KillSwitch)
    requires x.releasedAt == None
    ensures x in Step(w, e).switches <==>
            (x in w.switches && !Releases(e, x.switchId)) || e == Engage(x)
  {
    if e.Release? {
      var after := Step(w, e).switches;
      if x in w.switches && !Releases(e, x.switchId) {
        var i :| 0 <= i < |w.switches| && w.switches[i] == x;
        assert after[i] == x;
      }
      if x in after {
        var i :| 0 <= i < |after| && after[i] == x;
        assert after[i] == ReleaseOf(e.switchId, e.at)(w.switches[i]);
      }
    }
  }

  // What each event does to the switches that are listed and to the register: a switch counts from its
  // engagement until a release of its identifier, a release is a date on the stored switch and removes
  // none, and the register is the last one put in place.
  lemma StepSetsForce(w: World, e: Event, x: KillSwitch)
    ensures x in ListEngaged(Step(w, e).switches) <==>
            || (x in ListEngaged(w.switches) && !Releases(e, x.switchId))
            || (e == Engage(x) && x.releasedAt == None)
    ensures Step(w, e).registry == if e.EditRegistry? then e.registry else w.registry
    ensures |Step(w, e).switches| == |w.switches| + if e.Engage? then 1 else 0
    ensures forall i :: 0 <= i < |w.switches| ==>
              var was, now := w.switches[i], Step(w, e).switches[i];
              now == if Releases(e, was.switchId) && was.releasedAt == None then was.(releasedAt := Some(e.at)) else was
  {
    ListedExactly(w.switches);
    ListedExactly(Step(w, e).switches);
    if x.releasedAt == None {
      StoredAfter(w, e, x);
    }
  }

  ghost predicate NeverReleased(events: seq<Event>, id: Uuid) {
    forall i :: 0 <= i < |events| ==> !Releases(events[i], id)
  }

  lemma {:induction false} StaysInForce(w: World, s: KillSwitch, later: seq<Event>)
    requires s in ListEngaged(w.switches) && NeverReleased(later, s.switchId)
    ensures s in ListEngaged(After(w, later).switches)
  {
    if later != [] {
      var front, e := later[..|later| - 1], later[|later| - 1];
      StaysInForce(w, s, front);
      StepSetsForce(After(w, front), e, s);
    }
  }

  ghost predicate AllStopped(registry: seq<Source>, id: Uuid, s: KillSwitch) {
    forall source :: source in registry && source.identity.sourceId == id ==> Stops(s, source, Retrieve)
  }

  // While a switch is engaged, no run adds a row for an identifier whose every registered source it
  // stops: whatever else is engaged, released or edited meanwhile.
  lemma SwitchedOffSourceStaysSilent(w: World, s: KillSwitch, later: seq<Event>, id: Uuid, k: nat)
    requires ValidLog(w.log) && s.releasedAt == None && NeverReleased(later, s.switchId)
    requires |w.log| <= k < |After(Step(w, Engage(s)), later).log|
    requires forall n :: 0 <= n <= |later| ==>
               AllStopped(After(Step(w, Engage(s)), later[..n]).registry, id, s)
    ensures After(Step(w, Engage(s)), later).log[k].SourceId() != id
  {
    var now := Step(w, Engage(s));
    StepSetsForce(w, Engage(s), s);
    var n := HistoriesAreSafe(now, later, k);
    StaysInForce(now, s, later[..n]);
    var moment := After(now, later[..n]);
    var listed := ListEngaged(moment.switches);
    var i :| 0 <= i < |listed| && listed[i] == s;
    var row := After(now, later).log[k];
    var source :| source in moment.registry && JustifiedBy(row, source, later[n].providerId, listed);
    assert AllStopped(moment.registry, id, s);
  }

  // A released switch no longer counts: the gate then asks about the others only.
  lemma ReleasedNoLongerCounts(w: World, id: Uuid, at: Time, source: Source, mode: ProcessingMode)
    ensures Authorized(source, mode, ListEngaged(Step(w, Release(id, at)).switches)) <==>
            && (forall x :: x in w.switches && x.releasedAt == None && x.switchId != id ==> !Stops(x, source, mode))
            && source.enabled && Grants(source.policy, mode)
  {
    var after := ListEngaged(Step(w, Release(id, at)).switches);
    AuthorizedExactly(source, mode, after);
    ListedExactly(w.switches);
    forall x ensures x in after <==> x in w.switches && x.releasedAt == None && x.switchId != id {
      StepSetsForce(w, Release(id, at), x);
    }
    if Authorized(source, mode, after) {
      forall x | x in w.switches && x.releasedAt == None && x.switchId != id ensures !Stops(x, source, mode) {
        var i :| 0 <= i < |after| && after[i] == x;
      }
    }
  }

  // With observations that satisfy their own contract, a stored claim that nothing is published or
  // nothing is compatible was read successfully and interpreted while parsing was authorised.
  lemma AbsenceClaimsWereInterpreted(w: World, events: seq<Event>, k: nat)
    requires ValidLog(w.log)
    requires |w.log| <= k < |After(w, events).log|
    requires forall e, id :: e in events && e.CheckRun? && e.answers(id).Success? ==>
              e.answers(id).value.EvidenceConsistent()
    requires After(w, events).log[k].obs.state in {NoDepartures, NoCompatible}
    ensures exists n, source :: 0 <= n < |events| && events[n].CheckRun? && source in After(w, events[..n]).registry
              && source.Id() == After(w, events).log[k].SourceId()
              && Granted(source, Parse, ListEngaged(After(w, events[..n]).switches))
    ensures After(w, events).log[k].obs.retrieval.Succeeded?
  {
    var n := HistoriesAreSafe(w, events, k);
    var row := After(w, events).log[k];
    var moment := After(w, events[..n]);
    var e := events[n];
    var source :| source in moment.registry && JustifiedBy(row, source, e.providerId, ListEngaged(moment.switches))
                  && e.answers(source.identity) == Success(row.obs);
    assert e in events && e.answers(source.identity).Success?;
  }

  // Along a whole history a row that has been superseded is never current again, and every
  // observed source has exactly one current row.
  lemma CurrentnessAlongAHistory(w: World, events: seq<Event>, more: seq<Event>, r: Row, s: Uuid)
    requires ValidLog(w.log)
    ensures CurrentOf(After(w, events).log, s).Some? <==> s in SourcesIn(After(w, events).log)
    ensures IsSuperseded(After(w, events).log, r.Id()) ==> CurrentOf(After(After(w, events), more).log, s) != Some(r)
  {
    HistoryExtends(w, events);
    HistoryExtends(After(w, events), more);
    ExactlyOneCurrent(After(w, events).log, s);
    if IsSuperseded(After(w, events).log, r.Id()) {
      SupersededNeverReturns(After(w, events).log, After(After(w, events), more).log, r);
    }
  }
}
