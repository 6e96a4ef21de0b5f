// What a run leaves in the table: when it commits, when it aborts, and what more switches change.
module RunTables {
  import opened Wrappers
  import opened Sequences
  import opened Domain
  import opened Gate
  import opened ObservationLog
  import opened Pipeline
  import opened PipelineLaws

  // ---- the rows a run adds ----

  lemma RunGrows(log: seq<Row>, sources: seq<Source>, run: Run, registered: set<Uuid>, recordedAt: Time)
    ensures log <= TableAfterRun(log, sources, run, registered, recordedAt)
  {
    if RunTable(log, sources, run, registered, recordedAt).Some? {
      AppendedRows(log, Accepted(sources, run), registered, recordedAt);
    }
  }

  ghost function Added(log: seq<Row>, sources: seq<Source>, run: Run, registered: set<Uuid>, recordedAt: Time)
    : (rows: seq<Row>)
    ensures TableAfterRun(log, sources, run, registered, recordedAt) == log + rows
  {
    RunGrows(log, sources, run, registered, recordedAt);
    TableAfterRun(log, sources, run, registered, recordedAt)[|log|..]
  }

  function AsRow(recordedAt: Time): SourceObservation -> Row { (o: SourceObservation) => Row(o, recordedAt) }

  lemma AddedIsAccepted(log: seq<Row>, sources: seq<Source>, run: Run, registered: set<Uuid>, recordedAt: Time)
    ensures Added(log, sources, run, registered, recordedAt)
         == if RunTable(log, sources, run, registered, recordedAt).Some?
            then Map(Accepted(sources, run), AsRow(recordedAt)) else []
  {
    if RunTable(log, sources, run, registered, recordedAt).Some? {
      var after := RunTable(log, sources, run, registered, recordedAt).value;
      var stored := Accepted(sources, run);
      AppendedRows(log, stored, registered, recordedAt);
      forall k | 0 <= k < |stored| ensures after[|log|..][k] == Row(stored[k], recordedAt) {
        assert after[|log| + k] == Row(stored[k], recordedAt);
      }
    }
  }

  // ---- more switches ----

  lemma {:induction false} MappedSubsequence<S(!new), T(!new)>(a: seq<S>, b: seq<S>, f: S -> T)
    requires Subsequence(a, b)
    ensures Subsequence(Map(a, f), Map(b, f))
  {
    if a != [] {
      assert Map(b, f)[1..] == Map(b[1..], f);
      if a[0] == b[0] && Subsequence(a[1..], b[1..]) {
        assert Map(a, f)[1..] == Map(a[1..], f);
        MappedSubsequence(a[1..], b[1..], f);
      } else {
        MappedSubsequence(a, b[1..], f);
      }
    }
  }

  // For the same provider answers, more engaged switches add a subsequence of the rows exactly
  // unless the run with fewer switches is rolled back and the other commits something.
  lemma MoreSwitchesAddLess(log: seq<Row>, sources: seq<Source>, few: Run, many: Run, registered: set<Uuid>,
                            recordedAt: Time)
    requires few.providerId == many.providerId
    requires forall s :: s in sources ==> few.answers(s.identity) == many.answers(s.identity)
    requires forall s :: s in few.switches && s.Engaged() ==> s in many.switches
    ensures Subsequence(Added(log, sources, many, registered, recordedAt),
                        Added(log, sources, few, registered, recordedAt))
            <==>
            || RunTable(log, sources, few, registered, recordedAt).Some?
            || RunTable(log, sources, many, registered, recordedAt).None?
            || Accepted(sources, many) == []
  {
    AddedIsAccepted(log, sources, few, registered, recordedAt);
    AddedIsAccepted(log, sources, many, registered, recordedAt);
    MoreSwitchesAcceptLess(sources, few, many);
    MappedSubsequence(Accepted(sources, many), Accepted(sources, few), AsRow(recordedAt));
  }

  // ---- committing and aborting ----

  ghost predicate NewIds(log: seq<Row>, observations: seq<SourceObservation>) {
    && (forall i, k :: 0 <= i < |log| && 0 <= k < |observations| ==> log[i].Id() != observations[k].observationId)
    && forall j, k :: 0 <= j < k < |observations| ==> observations[j].observationId != observations[k].observationId
  }

  ghost predicate Plain(o: SourceObservation, registered: set<Uuid>) {
    RowChecks(o) && o.supersedes.None? && o.SourceId() in registered
  }

  lemma {:induction false} PlainRowsAllAppend(log: seq<Row>, observations: seq<SourceObservation>,
                                              registered: set<Uuid>, recordedAt: Time)
    requires NewIds(log, observations)
    requires forall k :: 0 <= k < |observations| ==> Plain(observations[k], registered)
    ensures AppendAll(log, observations, registered, recordedAt).Some?
    decreases observations
  {
    if observations != [] {
      var o, rest := observations[0], observations[1..];
      assert Plain(o, registered) && Admits(log, o);
      var more := log + [Row(o, recordedAt)];
      forall i, k | 0 <= i < |more| && 0 <= k < |rest| ensures more[i].Id() != rest[k].observationId {
        assert rest[k] == observations[k + 1];
      }
      PlainRowsAllAppend(more, rest, registered, recordedAt);
    }
  }

  lemma {:induction false} AppendedRowsPassTheirChecks(log: seq<Row>, observations: seq<SourceObservation>,
                                                       registered: set<Uuid>, recordedAt: Time)
    requires AppendAll(log, observations, registered, recordedAt).Some?
    ensures forall k :: 0 <= k < |observations| ==> RowChecks(observations[k])
    decreases observations
  {
    if observations != [] {
      AppendedRowsPassTheirChecks(log + [Row(observations[0], recordedAt)], observations[1..], registered, recordedAt);
      forall k | 0 <= k < |observations| ensures RowChecks(observations[k]) {
        assert k == 0 || observations[k] == observations[1..][k - 1];
      }
    }
  }

  ghost predicate AddressEndsBare(o: SourceObservation) { exists page :: EndsBare(o.provenance.source.url, page) }

  // An accepted observation with nothing else wrong fails the table's CHECKs exactly when its
  // address ends in a bare mark.
  lemma AcceptedChecks(sources: seq<Source>, run: Run, k: nat)
    requires k < |Accepted(sources, run)| && Accepted(sources, run)[k].EvidenceConsistent()
    ensures RowChecks(Accepted(sources, run)[k]) <==> !AddressEndsBare(Accepted(sources, run)[k])
  {
    var i := AcceptedAreAnswers(sources, run, k);
    CredentialChecksDisagreeExactly(Accepted(sources, run)[k].provenance.source.url);
  }

  // When the accepted observations meet their own contract, are registered, carry new identifiers
  // and supersede nothing, a run is rolled back exactly when one of their addresses ends bare.
  lemma RunAbortsExactly(log: seq<Row>, sources: seq<Source>, run: Run, registered: set<Uuid>, recordedAt: Time)
    requires NewIds(log, Accepted(sources, run))
    requires forall k :: 0 <= k < |Accepted(sources, run)| ==>
               var o := Accepted(sources, run)[k];
               o.EvidenceConsistent() && o.supersedes.None? && o.SourceId() in registered
    ensures RunTable(log, sources, run, registered, recordedAt).None? <==>
            exists k :: 0 <= k < |Accepted(sources, run)| && AddressEndsBare(Accepted(sources, run)[k])
  {
    var stored := Accepted(sources, run);
    forall k | 0 <= k < |stored| ensures RowChecks(stored[k]) <==> !AddressEndsBare(stored[k]) {
      AcceptedChecks(sources, run, k);
    }
    if RunTable(log, sources, run, registered, recordedAt).Some? {
      AppendedRowsPassTheirChecks(log, stored, registered, recordedAt);
    }
    if forall k :: 0 <= k < |stored| ==> !AddressEndsBare(stored[k]) {
      PlainRowsAllAppend(log, stored, registered, recordedAt);
    }
  }

  // ---- a run that aborts, and commits once a switch is engaged ----

  function OpenPolicy(): Policy {
    Policy("p", Approved, true, true, false, true, false, HashOnly, None, Some("r"), Some(0))
  }

  function OpenSource(id: Uuid): Source {
    Source(SourceIdentity(id, "u", "a"), "n", TerminalPage, None, true, None, Some("f"), None, OpenPolicy(), 0, 0)
  }

  function ReadAs(id: Uuid, url: Url): SourceObservation {
    SourceObservation(id, Provenance(SourceIdentity(id, url, "a"), 0, None, "f", "p"), Fresh, Succeeded,
                      ExtractionNotAttempted, None, None, ["r"], None, None)
  }

  function TwoAnswers(): SourceIdentity -> Result<SourceObservation> {
    (who: SourceIdentity) => Success(ReadAs(who.sourceId, if who.sourceId == 2 then "u?" else "u"))
  }

  function StopTwo(): KillSwitch { KillSwitch(9, SourceScope, UuidText(2), "r", 0, None) }

  lemma OpenSourceIsAccepted(id: Uuid, run: Run)
    requires run.providerId == "f" && run.answers == TwoAnswers()
    ensures if EngagedSwitch(OpenSource(id), Retrieve, run.switches).Some?
            then RecordDecision(OpenSource(id), run).Failure?
            else RecordDecision(OpenSource(id), run) == run.answers(OpenSource(id).identity)
  {
    BareMarksCarryNothing("u", "u?");
    AbsentMark("u", '#');
    AbsentMark("u", '?');
    assert !CarriesCredentials("u") && !CarriesCredentials("u?");
  }

  lemma AcceptedOfTwo(a: Source, b: Source, run: Run)
    ensures Accepted([a, b], run)
         == (if RecordDecision(a, run).Success? then [RecordDecision(a, run).value] else [])
            + (if RecordDecision(b, run).Success? then [RecordDecision(b, run).value] else [])
  {
    assert [a, b] == [a] + [b];
    AcceptedConcat([a], [b], run);
    assert Map([a], DecisionIn(run)) == [RecordDecision(a, run)]
           && Map([b], DecisionIn(run)) == [RecordDecision(b, run)];
    SuccessesOfOne(RecordDecision(a, run));
    SuccessesOfOne(RecordDecision(b, run));
  }

  function RunWith(switches: seq<KillSwitch>): Run { Run("f", TwoAnswers(), switches) }

  lemma AcceptedWithoutSwitch()
    ensures Accepted([OpenSource(1), OpenSource(2)], RunWith([])) == [ReadAs(1, "u"), ReadAs(2, "u?")]
  {
    OpenSourceIsAccepted(1, RunWith([]));
    OpenSourceIsAccepted(2, RunWith([]));
    AcceptedOfTwo(OpenSource(1), OpenSource(2), RunWith([]));
  }

  lemma AcceptedWithSwitch()
    ensures Accepted([OpenSource(1), OpenSource(2)], RunWith([StopTwo()])) == [ReadAs(1, "u")]
  {
    var run := RunWith([StopTwo()]);
    OpenSourceIsAccepted(1, run);
    OpenSourceIsAccepted(2, run);
    SourceSwitchIsExact(StopTwo(), 2, OpenSource(1), Retrieve);
    SourceSwitchIsExact(StopTwo(), 2, OpenSource(2), Retrieve);
    assert run.switches[0] == StopTwo();
    AcceptedOfTwo(OpenSource(1), OpenSource(2), run);
  }

  lemma BareAddressAborts(o: SourceObservation, bare: SourceObservation, registered: set<Uuid>)
    requires RowChecks(o) && o.supersedes.None? && o.SourceId() in registered && '?' in bare.provenance.source.url
    ensures AppendAll([], [o, bare], registered, 0).None?
    ensures AppendAll([], [o], registered, 0) == Some([Row(o, 0)])
  {
    assert [] + [Row(o, 0)] == [Row(o, 0)];
    assert [o, bare][1..] == [bare];
  }

  // Two pages with consistent answers. Without a switch the second one's address aborts the run and
  // nothing is stored; with a switch on the second, the first is stored.
  lemma ASwitchCanStoreMore()
    ensures var sources := [OpenSource(1), OpenSource(2)];
            && Accepted(sources, RunWith([])) == [ReadAs(1, "u"), ReadAs(2, "u?")]
            && ReadAs(1, "u").EvidenceConsistent() && ReadAs(2, "u?").EvidenceConsistent()
            && TableAfterRun([], sources, RunWith([]), {1, 2}, 0) == []
            && TableAfterRun([], sources, RunWith([StopTwo()]), {1, 2}, 0) == [Row(ReadAs(1, "u"), 0)]
  {
    AcceptedWithoutSwitch();
    AcceptedWithSwitch();
    assert "u?"[1] == '?';
    BareAddressAborts(ReadAs(1, "u"), ReadAs(2, "u?"), {1, 2});
  }
}
