// What a run may store, what it reports, and how switches change it.
module PipelineLaws {
  import opened Wrappers
  import opened Sequences
  import opened Domain
  import opened Gate
  import opened ObservationLog
  import opened Pipeline

  // ---- what passes validation ----

  // Everything the register demands of a returned observation, as one condition.
  ghost predicate Permitted(source: Source, o: SourceObservation, switches: seq<KillSwitch>) {
    && o.SourceId() == source.Id()
    && o.provenance.policyVersionId == source.policy.policyVersionId
    && Query(o.provenance.source.url) == "" && Fragment(o.provenance.source.url) == ""
    && KeepsOnlyGranted(source, o, switches)
  }

  // A mode that is not granted is refused as switched off or as denied by the policy.
  lemma ModeDenialExactly(source: Source, mode: ProcessingMode, switches: seq<KillSwitch>, policyKey: Identifier)
    ensures ModeDenial(source, mode, switches, policyKey)
         == if Granted(source, mode, switches) then None
            else
              var key := if SomeStops(source, mode, switches) then "source.kill_switch_engaged" else policyKey;
              Some(ApplicationError(Forbidden, key, false))
  {
    AuthorizedExactly(source, mode, switches);
    SwitchedOffExactly(source, mode, switches);
  }

  ghost predicate SomeStops(source: Source, mode: ProcessingMode, switches: seq<KillSwitch>) {
    exists i :: 0 <= i < |switches| && Stops(switches[i], source, mode)
  }

  // What an observation may keep: a payload, an interpretation or a hash only as the register grants it.
  ghost predicate KeepsOnlyGranted(source: Source, o: SourceObservation, switches: seq<KillSwitch>) {
    && (o.payloadRef != None ==> Granted(source, StoreRaw, switches))
    && (o.extraction in {Exact, Reviewed} ==> Granted(source, Parse, switches))
    && (o.contentHash != None ==> source.policy.rawPayload != Denied)
  }

  lemma EvidenceDenialExactly(source: Source, o: SourceObservation, switches: seq<KillSwitch>)
    ensures EvidenceDenial(source, o, switches).None? <==> KeepsOnlyGranted(source, o, switches)
    ensures EvidenceDenial(source, o, switches).Some? ==> EvidenceDenial(source, o, switches).value.code == Forbidden
  {
    ModeDenialExactly(source, StoreRaw, switches, "source.raw_payload_denied");
    ModeDenialExactly(source, Parse, switches, "source.parse_denied");
  }

  lemma ValidationIsPermission(source: Source, o: SourceObservation, switches: seq<KillSwitch>)
    ensures ValidateAgainstPolicy(source, o, switches).None? <==> Permitted(source, o, switches)
    ensures ValidateAgainstPolicy(source, o, switches).Some? ==>
              var code := ValidateAgainstPolicy(source, o, switches).value.code; code.Forbidden? || code.InvalidInput?
  {
    EvidenceDenialExactly(source, o, switches);
  }

  // An observation is recorded exactly when retrieval was authorised, the provider is the
  // registered adapter, it answered, and its answer is its own and permitted.
  lemma RecordedExactlyWhen(source: Source, run: Run)
    ensures RecordDecision(source, run).Success? <==>
              && Granted(source, Retrieve, run.switches)
              && source.adapterId == Some(run.providerId)
              && run.answers(source.identity).Success?
              && run.answers(source.identity).value.provenance.providerId == run.providerId
              && Permitted(source, run.answers(source.identity).value, run.switches)
    ensures RecordDecision(source, run).Success? ==> RecordDecision(source, run) == run.answers(source.identity)
  {
    AuthorizedExactly(source, Retrieve, run.switches);
    if run.answers(source.identity).Success? {
      ValidationIsPermission(source, run.answers(source.identity).value, run.switches);
    }
  }

  // ---- the four outcomes ----

  ghost predicate AskedAbout(source: Source, run: Run) {
    Granted(source, Retrieve, run.switches) && source.adapterId == Some(run.providerId)
  }

  ghost predicate RefusalCode(e: ApplicationError) { e.code in {Forbidden, InvalidInput} }

  // The provider's answer is refused: not its own, or against the register.
  ghost predicate AnswerRefused(source: Source, run: Run) {
    var answer := run.answers(source.identity);
    answer.Success? && !(answer.value.provenance.providerId == run.providerId
                         && Permitted(source, answer.value, run.switches))
  }

  lemma SkippedExactly(source: Source, run: Run)
    ensures SkipReason(source, run.providerId, run.switches).None? <==> AskedAbout(source, run)
    ensures !AskedAbout(source, run) ==>
              && SkipReason(source, run.providerId, run.switches).Some?
              && SkippedFor(source, run, SkipReason(source, run.providerId, run.switches).value)
    ensures !AskedAbout(source, run) ==>
              && RecordDecision(source, run).Failure? && !RecordDecision(source, run).error.retryable
              && SkippedFor(source, run, RecordDecision(source, run).error.messageKey)
              && RecordDecision(source, run).error.code
                 == if Granted(source, Retrieve, run.switches) then InvalidInput else Forbidden
  {
    AuthorizedExactly(source, Retrieve, run.switches);
    if !Authorized(source, Retrieve, run.switches) {
      RefusalSaysWhy(source, Retrieve, run.switches);
    }
  }

  // Why a source is not asked about: the gate's reason, or an adapter that is not this provider.
  ghost predicate SkippedFor(source: Source, run: Run, reason: Identifier) {
    if Granted(source, Retrieve, run.switches) then reason == "source_provider.identity_mismatch"
    else RefusedFor(source, Retrieve, run.switches, reason)
  }

  // Skipped is exactly "the provider was not asked". Otherwise the error code decides: a refusal of
  // what came back is Rejected, and so is a provider failure that carries one of those two codes.
  lemma OutcomeKinds(source: Source, run: Run)
    ensures var out, answer := CheckOutcome(source, run), run.answers(source.identity);
            && out.sourceId == source.Id()
            && (out.kind.Skipped? <==> !AskedAbout(source, run))
            && (out.kind.Rejected? <==>
                (AskedAbout(source, run)
                 && (AnswerRefused(source, run) || (answer.Failure? && RefusalCode(answer.error)))))
            && (out.kind.ProviderFailure? <==>
                (AskedAbout(source, run) && answer.Failure? && !RefusalCode(answer.error)))
            && (out.kind.Recorded? <==> RecordDecision(source, run).Success?)
            && (out.state.Some? <==> out.kind.Recorded?) && (out.messageKey.None? <==> out.kind.Recorded?)
            && (out.kind.Recorded? ==> answer.Success? && out.state == Some(answer.value.state))
  {
    SkippedExactly(source, run);
    RecordedExactlyWhen(source, run);
    AuthorizedExactly(source, Retrieve, run.switches);
    if run.answers(source.identity).Success? {
      ValidationIsPermission(source, run.answers(source.identity).value, run.switches);
    }
  }

  // ---- the reason given ----

  // Which of the register's demands an answer fails first, by its place in the order of the checks.
  ghost function FirstFailure(source: Source, o: SourceObservation, run: Run): nat {
    if o.provenance.providerId != run.providerId then 0
    else if o.SourceId() != source.Id() then 1
    else if o.provenance.policyVersionId != source.policy.policyVersionId then 2
    else if Query(o.provenance.source.url) != "" || Fragment(o.provenance.source.url) != "" then 3
    else if o.payloadRef != None && !Granted(source, StoreRaw, run.switches) then 4
    else if o.extraction in {Exact, Reviewed} && !Granted(source, Parse, run.switches) then 5
    else if o.contentHash != None && source.policy.rawPayload == Denied then 6
    else 7
  }

  ghost predicate RejectedFor(source: Source, o: SourceObservation, run: Run, reason: Identifier) {
    var failed := FirstFailure(source, o, run);
    && (failed == 0 ==> reason == "source.observation_provider_mismatch")
    && (failed == 1 ==> reason == "source.observation_identity_mismatch")
    && (failed == 2 ==> reason == "source.observation_policy_mismatch")
    && (failed == 3 ==> reason == "source.url_carries_credentials")
    && (failed == 4 ==> reason == if SomeStops(source, StoreRaw, run.switches) then "source.kill_switch_engaged"
                                  else "source.raw_payload_denied")
    && (failed == 5 ==> reason == if SomeStops(source, Parse, run.switches) then "source.kill_switch_engaged"
                                  else "source.parse_denied")
    && (failed == 6 ==> reason == "source.raw_hash_denied")
  }

  lemma EvidenceDenialSaysWhy(source: Source, o: SourceObservation, run: Run)
    requires FirstFailure(source, o, run) in {4, 5, 6}
    ensures var e := EvidenceDenial(source, o, run.switches);
            && e.Some? && RejectedFor(source, o, run, e.value.messageKey) && !e.value.retryable
            && e.value.code == Forbidden
  {
    ModeDenialExactly(source, StoreRaw, run.switches, "source.raw_payload_denied");
    ModeDenialExactly(source, Parse, run.switches, "source.parse_denied");
  }

  lemma ValidationSaysWhy(source: Source, o: SourceObservation, run: Run)
    requires FirstFailure(source, o, run) in {1, 2, 3, 4, 5, 6}
    ensures var e := ValidateAgainstPolicy(source, o, run.switches);
            && e.Some? && RejectedFor(source, o, run, e.value.messageKey) && !e.value.retryable
            && e.value.code == if FirstFailure(source, o, run) in {1, 2} then InvalidInput else Forbidden
  {
    if FirstFailure(source, o, run) in {4, 5, 6} {
      EvidenceDenialSaysWhy(source, o, run);
    }
  }

  // Every outcome but Recorded carries the reason: why the source was not asked about, which demand of
  // the register the answer failed first, or what the provider said.
  lemma OutcomeSaysWhy(source: Source, run: Run)
    requires CheckOutcome(source, run).messageKey.Some?
    ensures var reason, answer := CheckOutcome(source, run).messageKey.value, run.answers(source.identity);
            && (!AskedAbout(source, run) ==> SkippedFor(source, run, reason))
            && (AskedAbout(source, run) && answer.Failure? ==> reason == answer.error.messageKey)
            && (AskedAbout(source, run) && answer.Success? ==> RejectedFor(source, answer.value, run, reason))
  {
    SkippedExactly(source, run);
    OutcomeKinds(source, run);
    AuthorizedExactly(source, Retrieve, run.switches);
    if AskedAbout(source, run) && run.answers(source.identity).Success? {
      RejectionSaysWhy(source, run.answers(source.identity).value, run);
    }
  }

  lemma RejectionSaysWhy(source: Source, o: SourceObservation, run: Run)
    requires AskedAbout(source, run) && run.answers(source.identity) == Success(o)
    ensures RecordDecision(source, run).Failure? ==>
              var e := RecordDecision(source, run).error;
              && RejectedFor(source, o, run, e.messageKey) && !e.retryable
              && e.code == if FirstFailure(source, o, run) in {0, 1, 2} then InvalidInput else Forbidden
  {
    AuthorizedExactly(source, Retrieve, run.switches);
    if o.provenance.providerId == run.providerId && FirstFailure(source, o, run) != 7 {
      ValidationSaysWhy(source, o, run);
    }
  }

  // ---- conservation ----

  // Each stored observation is the answer for one of the sources, with that source's new identifier.
  lemma AcceptedAreAnswers(sources: seq<Source>, run: Run, k: nat) returns (i: nat)
    requires k < |Accepted(sources, run)|
    ensures i < |sources| && RecordDecision(sources[i], run) == Success(Accepted(sources, run)[k]) && k <= i
  {
    i := SuccessCameFrom(Map(sources, DecisionIn(run)), k);
  }

  lemma {:induction false} SuccessCameFrom<T>(results: seq<Result<T>>, k: nat) returns (i: nat)
    requires k < |Successes(results)|
    ensures k <= i < |results| && results[i] == Success(Successes(results)[k])
  {
    var rest := results[1..];
    if results[0].Success? {
      i := 0;
      if k > 0 {
        i := SuccessCameFrom(rest, k - 1);
        i := i + 1;
      }
    } else {
      i := SuccessCameFrom(rest, k);
      i := i + 1;
    }
  }

  function IsRecorded(): Outcome -> bool { (o: Outcome) => o.kind.Recorded? }
  function AsOutcome(): SourceObservation -> Outcome {
    (o: SourceObservation) => Outcome(o.SourceId(), Recorded, None, Some(o.state))
  }

  lemma {:induction false} AppendedRows(log: seq<Row>, observations: seq<SourceObservation>, registered: set<Uuid>,
                                        recordedAt: Time)
    requires AppendAll(log, observations, registered, recordedAt).Some?
    ensures var after := AppendAll(log, observations, registered, recordedAt).value;
            && |after| == |log| + |observations| && after[..|log|] == log
            && forall k :: 0 <= k < |observations| ==> after[|log| + k] == Row(observations[k], recordedAt)
    decreases observations
  {
    if observations != [] {
      var more := log + [Row(observations[0], recordedAt)];
      var after := AppendAll(log, observations, registered, recordedAt).value;
      AppendedRows(more, observations[1..], registered, recordedAt);
      assert after[..|more|] == more;
      forall k | 0 <= k < |observations| ensures after[|log| + k] == Row(observations[k], recordedAt) {
        if k == 0 {
          assert after[..|more|][|log|] == more[|log|];
        } else {
          assert after[|more| + (k - 1)] == Row(observations[1..][k - 1], recordedAt);
        }
      }
      assert after[..|log|] == after[..|more|][..|log|];
    }
  }

  // A step that succeeds exactly where its report says so, and then reports its result.
  lemma {:induction false} ReportedResults<S(!new), T, U(!new)>(xs: seq<S>, report: S -> U, step: S -> Result<T>,
                                                                succeeded: U -> bool, shown: T -> U)
    requires forall i :: 0 <= i < |xs| ==> (succeeded(report(xs[i])) <==> step(xs[i]).Success?)
    requires forall i :: 0 <= i < |xs| && step(xs[i]).Success? ==> report(xs[i]) == shown(step(xs[i]).value)
    ensures Filter(Map(xs, report), succeeded) == Map(Successes(Map(xs, step)), shown)
  {
    if xs != [] {
      ReportedResults(xs[1..], report, step, succeeded, shown);
      assert Map(xs, report)[1..] == Map(xs[1..], report) && Map(xs, step)[1..] == Map(xs[1..], step);
    }
  }

  lemma RecordedOutcome(s: Source, run: Run)
    ensures IsRecorded()(OutcomeIn(run)(s)) <==> DecisionIn(run)(s).Success?
    ensures DecisionIn(run)(s).Success? ==> OutcomeIn(run)(s) == AsOutcome()(DecisionIn(run)(s).value)
  {
    OutcomeKinds(s, run);
    RecordedExactlyWhen(s, run);
  }

  lemma RecordedOutcomes(sources: seq<Source>, run: Run)
    ensures Filter(Map(sources, OutcomeIn(run)), IsRecorded()) == Map(Accepted(sources, run), AsOutcome())
  {
    forall i | 0 <= i < |sources|
      ensures IsRecorded()(OutcomeIn(run)(sources[i])) <==> DecisionIn(run)(sources[i]).Success?
      ensures DecisionIn(run)(sources[i]).Success? ==>
                OutcomeIn(run)(sources[i]) == AsOutcome()(DecisionIn(run)(sources[i]).value)
    {
      RecordedOutcome(sources[i], run);
    }
    ReportedResults(sources, OutcomeIn(run), DecisionIn(run), IsRecorded(), AsOutcome());
  }

  function StoredOutcome(): Row -> Outcome { (r: Row) => Outcome(r.SourceId(), Recorded, None, Some(r.obs.state)) }

  // A run that completes yields one outcome per source in registry order and appends exactly the
  // rows it reports as recorded, in that order, leaving what was there as it was.
  lemma RunIsConserved(log: seq<Row>, sources: seq<Source>, run: Run, registered: set<Uuid>, recordedAt: Time)
    requires RunTable(log, sources, run, registered, recordedAt).Some?
    ensures var after := RunTable(log, sources, run, registered, recordedAt).value;
            var outcomes := Map(sources, OutcomeIn(run));
            && |outcomes| == |sources|
            && (forall i :: 0 <= i < |sources| ==> outcomes[i].sourceId == sources[i].Id())
            && |log| <= |after| && after[..|log|] == log
            && Map(after[|log|..], StoredOutcome()) == Filter(outcomes, IsRecorded())
            && forall i :: |log| <= i < |after| ==> after[i].recordedAt == recordedAt
  {
    var stored := Accepted(sources, run);
    AppendedRows(log, stored, registered, recordedAt);
    RecordedOutcomes(sources, run);
    forall i | 0 <= i < |sources| ensures OutcomeIn(run)(sources[i]).sourceId == sources[i].Id() {
      OutcomeKinds(sources[i], run);
    }
    var after := RunTable(log, sources, run, registered, recordedAt).value;
    forall i | |log| <= i < |after| ensures after[i] == Row(stored[i - |log|], recordedAt) {
      assert after[|log| + (i - |log|)] == Row(stored[i - |log|], recordedAt);
    }
    assert Map(after[|log|..], StoredOutcome()) == Map(stored, AsOutcome());
  }

  // ---- more switches ----

  ghost predicate Subsequence<T>(a: seq<T>, b: seq<T>) {
    a == [] || (b != [] && ((a[0] == b[0] && Subsequence(a[1..], b[1..])) || Subsequence(a, b[1..])))
  }

  lemma MoreSwitchesDecideLess(source: Source, few: Run, many: Run)
    requires few.providerId == many.providerId
    requires few.answers(source.identity) == many.answers(source.identity)
    requires forall s :: s in few.switches && s.Engaged() ==> s in many.switches
    ensures RecordDecision(source, many).Success? ==> RecordDecision(source, few) == RecordDecision(source, many)
  {
    RecordedExactlyWhen(source, few);
    RecordedExactlyWhen(source, many);
    MoreSwitchesForbidMore(source, Retrieve, few.switches, many.switches);
    MoreSwitchesForbidMore(source, StoreRaw, few.switches, many.switches);
    MoreSwitchesForbidMore(source, Parse, few.switches, many.switches);
    forall mode ensures Authorized(source, mode, few.switches) <==> Granted(source, mode, few.switches) {
      AuthorizedExactly(source, mode, few.switches);
    }
    forall mode ensures Authorized(source, mode, many.switches) <==> Granted(source, mode, many.switches) {
      AuthorizedExactly(source, mode, many.switches);
    }
  }

  // For the same provider answers, engaging more switches only removes observations from those that are
  // accepted for the table.
  lemma {:induction false} MoreSwitchesAcceptLess(sources: seq<Source>, few: Run, many: Run)
    requires few.providerId == many.providerId
    requires forall s :: s in sources ==> few.answers(s.identity) == many.answers(s.identity)
    requires forall s :: s in few.switches && s.Engaged() ==> s in many.switches
    ensures Subsequence(Accepted(sources, many), Accepted(sources, few))
  {
    if sources != [] {
      var s, rest := sources[0], sources[1..];
      MoreSwitchesAcceptLess(rest, few, many);
      MoreSwitchesDecideLess(s, few, many);
      assert Map(sources, DecisionIn(few))[1..] == Map(rest, DecisionIn(few));
      assert Map(sources, DecisionIn(many))[1..] == Map(rest, DecisionIn(many));
      if RecordDecision(s, few).Success? {
        var o := RecordDecision(s, few).value;
        assert Accepted(sources, few) == [o] + Accepted(rest, few);
        assert ([o] + Accepted(rest, few))[1..] == Accepted(rest, few);
        if RecordDecision(s, many).Success? {
          assert ([o] + Accepted(rest, many))[1..] == Accepted(rest, many);
        }
      }
    }
  }
}
