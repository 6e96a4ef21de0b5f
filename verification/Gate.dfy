// The single gate every processing step passes
// (apps/api/paxpivot/application/source_gate.py).
module Gate {
  import opened Wrappers
  import opened Domain
  import opened Digits

  datatype Authorization = Authorization(sourceId: Uuid, mode: ProcessingMode, policyVersionId: Identifier)

  // `str(uuid)`: 32 lower-case hexadecimal digits, grouped 8-4-4-4-12.
  function UuidText(u: Uuid): string {
    var hex := HexText(u, 32);
    hex[..8] + "-" + hex[8..12] + "-" + hex[12..16] + "-" + hex[16..20] + "-" + hex[20..]
  }

  predicate Covers(switch: KillSwitch, source: Source, mode: ProcessingMode) {
    && switch.Engaged()
    && match switch.scope
       case SourceScope => switch.key == UuidText(source.Id())
       case AdapterScope => source.adapterId == Some(switch.key)
       case ModeScope => switch.key == ModeValue(mode)
  }

  // The first engaged switch that covers this source, its adapter or this mode.
  function EngagedSwitch(source: Source, mode: ProcessingMode, switches: seq<KillSwitch>): (r: Option<KillSwitch>)
    ensures r.Some? <==> exists s :: s in switches && Covers(s, source, mode)
    ensures r.Some? ==> r.value in switches && Covers(r.value, source, mode)
  {
    if switches == [] then None
    else if Covers(switches[0], source, mode) then Some(switches[0])
    else EngagedSwitch(source, mode, switches[1..])
  }

  function ForbiddenBy(messageKey: Identifier): Result<Authorization> {
    Failure(ApplicationError(Forbidden, messageKey, false))
  }

  function AuthorizeProcessing(source: Source, mode: ProcessingMode, switches: seq<KillSwitch>): Result<Authorization> {
    if EngagedSwitch(source, mode, switches).Some? then ForbiddenBy("source.kill_switch_engaged")
    else if !source.enabled then ForbiddenBy("source.disabled")
    else if source.policy.Allows(mode) then
      Success(Authorization(source.Id(), mode, source.policy.policyVersionId))
    else if source.policy.reviewState.Restricted? then ForbiddenBy("source.restricted")
    else if source.policy.reviewState.Paused? then ForbiddenBy("source.paused")
    else if !source.policy.reviewState.Approved? then ForbiddenBy("source.not_approved")
    else ForbiddenBy("source.policy_denies_mode")
  }

  predicate Authorized(source: Source, mode: ProcessingMode, switches: seq<KillSwitch>) {
    AuthorizeProcessing(source, mode, switches).Success?
  }

  // ---- laws ----

  // The switch reported is the first in the list that covers the step.
  lemma {:induction false} EngagedSwitchIsFirst(source: Source, mode: ProcessingMode, switches: seq<KillSwitch>)
    returns (i: nat)
    requires EngagedSwitch(source, mode, switches).Some?
    ensures i < |switches| && EngagedSwitch(source, mode, switches) == Some(switches[i])
    ensures forall j :: 0 <= j < i ==> !Covers(switches[j], source, mode)
  {
    i := 0;
    if !Covers(switches[0], source, mode) {
      i := EngagedSwitchIsFirst(source, mode, switches[1..]);
      i := i + 1;
    }
  }

  // ---- what the gate decides, in the register's own fields ----

  // The wire value of a mode, as an operator writes it.
  ghost predicate NamesMode(key: string, mode: ProcessingMode) {
    || (mode == Retrieve && key == "retrieve") || (mode == Parse && key == "parse")
    || (mode == StoreRaw && key == "store_raw") || (mode == Summarize && key == "summarize")
    || (mode == Display && key == "display") || (mode == AggregateHistory && key == "aggregate_history")
  }

  // A switch nobody released names this source, its adapter or this mode.
  ghost predicate Stops(switch: KillSwitch, source: Source, mode: ProcessingMode) {
    && switch.releasedAt == None
    && (|| (switch.scope == SourceScope && switch.key == UuidText(source.identity.sourceId))
        || (switch.scope == AdapterScope && Some(switch.key) == source.adapterId)
        || (switch.scope == ModeScope && NamesMode(switch.key, mode)))
  }

  // A source nobody approved may at most be retrieved; an approved one has a flag for each mode.
  ghost predicate Grants(policy: Policy, mode: ProcessingMode) {
    || (policy.reviewState == NeedsReview && mode == Retrieve && policy.mayRetrieve)
    || (policy.reviewState == Approved
        && (|| (mode == Retrieve && policy.mayRetrieve) || (mode == Parse && policy.mayParse)
            || (mode == StoreRaw && policy.rawPayload == Snapshot) || (mode == Summarize && policy.maySummarize)
            || (mode == Display && policy.mayDisplay) || (mode == AggregateHistory && policy.mayAggregate)))
  }

  ghost predicate Granted(source: Source, mode: ProcessingMode, switches: seq<KillSwitch>) {
    && (forall i :: 0 <= i < |switches| ==> !Stops(switches[i], source, mode))
    && source.enabled && Grants(source.policy, mode)
  }

  lemma CoversAsItStops(switch: KillSwitch, source: Source, mode: ProcessingMode)
    ensures Covers(switch, source, mode) <==> Stops(switch, source, mode)
  {
  }

  lemma AllowsAsItGrants(policy: Policy, mode: ProcessingMode)
    ensures policy.Allows(mode) <==> Grants(policy, mode)
  {
  }

  lemma SwitchedOffExactly(source: Source, mode: ProcessingMode, switches: seq<KillSwitch>)
    ensures EngagedSwitch(source, mode, switches).Some? <==>
            exists i :: 0 <= i < |switches| && Stops(switches[i], source, mode)
  {
    forall s | s in switches ensures Covers(s, source, mode) <==> Stops(s, source, mode) {
      CoversAsItStops(s, source, mode);
    }
  }

  // A step is authorised exactly when no listed switch stops it, the source is enabled, and the
  // policy grants the mode; the authorisation then names the source, the mode and the policy version.
  lemma AuthorizedExactly(source: Source, mode: ProcessingMode, switches: seq<KillSwitch>)
    ensures Authorized(source, mode, switches) <==> Granted(source, mode, switches)
    ensures Authorized(source, mode, switches) ==>
              AuthorizeProcessing(source, mode, switches)
              == Success(Authorization(source.identity.sourceId, mode, source.policy.policyVersionId))
  {
    SwitchedOffExactly(source, mode, switches);
    AllowsAsItGrants(source.policy, mode);
  }

  // The reason of a refusal, in the fixed order of the checks.
  ghost predicate RefusedFor(source: Source, mode: ProcessingMode, switches: seq<KillSwitch>, reason: Identifier) {
    var state := source.policy.reviewState;
    if exists i :: 0 <= i < |switches| && Stops(switches[i], source, mode) then reason == "source.kill_switch_engaged"
    else if !source.enabled then reason == "source.disabled"
    else
      && (state == Restricted ==> reason == "source.restricted") && (state == Paused ==> reason == "source.paused")
      && (state == NeedsReview ==> reason == "source.not_approved")
      && (state == Approved ==> reason == "source.policy_denies_mode")
  }

  // Every refusal is forbidden, final, and says which check failed first.
  lemma RefusalSaysWhy(source: Source, mode: ProcessingMode, switches: seq<KillSwitch>)
    requires !Authorized(source, mode, switches)
    ensures var e := AuthorizeProcessing(source, mode, switches).error;
            e.code == Forbidden && !e.retryable && RefusedFor(source, mode, switches, e.messageKey)
  {
    SwitchedOffExactly(source, mode, switches);
    AllowsAsItGrants(source.policy, mode);
  }

  // Engaging more switches, in whatever order they are listed, only ever forbids more.
  lemma MoreSwitchesForbidMore(source: Source, mode: ProcessingMode, few: seq<KillSwitch>, many: seq<KillSwitch>)
    requires forall s :: s in few && s.Engaged() ==> s in many
    ensures Authorized(source, mode, many) ==> Authorized(source, mode, few)
    ensures Authorized(source, mode, many) <==>
            Authorized(source, mode, few) && EngagedSwitch(source, mode, many).None?
  {
  }

  // A source switch carrying one source's identifier stops that source and no other.
  lemma SourceSwitchIsExact(switch: KillSwitch, named: Uuid, source: Source, mode: ProcessingMode)
    requires switch.Engaged() && switch.scope.SourceScope? && switch.key == UuidText(named)
    ensures Covers(switch, source, mode) <==> source.Id() == named
  {
    if UuidText(source.Id()) == UuidText(named) {
      UuidTextIdentifies(source.Id(), named);
    }
  }

  function WithoutGroups(x: string): string
    requires |x| == 36
  {
    x[..8] + x[9..13] + x[14..18] + x[19..23] + x[24..]
  }

  lemma GroupsOf(s: string)
    requires |s| == 32
    ensures var x := s[..8] + "-" + s[8..12] + "-" + s[12..16] + "-" + s[16..20] + "-" + s[20..];
            |x| == 36 && WithoutGroups(x) == s
  {
    var x := s[..8] + "-" + s[8..12] + "-" + s[12..16] + "-" + s[16..20] + "-" + s[20..];
    assert x[..8] == s[..8] && x[9..13] == s[8..12] && x[14..18] == s[12..16] && x[19..23] == s[16..20]
           && x[24..] == s[20..];
  }

  lemma UuidTextIdentifies(a: Uuid, b: Uuid)
    requires UuidText(a) == UuidText(b)
    ensures a == b
  {
    GroupsOf(HexText(a, 32));
    GroupsOf(HexText(b, 32));
    Pow16Of32();
    HexTextIdentifies(a, b, 32);
  }

  lemma Pow16Of32()
    ensures Pow16(32) == 0x1_0000_0000_0000_0000_0000_0000_0000_0000
  {
    assert Pow16(8) == 0x1_0000_0000;
    assert Pow16(16) == 0x1_0000_0000_0000_0000;
    assert Pow16(24) == 0x1_0000_0000_0000_0000_0000_0000;
  }
}
