// Seeding the register with reference rows, in one transaction
// (apps/api/paxpivot/infrastructure/bootstrap.py and the register tables of database.py).
module Seed {
  import opened Wrappers
  import opened Domain
  import Calendar

  datatype TerminalEntry = TerminalEntry(
    terminalId: Uuid, name: string, installation: string, timezone: string, evidence: Provenance,
    createdAt: Time, updatedAt: Time)

  // ---- the register tables ----

  datatype Tables = Tables(sources: map<Uuid, Source>, terminals: map<Uuid, TerminalEntry>)

  // The CHECK constraints on one row of `sources`.
  predicate SourceChecks(s: Source) {
    && (s.cadenceMinutes.Some? ==> s.cadenceMinutes.value > 0)
    && (s.policy.rawPayload.Snapshot? <==> s.policy.snapshotRetentionDays.Some?)
    && (s.policy.reviewState.Approved? ==> s.policy.reviewer.Some? && s.policy.reviewedAt.Some?)
    && NoCredentialMarks(s.identity.url)
    && (s.policy.reviewState.Restricted? ==>
          && !s.policy.mayRetrieve && !s.policy.mayParse && !s.policy.maySummarize
          && !s.policy.mayDisplay && !s.policy.mayAggregate && s.policy.rawPayload.Denied?)
  }

  predicate TerminalChecks(t: TerminalEntry) { NoCredentialMarks(t.evidence.source.url) }

  predicate UrlTaken(sources: map<Uuid, Source>, url: Url) {
    exists id :: id in sources && sources[id].identity.url == url
  }

  // What the two tables' constraints keep at every commit.
  ghost predicate ValidTables(t: Tables) {
    && (forall id :: id in t.sources ==>
          && t.sources[id].Id() == id && SourceChecks(t.sources[id])
          && (t.sources[id].terminalId.Some? ==> t.sources[id].terminalId.value in t.terminals))
    && (forall a, b :: a in t.sources && b in t.sources ==>
          t.sources[a].identity.url == t.sources[b].identity.url ==> a == b)
    && (forall id :: id in t.terminals ==>
          && t.terminals[id].terminalId == id && TerminalChecks(t.terminals[id])
          && t.terminals[id].evidence.source.sourceId in t.sources)
  }

  // ---- the statements ----

  // Does `INSERT … ON CONFLICT (source_id) DO NOTHING` raise? Only a row that is really inserted
  // meets the unique URL and the foreign key; the CHECKs are met by every proposed row.
  predicate SourceInsertRaises(t: Tables, s: Source) {
    || !SourceChecks(s)
    || (s.Id() !in t.sources
        && (UrlTaken(t.sources, s.identity.url) || (s.terminalId.Some? && s.terminalId.value !in t.terminals)))
  }

  predicate TerminalInsertRaises(t: Tables, e: TerminalEntry) {
    !TerminalChecks(e) || (e.terminalId !in t.terminals && e.evidence.source.sourceId !in t.sources)
  }

  const UPGRADABLE_POLICY_VERSIONS: set<Identifier> := {"terminal-page-metadata-v1", "schedule-artifact-parse-v1"}

  // The WHERE clause of the policy upgrade.
  predicate Upgradable(stored: Source, reference: Source) {
    && stored.policy.policyVersionId != reference.policy.policyVersionId
    && stored.policy.policyVersionId in UPGRADABLE_POLICY_VERSIONS
    && !stored.policy.reviewState.Paused? && !stored.policy.reviewState.Restricted?
  }

  // Its SET clause: the policy columns and `updated_at`.
  function WithPolicyOf(stored: Source, reference: Source): Source {
    stored.(policy := reference.policy, updatedAt := reference.updatedAt)
  }

  // ---- the reference rows ----

  datatype Reference = Reference(directory: Source, terminals: seq<TerminalEntry>, pages: seq<Source>) {
    function Sources(): seq<Source> { [directory] + pages }
  }

  const UNREVIEWED_POLICY: Policy :=
    Policy("seed-not-approved-v1", NeedsReview, false, false, false, false, false, Denied, None, None, None)

  const APPROVED_TERMINAL_PAGE_POLICY: Policy :=
    Policy("terminal-page-parse-v2", Approved, true, true, false, true, false, HashOnly, None,
           Some("product-owner-delegated-2026-09-11"), Some(1_789_142_400_000_000))

  const RESTRICTED_SCHEDULE_ARTIFACT_POLICY: Policy :=
    Policy("schedule-artifact-user-open-v2", Restricted, false, false, false, false, false, Denied, None,
           Some("product-owner-2026-09-11"), Some(1_789_156_800_000_000))

  predicate ReferencePolicy(p: Policy) {
    p == UNREVIEWED_POLICY || p == APPROVED_TERMINAL_PAGE_POLICY || p == RESTRICTED_SCHEDULE_ARTIFACT_POLICY
  }

  predicate DistinctReferences(refs: seq<Source>) {
    forall i, j :: 0 <= i < j < |refs| ==> refs[i].Id() != refs[j].Id() && refs[i].identity.url != refs[j].identity.url
  }

  predicate OwnTerminal(ref: Reference, s: Source) {
    s.terminalId.None? || exists k :: 0 <= k < |ref.terminals| && ref.terminals[k].terminalId == s.terminalId.value
  }

  // The shape of the reference constants: distinct identifiers and pages, one of three policies,
  // the directory without a terminal, every page at a reference terminal.
  ghost predicate ReferenceOk(ref: Reference) {
    var refs := ref.Sources();
    && DistinctReferences(refs)
    && (forall i :: 0 <= i < |refs| ==>
          && ReferencePolicy(refs[i].policy) && NoCredentialMarks(refs[i].identity.url)
          && (refs[i].cadenceMinutes.Some? ==> refs[i].cadenceMinutes.value > 0)
          && OwnTerminal(ref, refs[i]))
    && ref.directory.terminalId.None?
    && forall k :: 0 <= k < |ref.terminals| ==>
         ref.terminals[k].evidence.source.sourceId == ref.directory.Id() && TerminalChecks(ref.terminals[k])
  }

  // ---- what a run leaves, as a fold over the reference rows ----

  function WithMissing(sources: map<Uuid, Source>, refs: seq<Source>): map<Uuid, Source> {
    if refs == [] then sources
    else
      var last := refs[|refs| - 1];
      var before := WithMissing(sources, refs[..|refs| - 1]);
      if last.Id() in before then before else before[last.Id() := last]
  }

  function WithMissingTerminals(terminals: map<Uuid, TerminalEntry>, refs: seq<TerminalEntry>)
    : map<Uuid, TerminalEntry>
  {
    if refs == [] then terminals
    else
      var last := refs[|refs| - 1];
      var before := WithMissingTerminals(terminals, refs[..|refs| - 1]);
      if last.terminalId in before then before else before[last.terminalId := last]
  }

  function WithUpgrades(sources: map<Uuid, Source>, refs: seq<Source>): map<Uuid, Source> {
    if refs == [] then sources
    else
      var last := refs[|refs| - 1];
      var before := WithUpgrades(sources, refs[..|refs| - 1]);
      if last.Id() in before && Upgradable(before[last.Id()], last)
      then before[last.Id() := WithPolicyOf(before[last.Id()], last)] else before
  }

  function Seeded(ref: Reference, t: Tables): Tables {
    Tables(WithUpgrades(WithMissing(t.sources, ref.Sources()), ref.Sources()),
           WithMissingTerminals(t.terminals, ref.terminals))
  }

  datatype Counts = Counts(sources: nat, terminals: nat, policiesUpgraded: nat)

  // The rows present in both that no longer hold the same values.
  function Altered(before: map<Uuid, Source>, after: map<Uuid, Source>): set<Uuid> {
    set id | id in before && id in after && after[id] != before[id]
  }

  // The one way a run is refused: a missing reference row whose page another row already holds.
  predicate PageFree(sources: map<Uuid, Source>, s: Source) {
    s.Id() in sources || !UrlTaken(sources, s.identity.url)
  }

  predicate AllPagesFree(sources: map<Uuid, Source>, refs: seq<Source>) {
    forall i :: 0 <= i < |refs| ==> PageFree(sources, refs[i])
  }

  // ---- the register ----

  class Register {
    var sources: map<Uuid, Source>
    var terminals: map<Uuid, TerminalEntry>

    constructor (stored: Tables)
      ensures Stored() == stored
    {
      sources, terminals := stored.sources, stored.terminals;
    }

    function Stored(): Tables
      reads this
    {
      Tables(sources, terminals)
    }

    // One insert; `None` when the database refuses the statement, else the rows it returned.
    method InsertSource(s: Source) returns (inserted: Option<nat>)
      modifies this`sources
      ensures inserted.None? <==> SourceInsertRaises(old(Stored()), s)
      ensures inserted.Some? ==>
                sources == WithMissing(old(sources), [s]) && |sources| == |old(sources)| + inserted.value
      ensures inserted.None? ==> sources == old(sources)
    {
      assert WithMissing(sources, []) == sources;
      if SourceInsertRaises(Stored(), s) {
        return None;
      }
      if s.Id() in sources {
        return Some(0);
      }
      sources := sources[s.Id() := s];
      inserted := Some(1);
    }

    method InsertTerminals(ref: Reference) returns (inserted: nat)
      requires ReferenceOk(ref) && ref.directory.Id() in sources
      modifies this`terminals
      ensures terminals == WithMissingTerminals(old(terminals), ref.terminals)
      ensures inserted == |terminals| - |old(terminals)|
    {
      inserted := 0;
      for k := 0 to |ref.terminals|
        invariant terminals == WithMissingTerminals(old(terminals), ref.terminals[..k])
        invariant inserted == |terminals| - |old(terminals)|
      {
        var terminal := ref.terminals[k];
        assert ref.terminals[..k + 1][..k] == ref.terminals[..k];
        assert !TerminalInsertRaises(Stored(), terminal);
        if terminal.terminalId !in terminals {
          terminals := terminals[terminal.terminalId := terminal];
          inserted := inserted + 1;
        }
      }
      assert ref.terminals[..|ref.terminals|] == ref.terminals;
    }

    // The sources of the terminals, after the directory and the terminals are in.
    method InsertPages(ref: Reference, ghost before: Tables) returns (inserted: Option<nat>)
      requires ReferenceOk(ref)
      requires sources == WithMissing(before.sources, ref.Sources()[..1])
      requires terminals == WithMissingTerminals(before.terminals, ref.terminals)
      modifies this`sources
      ensures inserted.Some? <==> AllPagesFree(before.sources, ref.Sources()[1..])
      ensures inserted.Some? ==>
                sources == WithMissing(before.sources, ref.Sources()) && inserted.value == |sources| - |old(sources)|
    {
      var added := 0;
      for i := 0 to |ref.pages|
        invariant sources == WithMissing(before.sources, ref.Sources()[..i + 1])
        invariant added == |sources| - |old(sources)|
        invariant AllPagesFree(before.sources, ref.pages[..i])
      {
        PageStep(before, ref, i);
        var one := InsertSource(ref.pages[i]);
        if one.None? {
          return None;
        }
        added := added + one.value;
      }
      assert ref.Sources()[..|ref.pages| + 1] == ref.Sources() && ref.pages[..|ref.pages|] == ref.Sources()[1..];
      inserted := Some(added);
    }

    method UpgradePolicies(refs: seq<Source>) returns (upgraded: nat)
      requires DistinctReferences(refs)
      modifies this`sources
      ensures sources == WithUpgrades(old(sources), refs)
      ensures forall i :: 0 <= i < |refs| && refs[i].identity.sourceId in old(sources) ==>
                UpgradedRow(old(sources)[refs[i].identity.sourceId], refs[i], sources)
      ensures |sources| == |old(sources)| && upgraded == |Altered(old(sources), sources)|
    {
      upgraded := 0;
      for i := 0 to |refs|
        invariant sources == WithUpgrades(old(sources), refs[..i])
        invariant |sources| == |old(sources)| && upgraded == |Altered(old(sources), sources)|
      {
        assert refs[..i + 1][..i] == refs[..i];
        UpgradeStep(old(sources), refs, i);
        var id := refs[i].Id();
        if id in sources && Upgradable(sources[id], refs[i]) {
          sources := sources[id := WithPolicyOf(sources[id], refs[i])];
          upgraded := upgraded + 1;
        }
      }
      assert refs[..|refs|] == refs;
      RowsUpgraded(old(sources), refs);
    }

    // `seed_reference_data`: the directory, the terminals, their pages, then the policy upgrades.
    // A refused statement rolls the whole transaction back.
    method SeedReferenceData(ref: Reference) returns (inserted: Option<Counts>)
      requires ReferenceOk(ref)
      modifies this
      ensures inserted.Some? <==> Unobstructed(old(sources), [ref.directory] + ref.pages)
      ensures Stored() == if inserted.Some? then Seeded(ref, old(Stored())) else old(Stored())
      ensures inserted.Some? ==>
                && inserted.value.sources == |sources| - |old(sources)|
                && inserted.value.terminals == |terminals| - |old(terminals)|
                && inserted.value.policiesUpgraded == |Altered(old(sources), sources)|
      ensures inserted.Some? ==> SeededRows(old(sources), [ref.directory] + ref.pages, sources)
    {
      var before := Stored();
      FreeDirectoryAndPages(before, ref);
      FreeMeansUnobstructed(before.sources, ref.Sources());
      var directory := InsertSource(ref.directory);
      if directory.None? {
        return None;
      }
      DirectoryIsStored(before.sources, ref);
      var newTerminals := InsertTerminals(ref);
      var pages := InsertPages(ref, before);
      if pages.None? {
        sources, terminals := before.sources, before.terminals;
        return None;
      }
      var upgraded := UpgradePolicies(ref.Sources());
      AlteredFromStored(before.sources, ref.Sources());
      RowsSeeded(ref, before);
      inserted := Some(Counts(directory.value + pages.value, newTerminals, upgraded));
    }
  }

  // ---- the statements of one run ----

  lemma ReferenceChecks(ref: Reference, i: nat)
    requires ReferenceOk(ref) && i < |ref.Sources()|
    ensures SourceChecks(ref.Sources()[i]) && ref.Sources()[i].policy.ReviewConsistent()
  {
  }

  lemma WithMissingOne(sources: map<Uuid, Source>, s: Source)
    ensures WithMissing(sources, [s]) == if s.Id() in sources then sources else sources[s.Id() := s]
  {
    assert [s][..0] == [];
    assert WithMissing(sources, []) == sources;
  }

  lemma DirectoryIsStored(sources: map<Uuid, Source>, ref: Reference)
    ensures WithMissing(sources, ref.Sources()[..1]) == WithMissing(sources, [ref.directory])
    ensures ref.directory.Id() in WithMissing(sources, [ref.directory])
  {
    assert ref.Sources()[..1] == [ref.directory];
    WithMissingOne(sources, ref.directory);
  }

  lemma FreeDirectoryAndPages(t: Tables, ref: Reference)
    requires ReferenceOk(ref)
    ensures SourceInsertRaises(t, ref.directory) <==> !PageFree(t.sources, ref.directory)
    ensures AllPagesFree(t.sources, ref.Sources())
            <==> PageFree(t.sources, ref.directory) && AllPagesFree(t.sources, ref.Sources()[1..])
  {
    var refs := ref.Sources();
    ReferenceChecks(ref, 0);
    assert refs[0] == ref.directory;
    forall i | 1 <= i < |refs| ensures refs[1..][i - 1] == refs[i] {}
  }

  ghost predicate Names(refs: seq<Source>, id: Uuid) {
    exists i :: 0 <= i < |refs| && refs[i].Id() == id
  }

  // Inserting the missing rows, one identifier at a time.
  lemma {:induction false} MissingElsewhere(sources: map<Uuid, Source>, refs: seq<Source>, id: Uuid)
    ensures id in WithMissing(sources, refs) <==> id in sources || Names(refs, id)
    ensures id in sources ==> WithMissing(sources, refs)[id] == sources[id]
  {
    if refs != [] {
      var n := |refs| - 1;
      MissingElsewhere(sources, refs[..n], id);
      if i :| 0 <= i < |refs| && refs[i].Id() == id && i < n {
        assert refs[..n][i] == refs[i];
      }
    }
  }

  lemma {:induction false} MissingAt(sources: map<Uuid, Source>, refs: seq<Source>, i: nat)
    requires DistinctReferences(refs) && i < |refs| && refs[i].Id() !in sources
    ensures refs[i].Id() in WithMissing(sources, refs) && WithMissing(sources, refs)[refs[i].Id()] == refs[i]
  {
    var n := |refs| - 1;
    if i == n {
      MissingElsewhere(sources, refs[..n], refs[n].Id());
    } else {
      MissingAt(sources, refs[..n], i);
    }
  }

  // Upgrading, one identifier at a time.
  lemma {:induction false} UpgradesElsewhere(sources: map<Uuid, Source>, refs: seq<Source>, id: Uuid)
    ensures id in WithUpgrades(sources, refs) <==> id in sources
    ensures id in sources && !Names(refs, id) ==> WithUpgrades(sources, refs)[id] == sources[id]
  {
    if refs != [] {
      var n := |refs| - 1;
      UpgradesElsewhere(sources, refs[..n], id);
      assert refs[n].Id() == id ==> Names(refs, id);
      if Names(refs[..n], id) {
        var i :| 0 <= i < n && refs[..n][i].Id() == id;
        assert refs[i].Id() == id;
      }
    }
  }

  lemma {:induction false} UpgradesAt(sources: map<Uuid, Source>, refs: seq<Source>, i: nat)
    requires DistinctReferences(refs) && i < |refs| && refs[i].Id() in sources
    ensures var id := refs[i].Id();
            && id in WithUpgrades(sources, refs)
            && WithUpgrades(sources, refs)[id]
               == if Upgradable(sources[id], refs[i]) then WithPolicyOf(sources[id], refs[i]) else sources[id]
  {
    var n := |refs| - 1;
    if i == n {
      UpgradesElsewhere(sources, refs[..n], refs[n].Id());
    } else {
      UpgradesAt(sources, refs[..n], i);
    }
  }

  lemma {:induction false} MissingTerminals(terminals: map<Uuid, TerminalEntry>, refs: seq<TerminalEntry>, id: Uuid)
    ensures id in WithMissingTerminals(terminals, refs)
            <==> id in terminals || exists k :: 0 <= k < |refs| && refs[k].terminalId == id
    ensures id in terminals ==> WithMissingTerminals(terminals, refs)[id] == terminals[id]
    ensures id in WithMissingTerminals(terminals, refs) && id !in terminals ==>
              exists k :: 0 <= k < |refs| && refs[k].terminalId == id
                          && WithMissingTerminals(terminals, refs)[id] == refs[k]
  {
    if refs != [] {
      var n := |refs| - 1;
      MissingTerminals(terminals, refs[..n], id);
      forall k | 0 <= k < n ensures refs[..n][k] == refs[k] {}
      if k :| 0 <= k < |refs| && refs[k].terminalId == id && k < n {
        assert refs[..n][k].terminalId == id;
      }
    }
  }

  lemma NamedOnce(refs: seq<Source>, i: nat, k: nat)
    requires DistinctReferences(refs) && i <= k < |refs|
    ensures !Names(refs[..i], refs[k].Id())
  {
    forall j | 0 <= j < i ensures refs[..i][j].Id() != refs[k].Id() {
    }
  }

  // Halfway through the inserts, a row is refused for exactly the reason visible at the start.
  lemma InsertIsRefusedExactly(t: Tables, ref: Reference, k: nat)
    requires ReferenceOk(ref) && 1 <= k < |ref.Sources()|
    ensures var sources := WithMissing(t.sources, ref.Sources()[..k]);
            var now := Tables(sources, WithMissingTerminals(t.terminals, ref.terminals));
            SourceInsertRaises(now, ref.Sources()[k]) <==> !PageFree(t.sources, ref.Sources()[k])
  {
    var refs := ref.Sources();
    var s := refs[k];
    var now := WithMissing(t.sources, refs[..k]);
    ReferenceChecks(ref, k);
    assert OwnTerminal(ref, s);
    if s.terminalId.Some? {
      MissingTerminals(t.terminals, ref.terminals, s.terminalId.value);
    }
    NamedOnce(refs, k, k);
    MissingElsewhere(t.sources, refs[..k], s.Id());
    UrlsSoFar(t.sources, refs, k);
  }

  lemma PageStep(t: Tables, ref: Reference, i: nat)
    requires ReferenceOk(ref) && i < |ref.pages|
    ensures var sources := WithMissing(t.sources, ref.Sources()[..i + 1]);
            && (SourceInsertRaises(Tables(sources, WithMissingTerminals(t.terminals, ref.terminals)), ref.pages[i])
                <==> !PageFree(t.sources, ref.pages[i]))
            && WithMissing(sources, [ref.pages[i]]) == WithMissing(t.sources, ref.Sources()[..i + 2])
    ensures AllPagesFree(t.sources, ref.pages[..i + 1])
            <==> AllPagesFree(t.sources, ref.pages[..i]) && PageFree(t.sources, ref.pages[i])
    ensures AllPagesFree(t.sources, ref.Sources()[1..]) ==> PageFree(t.sources, ref.pages[i])
  {
    PageInsertIsRefused(t, ref, i);
    PageIsReference(ref, i);
    OneMoreMissing(t.sources, ref.Sources(), i + 1);
    OneMorePageFree(t.sources, ref.pages, i);
    LaterPageIsFree(t.sources, ref.Sources()[1..], i);
  }

  lemma PageInsertIsRefused(t: Tables, ref: Reference, i: nat)
    requires ReferenceOk(ref) && i < |ref.pages|
    ensures var now := Tables(WithMissing(t.sources, ref.Sources()[..i + 1]),
                              WithMissingTerminals(t.terminals, ref.terminals));
            SourceInsertRaises(now, ref.pages[i]) <==> !PageFree(t.sources, ref.pages[i])
  {
    PageIsReference(ref, i);
    InsertIsRefusedExactly(t, ref, i + 1);
  }

  lemma PageIsReference(ref: Reference, i: nat)
    requires i < |ref.pages|
    ensures i + 1 < |ref.Sources()| && ref.Sources()[i + 1] == ref.pages[i] == ref.Sources()[1..][i]
  {
  }

  lemma LaterPageIsFree(sources: map<Uuid, Source>, pages: seq<Source>, i: nat)
    requires i < |pages|
    ensures AllPagesFree(sources, pages) ==> PageFree(sources, pages[i])
  {
  }

  lemma OneMoreMissing(sources: map<Uuid, Source>, refs: seq<Source>, k: nat)
    requires k < |refs|
    ensures WithMissing(WithMissing(sources, refs[..k]), [refs[k]]) == WithMissing(sources, refs[..k + 1])
  {
    assert refs[..k + 1][..k] == refs[..k];
    WithMissingOne(WithMissing(sources, refs[..k]), refs[k]);
  }

  lemma OneMorePageFree(sources: map<Uuid, Source>, pages: seq<Source>, i: nat)
    requires i < |pages|
    ensures AllPagesFree(sources, pages[..i + 1]) <==> AllPagesFree(sources, pages[..i]) && PageFree(sources, pages[i])
  {
    assert pages[..i + 1] == pages[..i] + [pages[i]];
    forall j | 0 <= j < i ensures pages[..i][j] == pages[..i + 1][j] {}
    assert pages[..i + 1][i] == pages[i];
  }

  lemma UrlsSoFar(sources: map<Uuid, Source>, refs: seq<Source>, k: nat)
    requires DistinctReferences(refs) && k < |refs|
    ensures UrlTaken(WithMissing(sources, refs[..k]), refs[k].identity.url) <==> UrlTaken(sources, refs[k].identity.url)
  {
    var now := WithMissing(sources, refs[..k]);
    var url := refs[k].identity.url;
    if id :| id in sources && sources[id].identity.url == url {
      MissingElsewhere(sources, refs[..k], id);
      assert now[id].identity.url == url;
    }
    if id :| id in now && now[id].identity.url == url {
      MissingElsewhere(sources, refs[..k], id);
      if id !in sources {
        var j :| 0 <= j < k && refs[..k][j].Id() == id;
        MissingAt(sources, refs[..k], j);
        assert now[id] == refs[j];
      }
    }
  }

  lemma UpgradeStep(filled: map<Uuid, Source>, refs: seq<Source>, i: nat)
    requires DistinctReferences(refs) && i < |refs|
    ensures var m, id := WithUpgrades(filled, refs[..i]), refs[i].Id();
            id in m && Upgradable(m[id], refs[i]) ==>
              var next := m[id := WithPolicyOf(m[id], refs[i])];
              |next| == |m| && |Altered(filled, next)| == |Altered(filled, m)| + 1
  {
    var m, id := WithUpgrades(filled, refs[..i]), refs[i].Id();
    NamedOnce(refs, i, i);
    UpgradesElsewhere(filled, refs[..i], id);
    if id in m && Upgradable(m[id], refs[i]) {
      var next := m[id := WithPolicyOf(m[id], refs[i])];
      assert next.Keys == m.Keys;
      assert next[id].policy.policyVersionId != filled[id].policy.policyVersionId;
      assert Altered(filled, next) == Altered(filled, m) + {id};
    }
  }

  lemma AlteredFromStored(sources: map<Uuid, Source>, refs: seq<Source>)
    requires DistinctReferences(refs)
    ensures var filled := WithMissing(sources, refs);
            Altered(filled, WithUpgrades(filled, refs)) == Altered(sources, WithUpgrades(filled, refs))
  {
    var filled := WithMissing(sources, refs);
    var final := WithUpgrades(filled, refs);
    forall id ensures id in Altered(filled, final) <==> id in Altered(sources, final) {
      MissingElsewhere(sources, refs, id);
      UpgradesElsewhere(filled, refs, id);
      if id in filled && id !in sources {
        var i :| 0 <= i < |refs| && refs[i].Id() == id;
        MissingAt(sources, refs, i);
        UpgradesAt(filled, refs, i);
      }
    }
  }

  // ---- what seeding promises ----

  // A known older version of the reference policy that nobody paused or restricted.
  ghost predicate KnownOlder(policy: Policy, current: Policy) {
    && policy.policyVersionId != current.policyVersionId
    && policy.policyVersionId in {"terminal-page-metadata-v1", "schedule-artifact-parse-v1"}
    && policy.reviewState != Paused && policy.reviewState != Restricted
  }

  // The reference's own policy and date are written, and nothing else.
  ghost predicate BroughtUp(was: Source, reference: Source, now: Source) {
    && now.policy == reference.policy && now.updatedAt == reference.updatedAt
    && now.identity == was.identity && now.name == was.name && now.kind == was.kind
    && now.terminalId == was.terminalId && now.enabled == was.enabled && now.cadenceMinutes == was.cadenceMinutes
    && now.adapterId == was.adapterId && now.adapterVersion == was.adapterVersion && now.createdAt == was.createdAt
  }

  ghost predicate UpgradedRow(was: Source, reference: Source, after: map<Uuid, Source>) {
    var id := reference.identity.sourceId;
    && id in after
    && (KnownOlder(was.policy, reference.policy) ==> BroughtUp(was, reference, after[id]))
    && (!KnownOlder(was.policy, reference.policy) ==> after[id] == was)
  }

  // A reference row after a run: put in when it was missing, brought to the reference policy when it held
  // a known older one, and otherwise exactly as it was.
  ghost predicate SeededRow(before: map<Uuid, Source>, reference: Source, after: map<Uuid, Source>) {
    var id := reference.identity.sourceId;
    && id in after
    && (id !in before ==> after[id] == reference)
    && (id in before ==> UpgradedRow(before[id], reference, after))
  }

  ghost predicate SeededRows(before: map<Uuid, Source>, references: seq<Source>, after: map<Uuid, Source>) {
    forall i :: 0 <= i < |references| ==> SeededRow(before, references[i], after)
  }

  // Every missing reference row finds its page unheld.
  ghost predicate Unobstructed(sources: map<Uuid, Source>, references: seq<Source>) {
    forall i, id :: 0 <= i < |references| && references[i].identity.sourceId !in sources && id in sources ==>
      sources[id].identity.url != references[i].identity.url
  }

  lemma FreeMeansUnobstructed(sources: map<Uuid, Source>, refs: seq<Source>)
    ensures AllPagesFree(sources, refs) <==> Unobstructed(sources, refs)
  {
    forall i | 0 <= i < |refs|
      ensures PageFree(sources, refs[i]) <==>
              refs[i].Id() in sources || forall id :: id in sources ==> sources[id].identity.url != refs[i].identity.url
    {}
  }

  lemma RowUpgraded(sources: map<Uuid, Source>, refs: seq<Source>, i: nat)
    requires DistinctReferences(refs) && i < |refs| && refs[i].Id() in sources
    ensures UpgradedRow(sources[refs[i].Id()], refs[i], WithUpgrades(sources, refs))
  {
    UpgradesAt(sources, refs, i);
  }

  lemma RowsUpgraded(sources: map<Uuid, Source>, refs: seq<Source>)
    requires DistinctReferences(refs)
    ensures forall i :: 0 <= i < |refs| && refs[i].identity.sourceId in sources ==>
              UpgradedRow(sources[refs[i].identity.sourceId], refs[i], WithUpgrades(sources, refs))
  {
    forall i | 0 <= i < |refs| && refs[i].Id() in sources
      ensures UpgradedRow(sources[refs[i].Id()], refs[i], WithUpgrades(sources, refs))
    {
      RowUpgraded(sources, refs, i);
    }
  }

  lemma ReferenceRowAfter(ref: Reference, t: Tables, i: nat)
    requires ReferenceOk(ref) && i < |ref.Sources()|
    ensures SeededRow(t.sources, ref.Sources()[i], Seeded(ref, t).sources)
  {
    var refs := ref.Sources();
    var id := refs[i].Id();
    assert Names(refs, id);
    MissingElsewhere(t.sources, refs, id);
    if id !in t.sources {
      MissingAt(t.sources, refs, i);
    }
    RowUpgraded(WithMissing(t.sources, refs), refs, i);
  }

  lemma RowsSeeded(ref: Reference, t: Tables)
    requires ReferenceOk(ref)
    ensures SeededRows(t.sources, [ref.directory] + ref.pages, Seeded(ref, t).sources)
  {
    forall i | 0 <= i < |ref.Sources()| ensures SeededRow(t.sources, ref.Sources()[i], Seeded(ref, t).sources) {
      ReferenceRowAfter(ref, t, i);
    }
  }

  // Microseconds from 1970 to an hour of a day.
  ghost function Moment(year: int, month: int, day: int, hour: int): Time
    requires 1 <= month <= 12
  {
    (Calendar.DayNumber(year, month, day) * 24 + hour) * 3_600_000_000
  }

  // What a policy on record lets the service do: an unreviewed source nothing, a terminal page exactly
  // being retrieved, parsed and displayed, a schedule artifact nothing; who decided so, and when.
  lemma PoliciesOnRecord(p: Policy, mode: ProcessingMode)
    requires ReferencePolicy(p)
    ensures p.Allows(mode) <==> p.reviewState == Approved && mode in {Retrieve, Parse, Display}
    ensures p.reviewState in {NeedsReview, Approved, Restricted} && p.snapshotRetentionDays == None
    ensures p.rawPayload == if p.reviewState == Approved then HashOnly else Denied
    ensures p.reviewState != Approved ==>
              !p.mayRetrieve && !p.mayParse && !p.maySummarize && !p.mayDisplay && !p.mayAggregate
    ensures p.reviewState == NeedsReview ==>
              p.policyVersionId == "seed-not-approved-v1" && p.reviewer == None && p.reviewedAt == None
    ensures p.reviewState == Approved ==>
              && p.policyVersionId == "terminal-page-parse-v2" && p.reviewedAt == Some(Moment(2026, 9, 11, 16))
              && p.reviewer == Some("product-owner-delegated-2026-09-11")
    ensures p.reviewState == Restricted ==>
              && p.policyVersionId == "schedule-artifact-user-open-v2" && p.reviewedAt == Some(Moment(2026, 9, 11, 20))
              && p.reviewer == Some("product-owner-2026-09-11")
  {
  }

  // Snapshots have a retention and nothing else has, an approval names who reviewed it and when, and a
  // restricted source allows nothing.
  ghost predicate PolicyConstraints(p: Policy) {
    && (p.rawPayload == Snapshot <==> p.snapshotRetentionDays != None)
    && (p.reviewState == Approved ==> p.reviewer != None && p.reviewedAt != None)
    && (p.reviewState == Restricted ==>
          p == Policy(p.policyVersionId, Restricted, false, false, false, false, false, Denied, p.snapshotRetentionDays,
                      p.reviewer, p.reviewedAt))
  }

  // The CHECKs on a row of `sources` in its fields; the validator of a policy demands the same of its
  // part and, beyond them, a retention of at least a day.
  lemma SourceChecksExactly(s: Source)
    ensures SourceChecks(s) <==>
              && (s.cadenceMinutes == None || s.cadenceMinutes.value > 0)
              && '?' !in s.identity.url && '#' !in s.identity.url && PolicyConstraints(s.policy)
    ensures s.policy.ReviewConsistent() <==>
              && PolicyConstraints(s.policy)
              && (s.policy.snapshotRetentionDays == None || s.policy.snapshotRetentionDays.value >= 1)
  {
  }

  // When the database raises on an insert: a CHECK of the proposed row, or, where no row with its key makes
  // the insert a no-op, a page that is taken or a reference that is missing.
  lemma RaisesExactly(t: Tables, s: Source, e: TerminalEntry)
    ensures SourceInsertRaises(t, s) <==>
              || !SourceChecks(s)
              || (s.identity.sourceId !in t.sources
                  && (|| (exists id :: id in t.sources && t.sources[id].identity.url == s.identity.url)
                      || (s.terminalId != None && s.terminalId.value !in t.terminals)))
    ensures TerminalInsertRaises(t, e) <==>
              || '?' in e.evidence.source.url || '#' in e.evidence.source.url
              || (e.terminalId !in t.terminals && e.evidence.source.sourceId !in t.sources)
  {
  }

  ghost function ExampleSource(id: Uuid, url: Url, terminalId: Option<Uuid>, policy: Policy): Source {
    Source(SourceIdentity(id, url, "a"), "n", if terminalId.Some? then TerminalPage else DirectoryPage, terminalId,
           true, Some(360), None, None, policy, 0, 0)
  }

  ghost function ExampleTerminal(id: Uuid, source: SourceIdentity): TerminalEntry {
    TerminalEntry(id, "t", "i", "z", Provenance(source, 0, None, "p", "v"), 0, 0)
  }

  // Reference constants of the required shape exist.
  lemma SomeReference() returns (ref: Reference)
    ensures ReferenceOk(ref) && |ref.terminals| == 1 && |ref.pages| == 2
    ensures forall i :: 0 <= i < 2 ==> ref.pages[i].terminalId == Some(ref.terminals[0].terminalId)
  {
    var directory := ExampleSource(1, "d", None, UNREVIEWED_POLICY);
    var page := ExampleSource(2, "p", Some(1), APPROVED_TERMINAL_PAGE_POLICY);
    var artifact := ExampleSource(3, "s", Some(1), RESTRICTED_SCHEDULE_ARTIFACT_POLICY);
    ref := Reference(directory, [ExampleTerminal(1, directory.identity)], [page, artifact]);
    assert ref.Sources() == [directory, page, artifact];
    assert ref.terminals[0].terminalId == 1;
  }

  // Every other row is untouched, and no row appears that is not a reference row.
  lemma OtherRowAfter(ref: Reference, t: Tables, id: Uuid)
    requires !Names(ref.Sources(), id)
    ensures id in Seeded(ref, t).sources <==> id in t.sources
    ensures id in t.sources ==> Seeded(ref, t).sources[id] == t.sources[id]
  {
    MissingElsewhere(t.sources, ref.Sources(), id);
    UpgradesElsewhere(WithMissing(t.sources, ref.Sources()), ref.Sources(), id);
  }

  // What a person set stays set: a stored row changes only if it is a reference row on a known older
  // policy version that nobody paused or restricted, and then only in its policy and `updated_at`.
  lemma SeedingRespectsPeople(ref: Reference, t: Tables, id: Uuid)
    requires ReferenceOk(ref) && id in t.sources
    ensures id in Seeded(ref, t).sources
    ensures var was, now := t.sources[id], Seeded(ref, t).sources[id];
            && now.(policy := was.policy, updatedAt := was.updatedAt) == was
            && (now != was ==>
                  && Names(ref.Sources(), id) && ReferencePolicy(now.policy)
                  && KnownOlder(was.policy, now.policy))
  {
    if Names(ref.Sources(), id) {
      var i :| 0 <= i < |ref.Sources()| && ref.Sources()[i].Id() == id;
      ReferenceRowAfter(ref, t, i);
    } else {
      OtherRowAfter(ref, t, id);
    }
  }

  // From any tables, a second run finds every page free, changes nothing and counts nothing.
  lemma SeedingIsIdempotent(ref: Reference, t: Tables)
    requires ReferenceOk(ref)
    ensures var once := Seeded(ref, t);
            && AllPagesFree(once.sources, ref.Sources())
            && Seeded(ref, once) == once
            && Altered(once.sources, Seeded(ref, once).sources) == {}
  {
    var refs := ref.Sources();
    var once := Seeded(ref, t);
    var twice := Seeded(ref, once);
    forall i | 0 <= i < |refs| ensures PageFree(once.sources, refs[i]) {
      ReferenceRowAfter(ref, t, i);
    }
    forall id ensures id in twice.sources <==> id in once.sources
              ensures id in once.sources ==> twice.sources[id] == once.sources[id] {
      if Names(refs, id) {
        var i :| 0 <= i < |refs| && refs[i].Id() == id;
        ReferenceRowAfter(ref, t, i);
        ReferenceRowAfter(ref, once, i);
      } else {
        OtherRowAfter(ref, once, id);
      }
    }
    forall id ensures id in twice.terminals <==> id in once.terminals
              ensures id in once.terminals ==> twice.terminals[id] == once.terminals[id] {
      MissingTerminals(t.terminals, ref.terminals, id);
      MissingTerminals(once.terminals, ref.terminals, id);
    }
    assert twice.sources == once.sources && twice.terminals == once.terminals;
  }

  // A committed run leaves tables that meet every constraint.
  lemma SeedingKeepsConstraints(ref: Reference, t: Tables)
    requires ReferenceOk(ref) && ValidTables(t) && AllPagesFree(t.sources, ref.Sources())
    ensures ValidTables(Seeded(ref, t))
  {
    var after := Seeded(ref, t);
    forall id | id in after.sources
      ensures after.sources[id].Id() == id && SourceChecks(after.sources[id])
              && (after.sources[id].terminalId.Some? ==> after.sources[id].terminalId.value in after.terminals)
    {
      SeededRowIsValid(ref, t, id);
    }
    forall a, b | a in after.sources && b in after.sources
                  && after.sources[a].identity.url == after.sources[b].identity.url
      ensures a == b
    {
      SeededUrlsDiffer(ref, t, a, b);
    }
    forall id | id in after.terminals
      ensures after.terminals[id].terminalId == id && TerminalChecks(after.terminals[id])
              && after.terminals[id].evidence.source.sourceId in after.sources
    {
      MissingTerminals(t.terminals, ref.terminals, id);
      ReferenceRowAfter(ref, t, 0);
      if id in t.terminals {
        SeedingRespectsPeople(ref, t, t.terminals[id].evidence.source.sourceId);
      }
    }
  }

  lemma SeededRowIsValid(ref: Reference, t: Tables, id: Uuid)
    requires ReferenceOk(ref) && ValidTables(t) && id in Seeded(ref, t).sources
    ensures var row := Seeded(ref, t).sources[id];
            && row.Id() == id && SourceChecks(row)
            && (row.terminalId.Some? ==> row.terminalId.value in Seeded(ref, t).terminals)
  {
    var row := Seeded(ref, t).sources[id];
    if Names(ref.Sources(), id) {
      var i :| 0 <= i < |ref.Sources()| && ref.Sources()[i].Id() == id;
      ReferenceRowIsValid(ref, t, i);
    } else {
      OtherRowAfter(ref, t, id);
      if row.terminalId.Some? {
        MissingTerminals(t.terminals, ref.terminals, row.terminalId.value);
      }
    }
  }

  lemma ReferenceRowIsValid(ref: Reference, t: Tables, i: nat)
    requires ReferenceOk(ref) && ValidTables(t) && i < |ref.Sources()|
    ensures var id := ref.Sources()[i].Id();
            id in Seeded(ref, t).sources
            && var row := Seeded(ref, t).sources[id];
               && row.Id() == id && SourceChecks(row)
               && (row.terminalId.Some? ==> row.terminalId.value in Seeded(ref, t).terminals)
  {
    ReferenceRowAfter(ref, t, i);
    ReferenceChecks(ref, i);
    var row := Seeded(ref, t).sources[ref.Sources()[i].Id()];
    assert OwnTerminal(ref, ref.Sources()[i]);
    if row.terminalId.Some? {
      MissingTerminals(t.terminals, ref.terminals, row.terminalId.value);
    }
  }

  lemma SeededUrlsDiffer(ref: Reference, t: Tables, a: Uuid, b: Uuid)
    requires ReferenceOk(ref) && ValidTables(t) && AllPagesFree(t.sources, ref.Sources())
    requires a in Seeded(ref, t).sources && b in Seeded(ref, t).sources
    requires Seeded(ref, t).sources[a].identity.url == Seeded(ref, t).sources[b].identity.url
    ensures a == b
  {
    PageOrigin(ref, t, a);
    PageOrigin(ref, t, b);
  }

  // The page of a row afterwards: its own stored one, or that of the missing reference row put in.
  lemma PageOrigin(ref: Reference, t: Tables, id: Uuid)
    requires ReferenceOk(ref) && id in Seeded(ref, t).sources
    ensures id in t.sources ==> Seeded(ref, t).sources[id].identity.url == t.sources[id].identity.url
    ensures id !in t.sources ==>
              exists i :: 0 <= i < |ref.Sources()| && ref.Sources()[i].Id() == id
                          && Seeded(ref, t).sources[id].identity.url == ref.Sources()[i].identity.url
  {
    if id in t.sources {
      SeedingRespectsPeople(ref, t, id);
    } else {
      if !Names(ref.Sources(), id) {
        OtherRowAfter(ref, t, id);
      }
      var i :| 0 <= i < |ref.Sources()| && ref.Sources()[i].Id() == id;
      ReferenceRowAfter(ref, t, i);
    }
  }

  lemma NothingLeftToSeed(ref: Reference, t: Tables)
    requires ReferenceOk(ref)
    ensures Settled(ref, Seeded(ref, t))
  {
    SeedingIsIdempotent(ref, t);
    FreeMeansUnobstructed(Seeded(ref, t).sources, ref.Sources());
  }

  // Tables a seeding would leave as they are.
  ghost predicate Settled(ref: Reference, t: Tables) {
    && Unobstructed(t.sources, [ref.directory] + ref.pages) && Seeded(ref, t) == t
    && |Altered(t.sources, t.sources)| == 0
  }

  method SeedAgain(register: Register, ref: Reference) returns (counts: Option<Counts>)
    requires ReferenceOk(ref) && Settled(ref, register.Stored())
    modifies register
    ensures counts == Some(Counts(0, 0, 0)) && register.Stored() == old(register.Stored())
  {
    counts := register.SeedReferenceData(ref);
    assert register.Stored() == old(register.Stored());
  }

  // The release smoke check: seed twice; the second run inserts, adds and upgrades nothing.
  method SeedTwice(register: Register, ref: Reference) returns (first: Option<Counts>, second: Option<Counts>)
    requires ReferenceOk(ref)
    modifies register
    ensures first.Some? ==> second == Some(Counts(0, 0, 0)) && register.Stored() == Seeded(ref, old(register.Stored()))
    ensures first.None? ==> second.None? && register.Stored() == old(register.Stored())
  {
    ghost var start := register.Stored();
    second := None;
    first := register.SeedReferenceData(ref);
    if first.Some? {
      NothingLeftToSeed(ref, start);
      second := SeedAgain(register, ref);
    }
  }
}
