// Whose sources a terminal shows: the rows, the headline and the address of its own pages, and no other's.
module TerminalViews {
  import opened Wrappers
  import opened Sequences
  import opened Domain
  import opened ObservationLog
  import opened ObservationLaws
  import opened ReadServices

  // The row of a source: its own register fields, and no evidence when it is restricted.
  ghost predicate RowOf(s: Source, row: TerminalSourceRead) {
    && row.sourceId == s.identity.sourceId && row.name == s.name && row.url == s.identity.url && row.kind == s.kind
    && row.enabled == s.enabled && row.reviewState == s.policy.reviewState
    && (s.policy.reviewState == Restricted ==> row.latest == None)
  }

  lemma RowOfItsSource(s: Source, latest: map<Uuid, Row>, now: Time)
    ensures RowOf(s, SourceReadOf(latest, now)(s))
  {
    assert SourceReadOf(latest, now)(s).latest == ShownEvidence(latest, now)(s);
  }

  // The rows are those of the chosen sources, one each.
  ghost predicate RowsOf(chosen: seq<Source>, rows: seq<TerminalSourceRead>) {
    |rows| == |chosen| && forall i :: 0 <= i < |rows| ==> RowOf(chosen[i], rows[i])
  }

  ghost function OwnedBy(id: Uuid): Source -> bool { (s: Source) => Some(id) == s.terminalId }

  lemma OwnSources(snapshot: Snapshot, id: Uuid) returns (own: seq<nat>)
    ensures Selects(snapshot.sources, OwnedBy(id), own, TerminalSources(snapshot, id))
  {
    SameFilter(snapshot.sources, AtTerminal(id), OwnedBy(id));
    own := FilterSelects(snapshot.sources, OwnedBy(id));
  }

  // A terminal's detail has one row for each registered source of that terminal, in register order, and
  // no other.
  lemma DetailListsItsOwn(snapshot: Snapshot, id: Uuid, now: Time) returns (own: seq<nat>, chosen: seq<Source>)
    requires Detail(snapshot, id, now).Some?
    ensures Selects(snapshot.sources, OwnedBy(id), own, chosen)
    ensures RowsOf(chosen, Detail(snapshot, id, now).value.sources)
  {
    chosen := TerminalSources(snapshot, id);
    own := OwnSources(snapshot, id);
    forall i | 0 <= i < |chosen| ensures RowOf(chosen[i], Detail(snapshot, id, now).value.sources[i]) {
      RowOfItsSource(chosen[i], Latest(snapshot.log), now);
    }
  }

  // Health lists every registered source at its place, with the register's own fields.
  lemma HealthListsEverySource(snapshot: Snapshot, now: Time, j: nat)
    requires j < |snapshot.sources|
    ensures |HealthRows(snapshot, now)| == |snapshot.sources|
    ensures var row, s := HealthRows(snapshot, now)[j], snapshot.sources[j];
            && row.sourceId == s.identity.sourceId && row.name == s.name && row.url == s.identity.url
            && row.enabled == s.enabled && row.reviewState == s.policy.reviewState
  {
    assert HealthRows(snapshot, now)[j]
        == HealthRowOf(Latest(snapshot.log), snapshot.switches, now)(snapshot.sources[j]);
  }

  // The row and the health row of one source agree: a restricted source shows nothing on its terminal.
  ghost predicate Agree(s: Source, row: TerminalSourceRead, health: HealthRow, now: Time) {
    && row.sourceId == health.sourceId == s.identity.sourceId
    && row.latest == (if s.policy.reviewState == Restricted then None else health.latest)
    && NotOutdated(row.latest, now) && NotOutdated(health.latest, now)
  }

  ghost predicate RowsAgree(sources: seq<Source>, own: seq<nat>, rows: seq<TerminalSourceRead>, health: seq<HealthRow>,
                            now: Time) {
    |rows| == |own| && forall i :: 0 <= i < |own| ==>
      own[i] < |sources| && own[i] < |health| && Agree(sources[own[i]], rows[i], health[own[i]], now)
  }

  lemma SourceAgrees(s: Source, latest: map<Uuid, Row>, switches: seq<KillSwitch>, now: Time)
    ensures Agree(s, SourceReadOf(latest, now)(s), HealthRowOf(latest, switches, now)(s), now)
  {
    assert SourceReadOf(latest, now)(s).latest == ShownEvidence(latest, now)(s);
    ShownIsNotOutdated(s, latest, switches, now);
  }

  // The terminal page and the source-health page agree: at one snapshot and moment each source of the
  // terminal shows on it what its health row shows, unless it is restricted, when it shows nothing.
  lemma ViewsAgree(snapshot: Snapshot, id: Uuid, now: Time) returns (own: seq<nat>, chosen: seq<Source>)
    requires Detail(snapshot, id, now).Some?
    ensures Selects(snapshot.sources, OwnedBy(id), own, chosen)
    ensures RowsAgree(snapshot.sources, own, Detail(snapshot, id, now).value.sources, HealthRows(snapshot, now), now)
  {
    chosen := TerminalSources(snapshot, id);
    own := OwnSources(snapshot, id);
    var rows, health := Detail(snapshot, id, now).value.sources, HealthRows(snapshot, now);
    forall i | 0 <= i < |own| ensures own[i] < |health| && Agree(chosen[i], rows[i], health[own[i]], now) {
      SourceAgrees(chosen[i], Latest(snapshot.log), snapshot.switches, now);
    }
  }

  // A terminal's headline is the newest evidence among its own rows; it is absent exactly when none
  // of them shows any.
  lemma HeadlineIsNewestRow(snapshot: Snapshot, id: Uuid, now: Time)
    requires Detail(snapshot, id, now).Some?
    ensures var headline := Detail(snapshot, id, now).value.summary.latest;
            var rows := Detail(snapshot, id, now).value.sources;
            && (headline.None? <==> forall i :: 0 <= i < |rows| ==> rows[i].latest.None?)
            && (headline.Some? ==> exists i :: 0 <= i < |rows| && rows[i].latest == headline)
            && (headline.Some? ==> forall i :: 0 <= i < |rows| && rows[i].latest.Some? ==>
                  rows[i].latest.value.observedAt <= headline.value.observedAt)
  {
    var terminal := FindTerminal(snapshot.terminals, id).value;
    SummaryIsNewestRow(terminal, TerminalSources(snapshot, id), Latest(snapshot.log), now);
  }

  lemma {:induction false} FoundTerminal(terminals: seq<Terminal>, id: Uuid)
    ensures FindTerminal(terminals, id).None? <==> forall k :: 0 <= k < |terminals| ==> terminals[k].terminalId != id
    ensures FindTerminal(terminals, id).Some? ==>
              exists k :: 0 <= k < |terminals| && terminals[k].terminalId == id
                          && FindTerminal(terminals, id).value == terminals[k]
                          && forall j :: 0 <= j < k ==> terminals[j].terminalId != id
  {
    if terminals != [] && terminals[0].terminalId != id {
      FoundTerminal(terminals[1..], id);
      if FindTerminal(terminals[1..], id).Some? {
        var k :| 0 <= k < |terminals| - 1 && terminals[1..][k].terminalId == id
                 && FindTerminal(terminals[1..], id).value == terminals[1..][k]
                 && forall j :: 0 <= j < k ==> terminals[1..][j].terminalId != id;
        assert terminals[k + 1] == terminals[1..][k];
        forall j | 0 <= j < k + 1 ensures terminals[j].terminalId != id {
          assert j == 0 || terminals[j] == terminals[1..][j - 1];
        }
      }
    }
  }

  // A detail exists exactly for listed terminals and carries the identifier and name of the first with
  // that identifier.
  lemma DetailNamesItsTerminal(snapshot: Snapshot, id: Uuid, now: Time)
    ensures var terminals := snapshot.terminals;
            Detail(snapshot, id, now).None? <==> forall k :: 0 <= k < |terminals| ==> terminals[k].terminalId != id
    ensures Detail(snapshot, id, now).Some? ==>
              var summary, terminals := Detail(snapshot, id, now).value.summary, snapshot.terminals;
              && summary.terminalId == id
              && exists k :: 0 <= k < |terminals| && terminals[k].terminalId == id && summary.name == terminals[k].name
                             && forall j :: 0 <= j < k ==> terminals[j].terminalId != id
  {
    FoundTerminal(snapshot.terminals, id);
  }

  lemma ShownExactly(snapshot: Snapshot, now: Time, s: Source)
    requires ValidLog(snapshot.log)
    ensures ShownEvidence(Latest(snapshot.log), now)(s).Some? <==>
            s.identity.sourceId in SourcesIn(snapshot.log) && s.policy.reviewState != Restricted
  {
    ExactlyOneCurrent(snapshot.log, s.Id());
  }

  // Some unrestricted source of the terminal was observed.
  ghost predicate OwnObserved(snapshot: Snapshot, id: Uuid) {
    exists s :: s in snapshot.sources && s.terminalId == Some(id) && s.policy.reviewState != Restricted
                && s.identity.sourceId in SourcesIn(snapshot.log)
  }

  lemma SomeRowShows(snapshot: Snapshot, id: Uuid, now: Time)
    requires ValidLog(snapshot.log)
    ensures var sources := TerminalSources(snapshot, id);
            OwnObserved(snapshot, id) <==>
            exists i :: 0 <= i < |sources| && ShownEvidence(Latest(snapshot.log), now)(sources[i]).Some?
  {
    var sources := TerminalSources(snapshot, id);
    if s :| s in snapshot.sources && s.terminalId == Some(id) && s.policy.reviewState != Restricted
            && s.identity.sourceId in SourcesIn(snapshot.log) {
      ShownExactly(snapshot, now, s);
      assert s in sources;
    }
    if i :| 0 <= i < |sources| && ShownEvidence(Latest(snapshot.log), now)(sources[i]).Some? {
      ShownExactly(snapshot, now, sources[i]);
      assert sources[i] in sources;
    }
  }

  // The headline is there exactly when some unrestricted source of that terminal was ever observed.
  lemma HeadlineNeedsItsOwnSource(snapshot: Snapshot, id: Uuid, now: Time)
    requires Detail(snapshot, id, now).Some? && ValidLog(snapshot.log)
    ensures Detail(snapshot, id, now).value.summary.latest.Some? <==> OwnObserved(snapshot, id)
  {
    var terminal, sources := FindTerminal(snapshot.terminals, id).value, TerminalSources(snapshot, id);
    SomeRowShows(snapshot, id, now);
    HeadlineIsThere(terminal, sources, Latest(snapshot.log), now);
  }

  lemma HeadlineIsThere(terminal: Terminal, sources: seq<Source>, latest: map<Uuid, Row>, now: Time)
    ensures Summary(terminal, sources, latest, now).latest.Some? <==>
            exists i :: 0 <= i < |sources| && ShownEvidence(latest, now)(sources[i]).Some?
  {
    var f := SourceReadOf(latest, now);
    SummaryIsNewestRow(terminal, sources, latest, now);
    assert forall i :: 0 <= i < |sources| ==> Map(sources, f)[i].latest == ShownEvidence(latest, now)(sources[i]);
  }

  lemma {:induction false} OfficialUrlIsFirst(sources: seq<Source>)
    ensures OfficialUrl(sources).None? <==> forall j :: 0 <= j < |sources| ==> sources[j].kind != TerminalPage
    ensures OfficialUrl(sources).Some? ==>
              exists j :: 0 <= j < |sources| && sources[j].kind == TerminalPage
                          && OfficialUrl(sources).value == sources[j].identity.url
                          && forall i :: 0 <= i < j ==> sources[i].kind != TerminalPage
  {
    if sources != [] && sources[0].kind != TerminalPage {
      OfficialUrlIsFirst(sources[1..]);
      if OfficialUrl(sources[1..]).Some? {
        var j :| 0 <= j < |sources| - 1 && sources[1..][j].kind == TerminalPage
                 && OfficialUrl(sources[1..]).value == sources[1..][j].identity.url
                 && forall i :: 0 <= i < j ==> sources[1..][i].kind != TerminalPage;
        assert sources[j + 1] == sources[1..][j];
        forall i | 0 <= i < j + 1 ensures sources[i].kind != TerminalPage {
          assert i == 0 || sources[i] == sources[1..][i - 1];
        }
      }
    }
  }

  // It is a terminal-page source of that terminal.
  ghost predicate OwnPage(s: Source, id: Uuid) { s.terminalId == Some(id) && s.kind == TerminalPage }

  ghost predicate FirstPage(sources: seq<Source>, id: Uuid, j: int) {
    0 <= j < |sources| && OwnPage(sources[j], id) && forall i :: 0 <= i < j ==> !OwnPage(sources[i], id)
  }

  // The first page among the chosen is the first among all.
  lemma FirstPageIsFirst(sources: seq<Source>, id: Uuid, own: seq<nat>, chosen: seq<Source>, k: nat)
    requires Selects(sources, OwnedBy(id), own, chosen) && k < |chosen| && chosen[k].kind == TerminalPage
    requires forall i :: 0 <= i < k ==> chosen[i].kind != TerminalPage
    ensures FirstPage(sources, id, own[k])
  {
    forall i | 0 <= i < own[k] ensures !OwnPage(sources[i], id) {
      if OwnPage(sources[i], id) {
        EarlierPick(sources, id, own, chosen, i, k);
      }
    }
  }

  lemma EarlierPick(sources: seq<Source>, id: Uuid, own: seq<nat>, chosen: seq<Source>, i: nat, k: nat)
    requires Selects(sources, OwnedBy(id), own, chosen) && i < |sources| && OwnedBy(id)(sources[i])
    requires k < |own| && i < own[k]
    ensures exists x :: 0 <= x < k && chosen[x] == sources[i]
  {
    var x :| 0 <= x < |own| && own[x] == i;
    assert !(k < x);
  }

  // The official address is that of the terminal's first terminal-page source, if it has one.
  lemma OfficialUrlIsItsOwn(snapshot: Snapshot, id: Uuid, now: Time)
    requires Detail(snapshot, id, now).Some?
    ensures var official, sources := Detail(snapshot, id, now).value.summary.officialUrl, snapshot.sources;
            && (official == None ==> forall j :: 0 <= j < |sources| ==> !OwnPage(sources[j], id))
            && (official.Some? ==> exists j :: FirstPage(sources, id, j) && official.value == sources[j].identity.url)
  {
    var sources, chosen := snapshot.sources, TerminalSources(snapshot, id);
    var own := OwnSources(snapshot, id);
    OfficialUrlIsFirst(chosen);
    if OfficialUrl(chosen).Some? {
      var k :| 0 <= k < |chosen| && chosen[k].kind == TerminalPage
               && OfficialUrl(chosen).value == chosen[k].identity.url
               && forall i :: 0 <= i < k ==> chosen[i].kind != TerminalPage;
      FirstPageIsFirst(sources, id, own, chosen, k);
    } else {
      forall j | 0 <= j < |sources| ensures !OwnPage(sources[j], id) {
        assert OwnedBy(id)(sources[j]) ==> sources[j] in chosen;
      }
    }
  }

  // The network lists the terminals in order, each with the summary its own detail shows.
  lemma NetworkShowsDetails(snapshot: Snapshot, now: Time, k: nat)
    requires k < |snapshot.terminals|
    requires forall i, j :: 0 <= i < j < |snapshot.terminals| ==>
               snapshot.terminals[i].terminalId != snapshot.terminals[j].terminalId
    ensures |Network(snapshot, now)| == |snapshot.terminals|
    ensures var detail := Detail(snapshot, snapshot.terminals[k].terminalId, now);
            detail.Some? && Network(snapshot, now)[k] == detail.value.summary
  {
    FoundTerminal(snapshot.terminals, snapshot.terminals[k].terminalId);
  }
}
