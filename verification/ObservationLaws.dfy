// What holds of every table that single-row appends can reach.
module ObservationLaws {
  import opened Wrappers
  import opened Sequences
  import opened Domain
  import opened ObservationLog

  // What an insert must meet, in the columns of the new row and of the rows before it.
  lemma AdmittedExactly(log: seq<Row>, o: SourceObservation)
    ensures RowChecks(o) <==>
              && (o.state in {Fresh, NoDepartures, NoCompatible} ==> o.retrieval == Succeeded)
              && (o.payloadRef != None ==> o.retrieval == Succeeded)
              && o.confidenceReasons != [] && o.supersedes != Some(o.observationId)
              && '?' !in o.provenance.source.url && '#' !in o.provenance.source.url
    ensures Admits(log, o) <==>
              && RowChecks(o)
              && (forall i :: 0 <= i < |log| ==> log[i].obs.observationId != o.observationId)
              && (o.supersedes != None ==>
                    exists i :: 0 <= i < |log| && log[i].obs.observationId == o.supersedes.value
                                && log[i].obs.provenance.source.sourceId == o.provenance.source.sourceId)
  {
  }

  lemma AppendKeepsValid(log: seq<Row>, o: SourceObservation, recordedAt: Time)
    requires ValidLog(log) && Admits(log, o)
    ensures ValidLog(log + [Row(o, recordedAt)])
  {
    var more := log + [Row(o, recordedAt)];
    forall i | 0 <= i < |more| ensures Admits(more[..i], more[i].obs) {
      assert more[..i] == log[..i];
      assert log[..|log|] == log;
    }
  }

  lemma IdsAreUnique(log: seq<Row>, i: nat, j: nat)
    requires ValidLog(log) && i < |log| && j < |log|
    ensures log[i].Id() == log[j].Id() <==> i == j
  {
    if i < j {
      assert Admits(log[..j], log[j].obs);
      assert log[..j][i] == log[i];
    } else if j < i {
      assert Admits(log[..i], log[i].obs);
      assert log[..i][j] == log[j];
    }
  }

  // A superseded identifier always names an earlier row of the same source.
  lemma SupersedesAnEarlierRow(log: seq<Row>, i: nat) returns (j: nat)
    requires ValidLog(log) && i < |log| && log[i].obs.supersedes.Some?
    ensures j < i && log[j].Id() == log[i].obs.supersedes.value && log[j].SourceId() == log[i].SourceId()
  {
    assert Admits(log[..i], log[i].obs);
    j :| 0 <= j < |log[..i]| && log[..i][j].Id() == log[i].obs.supersedes.value
         && log[..i][j].SourceId() == log[i].SourceId();
  }

  // ---- supersession is acyclic ----

  ghost predicate SupersessionChain(log: seq<Row>, chain: seq<Row>) {
    && (forall k :: 0 <= k < |chain| ==> chain[k] in log)
    && forall k :: 0 <= k < |chain| - 1 ==> chain[k].obs.supersedes == Some(chain[k + 1].Id())
  }

  ghost function IndexOf(log: seq<Row>, r: Row): (i: nat)
    requires r in log
    ensures i < |log| && log[i] == r
  {
    var i :| 0 <= i < |log| && log[i] == r; i
  }

  lemma {:induction false} ChainDescends(log: seq<Row>, chain: seq<Row>, j: nat, k: nat)
    requires ValidLog(log) && SupersessionChain(log, chain) && j <= k < |chain|
    ensures IndexOf(log, chain[k]) + (k - j) <= IndexOf(log, chain[j])
    decreases k - j
  {
    if j < k {
      ChainDescends(log, chain, j + 1, k);
      var i := SupersedesAnEarlierRow(log, IndexOf(log, chain[j]));
      IdsAreUnique(log, i, IndexOf(log, chain[j + 1]));
    }
  }

  // A chain of revisions never returns to a row it has passed, and is no longer than the table.
  lemma SupersessionIsAcyclic(log: seq<Row>, chain: seq<Row>)
    requires ValidLog(log) && SupersessionChain(log, chain)
    ensures forall j, k :: 0 <= j < k < |chain| ==> chain[j].Id() != chain[k].Id()
    ensures |chain| <= |log|
  {
    forall j, k | 0 <= j < k < |chain| ensures chain[j].Id() != chain[k].Id() {
      ChainDescends(log, chain, j, k);
      IdsAreUnique(log, IndexOf(log, chain[j]), IndexOf(log, chain[k]));
    }
    if chain != [] {
      ChainDescends(log, chain, 0, |chain| - 1);
    }
  }

  // ---- one current row per observed source ----

  ghost predicate DistinctIds(rows: seq<Row>) {
    forall i, j :: 0 <= i < j < |rows| ==> rows[i].Id() != rows[j].Id()
  }

  // The best row is the one every other row is outranked by.
  ghost predicate BeatsAll(rows: seq<Row>, b: Row) {
    b in rows && forall i :: 0 <= i < |rows| ==> rows[i] == b || Outranks(b, rows[i])
  }

  lemma BetterBeatsAll(front: seq<Row>, b: Row, last: Row)
    requires BeatsAll(front, b) && b.Id() != last.Id()
    ensures BeatsAll(front + [last], Better(Some(b), last).value)
  {
    var rows, best := front + [last], Better(Some(b), last).value;
    assert rows[|front|] == last;
    forall k | 0 <= k < |rows| ensures rows[k] == best || Outranks(best, rows[k]) {
      assert k == |front| || rows[k] == front[k];
    }
  }

  lemma {:induction false} BestBeatsAll(rows: seq<Row>)
    requires rows != [] && DistinctIds(rows)
    ensures Best(rows).Some? && BeatsAll(rows, Best(rows).value)
  {
    var front, last := rows[..|rows| - 1], rows[|rows| - 1];
    assert rows == front + [last];
    if front != [] {
      BestBeatsAll(front);
      var b := Best(front).value;
      var i :| 0 <= i < |front| && front[i] == b;
      assert rows[i] == b;
      BetterBeatsAll(front, b, last);
    }
  }

  lemma BestIsUnique(rows: seq<Row>, b: Row)
    requires DistinctIds(rows) && BeatsAll(rows, b)
    ensures Best(rows) == Some(b)
  {
    BestBeatsAll(rows);
    var c := Best(rows).value;
    var i :| 0 <= i < |rows| && rows[i] == b;
    var j :| 0 <= j < |rows| && rows[j] == c;
    assert b == c || Outranks(c, b);
    assert b == c || Outranks(b, c);
  }

  lemma {:induction false} FilterKeepsDistinct(rows: seq<Row>, p: Row -> bool)
    requires DistinctIds(rows)
    ensures DistinctIds(Filter(rows, p))
  {
    if rows != [] {
      var rest := rows[1..];
      assert DistinctIds(rest);
      FilterKeepsDistinct(rest, p);
      if p(rows[0]) {
        forall k | 0 <= k < |Filter(rest, p)| ensures Filter(rest, p)[k].Id() != rows[0].Id() {
          assert Filter(rest, p)[k] in rest;
          var i :| 0 <= i < |rest| && rest[i] == Filter(rest, p)[k];
          assert rows[i + 1] == rest[i];
        }
      }
    }
  }

  lemma LeavesAreDistinct(log: seq<Row>, s: Uuid)
    requires ValidLog(log)
    ensures DistinctIds(log) && DistinctIds(Leaves(log, s))
  {
    forall i, j | 0 <= i < j < |log| ensures log[i].Id() != log[j].Id() {
      IdsAreUnique(log, i, j);
    }
    FilterKeepsDistinct(log, LeafOf(log, s));
  }

  // The newest-appended row of a source cannot have been superseded yet.
  lemma LastRowIsALeaf(log: seq<Row>, s: Uuid, i: nat)
    requires ValidLog(log) && i < |log| && log[i].SourceId() == s
    requires forall k :: i < k < |log| ==> log[k].SourceId() != s
    ensures log[i] in Leaves(log, s)
  {
    if k :| 0 <= k < |log| && log[k].obs.supersedes == Some(log[i].Id()) {
      var j := SupersedesAnEarlierRow(log, k);
      IdsAreUnique(log, j, i);
      assert false;
    }
    assert LeafOf(log, s)(log[i]);
  }

  lemma {:induction false} LastRowOf(log: seq<Row>, s: Uuid) returns (i: nat)
    requires s in SourcesIn(log)
    ensures i < |log| && log[i].SourceId() == s
    ensures forall k :: i < k < |log| ==> log[k].SourceId() != s
  {
    i := |log| - 1;
    if log[i].SourceId() != s {
      var front := log[..|log| - 1];
      assert log == front + [log[i]];
      assert s in SourcesIn(front);
      i := LastRowOf(front, s);
    }
  }

  // Every source with a row has exactly one current row, and the fold finds it.
  lemma ExactlyOneCurrent(log: seq<Row>, s: Uuid)
    requires ValidLog(log)
    ensures CurrentOf(log, s).Some? <==> s in SourcesIn(log)
    ensures forall r: Row :: r.SourceId() == s ==> (IsCurrent(log, r) <==> CurrentOf(log, s) == Some(r))
  {
    LeavesAreDistinct(log, s);
    var leaves := Leaves(log, s);
    BestIsOneOf(leaves);
    if s in SourcesIn(log) {
      var i := LastRowOf(log, s);
      LastRowIsALeaf(log, s, i);
      BestBeatsAll(leaves);
    }
    forall r: Row | r.SourceId() == s ensures IsCurrent(log, r) <==> CurrentOf(log, s) == Some(r) {
      if IsCurrent(log, r) {
        assert BeatsAll(leaves, r);
        BestIsUnique(leaves, r);
      }
      if CurrentOf(log, s) == Some(r) {
        BestBeatsAll(leaves);
      }
    }
  }

  // Once superseded, never current again, however the table grows.
  lemma SupersededNeverReturns(log: seq<Row>, later: seq<Row>, r: Row)
    requires log <= later && ValidLog(later)
    requires IsSuperseded(log, r.Id())
    ensures forall s :: CurrentOf(later, s) != Some(r)
  {
    var k :| 0 <= k < |log| && log[k].obs.supersedes == Some(r.Id());
    assert later[k].obs.supersedes == Some(r.Id());
    forall s ensures CurrentOf(later, s) != Some(r) {
      BestIsOneOf(Leaves(later, s));
      assert !LeafOf(later, s)(r);
    }
  }

  // ---- the effect of one append on what is current ----

  lemma LeavesAfterAppend(log: seq<Row>, r: Row, s: Uuid, kept: Row -> bool)
    requires ValidLog(log) && Admits(log, r.obs)
    requires forall x :: kept(x) <==> r.obs.supersedes != Some(x.Id())
    ensures Leaves(log + [r], s) == Filter(Leaves(log, s), kept) + (if r.SourceId() == s then [r] else [])
  {
    var more := log + [r];
    AppendKeepsValid(log, r.obs, r.recordedAt);
    forall x ensures LeafOf(more, s)(x) <==> LeafOf(log, s)(x) && kept(x) {
      SupersededAfterAppend(log, r, x.Id());
    }
    FilterConcat(log, [r], LeafOf(more, s));
    FilterAnd(log, LeafOf(log, s), kept, LeafOf(more, s));
    NewRowIsALeaf(log, r);
    if r.SourceId() != s {
      assert !LeafOf(more, s)(r);
    }
  }

  lemma SupersededAfterAppend(log: seq<Row>, r: Row, id: Uuid)
    ensures IsSuperseded(log + [r], id) <==> IsSuperseded(log, id) || r.obs.supersedes == Some(id)
  {
    var more := log + [r];
    assert more[|log|] == r;
    if k :| 0 <= k < |log| && log[k].obs.supersedes == Some(id) {
      assert more[k].obs.supersedes == Some(id);
    }
    if k :| 0 <= k < |more| && more[k].obs.supersedes == Some(id) {
      assert k == |log| || log[k].obs.supersedes == Some(id);
    }
  }

  lemma NewRowIsALeaf(log: seq<Row>, r: Row)
    requires ValidLog(log) && Admits(log, r.obs)
    ensures !IsSuperseded(log + [r], r.Id())
  {
    SupersededAfterAppend(log, r, r.Id());
    if k :| 0 <= k < |log| && log[k].obs.supersedes == Some(r.Id()) {
      var j := SupersedesAnEarlierRow(log, k);
      assert false;
    }
  }

  function Not(gone: Row): Row -> bool { (x: Row) => x.Id() != gone.Id() }

  // Appending r leaves every other source's current row alone. For its own source the current row
  // becomes the better of the old one and r; only when r supersedes the old current row is it the
  // best of r and the leaves that remain.
  lemma AppendMovesCurrent(log: seq<Row>, r: Row, s: Uuid)
    requires ValidLog(log) && Admits(log, r.obs)
    ensures r.SourceId() != s ==> CurrentOf(log + [r], s) == CurrentOf(log, s)
    ensures r.SourceId() == s ==>
              var was := CurrentOf(log, s);
              CurrentOf(log + [r], s) ==
                if was.Some? && r.obs.supersedes == Some(was.value.Id())
                then Better(Best(Filter(Leaves(log, s), Not(was.value))), r)
                else Better(was, r)
  {
    var leaves := Leaves(log, s);
    var kept := (x: Row) => r.obs.supersedes != Some(x.Id());
    LeavesAfterAppend(log, r, s, kept);
    if r.SourceId() != s {
      OtherSourcesKeepTheirLeaves(log, r, s, kept);
      assert Filter(leaves, kept) + [] == Filter(leaves, kept);
    } else {
      BestOfOneMore(Filter(leaves, kept), r);
      LeavesAreDistinct(log, s);
      var was := CurrentOf(log, s);
      if was.Some? && r.obs.supersedes == Some(was.value.Id()) {
        SameFilter(leaves, kept, Not(was.value));
      } else {
        DroppingALoserKeepsTheBest(leaves, kept);
      }
    }
  }

  lemma OtherSourcesKeepTheirLeaves(log: seq<Row>, r: Row, s: Uuid, kept: Row -> bool)
    requires ValidLog(log) && Admits(log, r.obs) && r.SourceId() != s
    requires forall x :: kept(x) <==> r.obs.supersedes != Some(x.Id())
    ensures Filter(Leaves(log, s), kept) == Leaves(log, s)
  {
    forall x | x in Leaves(log, s) ensures kept(x) {
      if r.obs.supersedes == Some(x.Id()) {
        var i :| 0 <= i < |log| && log[i] == x;
        var j :| 0 <= j < |log| && log[j].Id() == x.Id() && log[j].SourceId() == r.SourceId();
        IdsAreUnique(log, i, j);
      }
    }
    FilterAll(Leaves(log, s), kept);
  }

  lemma DroppingALoserKeepsTheBest(rows: seq<Row>, kept: Row -> bool)
    requires DistinctIds(rows)
    requires Best(rows).Some? ==> kept(Best(rows).value)
    ensures Best(Filter(rows, kept)) == Best(rows)
  {
    if rows != [] {
      BestBeatsAll(rows);
      var b := Best(rows).value;
      FilterKeepsDistinct(rows, kept);
      var fewer := Filter(rows, kept);
      forall i | 0 <= i < |fewer| ensures fewer[i] == b || Outranks(b, fewer[i]) {
        assert fewer[i] in rows;
        var k :| 0 <= k < |rows| && rows[k] == fewer[i];
      }
      BestIsUnique(fewer, b);
    }
  }

  // "Current only moves to newer rows" is false: retiring the current row can bring an older leaf
  // back. Three rows of one source show it.
  function Observed(id: Uuid, at: Time, supersedes: Option<Uuid>): SourceObservation {
    SourceObservation(id, Provenance(SourceIdentity(7, "u", "a"), at, None, "p", "v"), Fresh, Succeeded,
                      ExtractionNotAttempted, None, None, ["r"], None, supersedes)
  }

  lemma AnOlderRowCanReturn()
    ensures var log := [Row(Observed(1, 20, None), 0), Row(Observed(2, 30, None), 0)];
            var r := Row(Observed(3, 10, Some(2)), 0);
            && ValidLog(log) && Admits(log, r.obs)
            && CurrentOf(log, 7) == Some(log[1])
            && CurrentOf(log + [r], 7) == Some(log[0])
  {
    var a, b, r := Row(Observed(1, 20, None), 0), Row(Observed(2, 30, None), 0), Row(Observed(3, 10, Some(2)), 0);
    TwoFreshLeaves(a, b);
    BestOfTwo(a, b);
    assert [a, b][1].Id() == 2 && HasRow([a, b], 2, 7);
    AppendMovesCurrent([a, b], r, 7);
    BestOfOneMore([], a);
  }

  lemma TwoFreshLeaves(a: Row, b: Row)
    requires a.Id() != b.Id() && a.SourceId() == b.SourceId()
    requires a.obs.supersedes.None? && b.obs.supersedes.None? && RowChecks(a.obs) && RowChecks(b.obs)
    ensures ValidLog([a, b]) && Leaves([a, b], a.SourceId()) == [a, b]
  {
    assert [] + [a] == [a] && [a] + [b] == [a, b];
    AppendKeepsValid([], a.obs, a.recordedAt);
    AppendKeepsValid([a], b.obs, b.recordedAt);
    forall x | x in [a, b] ensures LeafOf([a, b], a.SourceId())(x) {
    }
    FilterAll([a, b], LeafOf([a, b], a.SourceId()));
  }

  lemma BestOfTwo(a: Row, b: Row)
    ensures Best([a, b]) == Better(Some(a), b)
  {
    assert [] + [a] == [a] && [a] + [b] == [a, b];
    BestOfOneMore([], a);
    BestOfOneMore([a], b);
  }

}
