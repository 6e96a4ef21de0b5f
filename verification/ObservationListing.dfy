// The newest-first listing of one source, and the report read from a capped listing
// (apps/api/paxpivot/infrastructure/repositories.py:288-296, tooling.py:336-359).
module ObservationListing {
  import opened Wrappers
  import opened Sequences
  import opened Domain
  import opened ObservationLog
  import opened ObservationLaws
  import opened ReliabilityGate
  import opened ReliabilityOrder

  function FromSource(s: Uuid): Row -> bool { (r: Row) => r.SourceId() == s }
  function ToObservation(): Row -> SourceObservation { (r: Row) => r.obs }
  function RecentFrom(s: Uuid, start: Time): Row -> bool {
    (r: Row) => r.SourceId() == s && r.obs.At() >= start
  }
  function Recent(start: Time): Row -> bool { (r: Row) => r.obs.At() >= start }

  ghost predicate Ranked(rows: seq<Row>) {
    forall i, j :: 0 <= i < j < |rows| ==> Outranks(rows[i], rows[j])
  }

  lemma {:induction false} InsertRankedKeeps(r: Row, rows: seq<Row>)
    requires Ranked(rows) && forall i :: 0 <= i < |rows| ==> rows[i].Id() != r.Id()
    ensures Ranked(InsertRanked(r, rows))
    ensures multiset(InsertRanked(r, rows)) == multiset(rows) + multiset{r}
  {
    if rows == [] || Outranks(r, rows[0]) {
      RankedInFront(r, rows);
    } else {
      var rest := InsertRanked(r, rows[1..]);
      InsertRankedKeeps(r, rows[1..]);
      assert rows == [rows[0]] + rows[1..];
      forall j | 0 <= j < |rest| ensures Outranks(rows[0], rest[j]) {
        assert rest[j] in multiset(rest);
        if rest[j] != r {
          LaterRowIsOutranked(rows, rest[j]);
        }
      }
      RankedInFront(rows[0], rest);
    }
  }

  lemma RankedInFront(r: Row, rows: seq<Row>)
    requires Ranked(rows) && (rows == [] || Outranks(r, rows[0]))
    ensures Ranked([r] + rows)
  {
    forall j | 1 <= j < |[r] + rows| ensures Outranks(r, ([r] + rows)[j]) {
      assert j == 1 || Outranks(rows[0], rows[j - 1]);
    }
  }

  lemma LaterRowIsOutranked(rows: seq<Row>, x: Row)
    requires Ranked(rows) && rows != [] && x in rows[1..]
    ensures Outranks(rows[0], x)
  {
    var k :| 0 <= k < |rows[1..]| && rows[1..][k] == x;
    assert rows[k + 1] == x;
  }

  // The listing holds exactly the source's rows, each as often as the table does, newest first.
  lemma {:induction false} ListingIsRanked(log: seq<Row>, s: Uuid)
    requires DistinctIds(log)
    ensures Ranked(Listing(log, s))
    ensures multiset(Listing(log, s)) == multiset(Filter(log, FromSource(s)))
  {
    if log != [] {
      var front, r := log[..|log| - 1], log[|log| - 1];
      assert log == front + [r];
      ListingIsRanked(front, s);
      FilterConcat(front, [r], FromSource(s));
      if r.SourceId() == s {
        var rest := Listing(front, s);
        forall i | 0 <= i < |rest| ensures rest[i].Id() != r.Id() {
          OlderRowsHaveOtherIds(log, rest, s, i);
        }
        InsertRankedKeeps(r, rest);
      }
    }
  }

  lemma OlderRowsHaveOtherIds(log: seq<Row>, rest: seq<Row>, s: Uuid, i: nat)
    requires DistinctIds(log) && log != [] && i < |rest|
    requires multiset(rest) == multiset(Filter(log[..|log| - 1], FromSource(s)))
    ensures rest[i].Id() != log[|log| - 1].Id()
  {
    var front := log[..|log| - 1];
    assert rest[i] in multiset(rest);
    assert rest[i] in Filter(front, FromSource(s));
    assert rest[i] in front;
    var k :| 0 <= k < |front| && front[k] == rest[i];
    assert log[k] == rest[i];
  }

  lemma {:induction false} FilterOfMap(rows: seq<Row>, start: Time)
    ensures |Filter(Map(rows, ToObservation()), AtOrAfter(start))| == |Filter(rows, Recent(start))|
  {
    if rows != [] {
      FilterOfMap(rows[1..], start);
      assert Map(rows, ToObservation())[1..] == Map(rows[1..], ToObservation());
    }
  }

  lemma RecentRowsOfTheListing(log: seq<Row>, s: Uuid, start: Time)
    requires ValidLog(log)
    ensures |Filter(Map(Listing(log, s), ToObservation()), AtOrAfter(start))| == |Filter(log, RecentFrom(s, start))|
  {
    LeavesAreDistinct(log, s);
    ListingIsRanked(log, s);
    FilterOfMap(Listing(log, s), start);
    FilterMultiset(Listing(log, s), Filter(log, FromSource(s)), Recent(start));
    SameLength(Filter(Listing(log, s), Recent(start)), Filter(Filter(log, FromSource(s)), Recent(start)));
    FilterAnd(log, FromSource(s), Recent(start), RecentFrom(s, start));
  }

  lemma ListingIsNewestFirst(log: seq<Row>, s: Uuid)
    requires ValidLog(log)
    ensures NewestFirst(Map(Listing(log, s), ToObservation()))
  {
    LeavesAreDistinct(log, s);
    ListingIsRanked(log, s);
    var rows := Listing(log, s);
    forall i, j | 0 <= i < j < |rows| ensures rows[i].obs.At() >= rows[j].obs.At() {
      assert Outranks(rows[i], rows[j]);
    }
  }

  function ReportOf(rows: seq<Row>, cadence: Option<int>, start: Time, now: Time): SourceReliability
    requires cadence.Some? ==> cadence.value > 0
  {
    Reliability(Map(rows, ToObservation()), cadence, start, now)
  }

  ghost predicate RowInWindow(log: seq<Row>, s: Uuid, start: Time, now: Time) {
    exists i :: 0 <= i < |log| && log[i].SourceId() == s && start <= log[i].obs.At() <= now
  }

  // The command that reports on a source lists at most `limit` + 1 of its rows. That report is the
  // report on everything the table holds exactly when at most `limit` of its rows are as recent as
  // the window's start, or it has no more rows than are listed, or the window holds none of them.
  lemma CappedListingReportsTheWholeSource(log: seq<Row>, s: Uuid, limit: nat, cadence: Option<int>,
                                           start: Time, now: Time)
    requires ValidLog(log)
    requires cadence.Some? ==> cadence.value > 0
    ensures ReportOf(ListForSource(log, s, limit + 1), cadence, start, now)
            == ReportOf(Listing(log, s), cadence, start, now) <==>
            || |Filter(log, RecentFrom(s, start))| <= limit
            || |Filter(log, FromSource(s))| <= limit + 1
            || !RowInWindow(log, s, start, now)
  {
    var all := Map(Listing(log, s), ToObservation());
    RecentRowsOfTheListing(log, s, start);
    ListingIsNewestFirst(log, s);
    CappedHistoryExactly(all, limit, cadence, start, now);
    assert Map(ListForSource(log, s, limit + 1), ToObservation()) == FirstOf(all, limit + 1);
    LeavesAreDistinct(log, s);
    ListingIsRanked(log, s);
    SameLength(Listing(log, s), Filter(log, FromSource(s)));
    WindowOfTheListing(log, s, start, now);
  }

  lemma WindowHoldsARow(observations: seq<SourceObservation>, start: Time, now: Time)
    ensures Inside(observations, start, now) != [] <==>
            exists k :: 0 <= k < |observations| && start <= observations[k].At() <= now
  {
    WindowContents(observations, start, now);
    if Inside(observations, start, now) != [] {
      assert Inside(observations, start, now)[0] in Inside(observations, start, now);
      assert Inside(observations, start, now)[0] in observations;
    }
    if k :| 0 <= k < |observations| && start <= observations[k].At() <= now {
      assert observations[k] in Inside(observations, start, now);
    }
  }

  lemma ListedRowIsStored(log: seq<Row>, s: Uuid, k: nat)
    requires multiset(Listing(log, s)) == multiset(Filter(log, FromSource(s))) && k < |Listing(log, s)|
    ensures exists i :: 0 <= i < |log| && log[i] == Listing(log, s)[k] && log[i].SourceId() == s
  {
    assert Listing(log, s)[k] in multiset(Listing(log, s));
    assert Listing(log, s)[k] in Filter(log, FromSource(s));
  }

  lemma StoredRowIsListed(log: seq<Row>, s: Uuid, i: nat)
    requires multiset(Listing(log, s)) == multiset(Filter(log, FromSource(s)))
    requires i < |log| && log[i].SourceId() == s
    ensures exists k :: 0 <= k < |Listing(log, s)| && Listing(log, s)[k] == log[i]
  {
    assert log[i] in Filter(log, FromSource(s));
    assert log[i] in multiset(Listing(log, s));
  }

  lemma WindowOfTheListing(log: seq<Row>, s: Uuid, start: Time, now: Time)
    requires multiset(Listing(log, s)) == multiset(Filter(log, FromSource(s)))
    ensures Inside(Map(Listing(log, s), ToObservation()), start, now) != [] <==> RowInWindow(log, s, start, now)
  {
    var all := Map(Listing(log, s), ToObservation());
    WindowHoldsARow(all, start, now);
    if k :| 0 <= k < |all| && start <= all[k].At() <= now {
      ListedRowIsStored(log, s, k);
    }
    if i :| 0 <= i < |log| && log[i].SourceId() == s && start <= log[i].obs.At() <= now {
      StoredRowIsListed(log, s, i);
      var k :| 0 <= k < |all| && Listing(log, s)[k] == log[i];
      assert all[k] == log[i].obs;
    }
  }

  // ---- the in-memory table used by the unit tests ----

  // It has no recorded_at, so a tie in observed_at falls straight to the identifier.
  predicate OutranksInMemory(a: Row, b: Row) {
    a.obs.At() > b.obs.At() || (a.obs.At() == b.obs.At() && a.Id() > b.Id())
  }

  function BestInMemory(rows: seq<Row>): Option<Row> {
    if rows == [] then None
    else
      var kept := BestInMemory(rows[..|rows| - 1]);
      var r := rows[|rows| - 1];
      if kept.None? || OutranksInMemory(r, kept.value) then Some(r) else kept
  }

  // Observed together, recorded later, and with the smaller identifier.
  predicate TiedAgainstIdentifier(a: Row, b: Row) {
    a.obs.At() == b.obs.At() && a.recordedAt > b.recordedAt && a.Id() < b.Id()
  }

  // Of two rows observed together, the one recorded later has the larger identifier.
  ghost predicate TiesFollowIdentifiers(table: seq<Row>) {
    forall a, b :: a in table && b in table ==> !TiedAgainstIdentifier(a, b)
  }

  lemma {:induction false} BestInMemoryBeatsAll(rows: seq<Row>)
    requires DistinctIds(rows) && rows != []
    ensures BestInMemory(rows).Some? && BestInMemory(rows).value in rows
    ensures forall i :: 0 <= i < |rows| ==>
              rows[i] == BestInMemory(rows).value || OutranksInMemory(BestInMemory(rows).value, rows[i])
  {
    var front, last := rows[..|rows| - 1], rows[|rows| - 1];
    if front != [] {
      BestInMemoryBeatsAll(front);
      var kept := BestInMemory(front).value;
      var k :| 0 <= k < |front| && front[k] == kept;
      assert rows[k].Id() != last.Id();
      forall i | 0 <= i < |rows|
        ensures rows[i] == BestInMemory(rows).value || OutranksInMemory(BestInMemory(rows).value, rows[i])
      {
        assert i == |rows| - 1 || rows[i] == front[i];
      }
    }
  }

  // No row observed at the same time as b has a larger identifier.
  ghost predicate LargestOfItsTime(rows: seq<Row>, b: Row) {
    forall i :: 0 <= i < |rows| && rows[i].obs.At() == b.obs.At() ==> rows[i].Id() <= b.Id()
  }

  // Over one table the two agree exactly when the database's row also has the largest identifier of
  // the rows observed when it was.
  lemma InMemoryAgrees(rows: seq<Row>)
    requires DistinctIds(rows) && rows != []
    ensures Best(rows).Some?
    ensures BestInMemory(rows) == Best(rows) <==> LargestOfItsTime(rows, Best(rows).value)
  {
    BestBeatsAll(rows);
    BestInMemoryBeatsAll(rows);
    var b, c := Best(rows).value, BestInMemory(rows).value;
    var i :| 0 <= i < |rows| && rows[i] == b;
    var j :| 0 <= j < |rows| && rows[j] == c;
    assert rows[j] == b || Outranks(b, rows[j]);
    assert rows[i] == c || OutranksInMemory(c, rows[i]);
    if LargestOfItsTime(rows, b) {
      assert c.obs.At() == b.obs.At() ==> c.Id() <= b.Id();
    }
  }

  lemma InMemoryFollows(rows: seq<Row>)
    requires DistinctIds(rows) && TiesFollowIdentifiers(rows)
    ensures BestInMemory(rows) == Best(rows)
  {
    if rows != [] {
      InMemoryAgrees(rows);
      BestBeatsAll(rows);
      var b := Best(rows).value;
      forall i | 0 <= i < |rows| && rows[i].obs.At() == b.obs.At() ensures rows[i].Id() <= b.Id() {
        assert rows[i] == b || Outranks(b, rows[i]);
        assert rows[i] in rows && !TiedAgainstIdentifier(b, rows[i]);
      }
    }
  }

  // Rows of a table, each at most once, in any order: what a part of the table may hold.
  ghost predicate PartOf(rows: seq<Row>, table: seq<Row>) {
    DistinctIds(rows) && forall r :: r in rows ==> r in table
  }

  // The two pick the same row of every part of a table exactly when its ties follow identifiers.
  lemma InMemoryAgreesOnEveryPart(table: seq<Row>)
    ensures (forall rows :: PartOf(rows, table) ==> BestInMemory(rows) == Best(rows)) <==> TiesFollowIdentifiers(table)
  {
    if TiesFollowIdentifiers(table) {
      forall rows | PartOf(rows, table) ensures BestInMemory(rows) == Best(rows) {
        InMemoryFollows(rows);
      }
    } else {
      var a, b :| a in table && b in table && TiedAgainstIdentifier(a, b);
      assert PartOf([b, a], table);
      PairPicked(a, b);
    }
  }

  lemma PairPicked(a: Row, b: Row)
    requires TiedAgainstIdentifier(a, b)
    ensures Best([b, a]) == Some(a) && BestInMemory([b, a]) == Some(b)
  {
    BestOfTwo(b, a);
    assert [b, a][..1] == [b] && [b][..0] == [];
    assert BestInMemory([b]) == Some(b);
    assert !OutranksInMemory(a, b);
  }

  // Without that the two differ: recorded later, smaller identifier.
  lemma InMemoryCanDisagree()
    ensures var rows := [Row(Observed(2, 20, None), 0), Row(Observed(1, 20, None), 5)];
            Best(rows) == Some(rows[1]) && BestInMemory(rows) == Some(rows[0])
  {
    PairPicked(Row(Observed(1, 20, None), 5), Row(Observed(2, 20, None), 0));
  }
}
