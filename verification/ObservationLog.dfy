// The append-only observation table and the row that is current for each source
// (apps/api/paxpivot/infrastructure/repositories.py and database.py).
module ObservationLog {
  import opened Wrappers
  import opened Sequences
  import opened Domain

  // A stored observation with the time its transaction began (`recorded_at`).
  datatype Row = Row(obs: SourceObservation, recordedAt: Time) {
    function Id(): Uuid { obs.observationId }
    function SourceId(): Uuid { obs.SourceId() }
  }

  // ---- the table's constraints ----

  // The CHECK constraints on one row.
  predicate RowChecks(o: SourceObservation) {
    && (Positive(o.state) ==> o.retrieval.Succeeded?)
    && (o.payloadRef.Some? ==> o.retrieval.Succeeded?)
    && o.confidenceReasons != []
    && o.supersedes != Some(o.observationId)
    && NoCredentialMarks(o.provenance.source.url)
  }

  predicate HasRow(log: seq<Row>, id: Uuid, sourceId: Uuid) {
    exists i :: 0 <= i < |log| && log[i].Id() == id && log[i].SourceId() == sourceId
  }

  // Primary key, CHECKs and the composite foreign key of supersession, against the rows so far.
  predicate Admits(log: seq<Row>, o: SourceObservation) {
    && RowChecks(o)
    && (forall i :: 0 <= i < |log| ==> log[i].Id() != o.observationId)
    && (o.supersedes.Some? ==> HasRow(log, o.supersedes.value, o.SourceId()))
  }

  // What single-row appends can reach: every row was admitted by the rows before it.
  ghost predicate ValidLog(log: seq<Row>) {
    forall i :: 0 <= i < |log| ==> Admits(log[..i], log[i].obs)
  }

  // ---- which row is current ----

  // `ORDER BY observed_at DESC, recorded_at DESC, observation_id DESC`: does `a` come first?
  predicate Outranks(a: Row, b: Row) {
    || a.obs.At() > b.obs.At()
    || (a.obs.At() == b.obs.At() && a.recordedAt > b.recordedAt)
    || (a.obs.At() == b.obs.At() && a.recordedAt == b.recordedAt && a.Id() > b.Id())
  }

  predicate IsSuperseded(log: seq<Row>, id: Uuid) {
    exists i :: 0 <= i < |log| && log[i].obs.supersedes == Some(id)
  }

  function LeafOf(log: seq<Row>, sourceId: Uuid): Row -> bool {
    (r: Row) => r.SourceId() == sourceId && !IsSuperseded(log, r.Id())
  }

  function Leaves(log: seq<Row>, sourceId: Uuid): seq<Row> { Filter(log, LeafOf(log, sourceId)) }

  // Rank 1 of the partition, by definition: a leaf no other leaf of its source outranks.
  ghost predicate IsCurrent(log: seq<Row>, r: Row) {
    && r in Leaves(log, r.SourceId())
    && forall x :: x in Leaves(log, r.SourceId()) && x != r ==> Outranks(r, x)
  }

  // The best of some rows, kept in one pass.
  function Best(rows: seq<Row>): Option<Row> {
    if rows == [] then None else Better(Best(rows[..|rows| - 1]), rows[|rows| - 1])
  }

  function Better(kept: Option<Row>, r: Row): Option<Row> {
    if kept.None? || Outranks(r, kept.value) then Some(r) else kept
  }

  function CurrentOf(log: seq<Row>, sourceId: Uuid): Option<Row> { Best(Leaves(log, sourceId)) }

  function SourcesIn(log: seq<Row>): set<Uuid> { set r | r in log :: r.SourceId() }

  // `latest_per_source`: the current row of every source that has one.
  function Latest(log: seq<Row>): map<Uuid, Row> {
    map s | s in SourcesIn(log) && CurrentOf(log, s).Some? :: CurrentOf(log, s).value
  }

  // `list_for_source`: the newest rows of one source first, superseded ones included.
  function ListForSource(log: seq<Row>, sourceId: Uuid, limit: nat): seq<Row> {
    var all := Listing(log, sourceId);
    if limit <= |all| then all[..limit] else all
  }

  // Descending rank, built by insertion.
  function Listing(log: seq<Row>, sourceId: Uuid): seq<Row> {
    if log == [] then []
    else
      var rest := Listing(log[..|log| - 1], sourceId);
      var r := log[|log| - 1];
      if r.SourceId() == sourceId then InsertRanked(r, rest) else rest
  }

  function InsertRanked(r: Row, rows: seq<Row>): seq<Row> {
    if rows == [] || Outranks(r, rows[0]) then [r] + rows else [rows[0]] + InsertRanked(r, rows[1..])
  }

  // ---- the repository ----

  class ObservationRepository {
    var rows: seq<Row>

    constructor (stored: seq<Row>)
      ensures rows == stored
    {
      rows := stored;
    }

    // One INSERT. `false` is the database refusing it; the foreign key to the register holds
    // because `registered` are the identifiers in the sources table.
    method Append(o: SourceObservation, registered: set<Uuid>, recordedAt: Time) returns (stored: bool)
      modifies this
      ensures stored <==> Admits(old(rows), o) && o.SourceId() in registered
      ensures rows == if stored then old(rows) + [Row(o, recordedAt)] else old(rows)
    {
      stored := Admits(rows, o) && o.SourceId() in registered;
      if stored {
        rows := rows + [Row(o, recordedAt)];
      }
    }

    // The same rule evaluated in one pass over the table, keeping the best leaf seen per source.
    method LatestPerSource() returns (latest: map<Uuid, Row>)
      ensures latest == Latest(rows)
    {
      latest := map[];
      for i := 0 to |rows|
        invariant forall s: Uuid :: Lookup(latest, s) == BestLeafUpTo(rows, i, s)
      {
        var r := rows[i];
        ghost var before := latest;
        if !IsSuperseded(rows, r.Id()) {
          var s := r.SourceId();
          if s !in latest || Outranks(r, latest[s]) {
            latest := latest[s := r];
          }
        }
        forall s: Uuid ensures Lookup(latest, s) == BestLeafUpTo(rows, i + 1, s) {
          BestLeafStep(rows, i, s);
          assert Lookup(before, s) == BestLeafUpTo(rows, i, s);
        }
      }
      LookupIsLatest(rows, latest);
    }
  }

  function Lookup(latest: map<Uuid, Row>, s: Uuid): Option<Row> {
    if s in latest then Some(latest[s]) else None
  }

  ghost function BestLeafUpTo(rows: seq<Row>, i: nat, s: Uuid): Option<Row>
    requires i <= |rows|
  {
    Best(Filter(rows[..i], LeafOf(rows, s)))
  }

  lemma BestLeafStep(rows: seq<Row>, i: nat, s: Uuid)
    requires i < |rows|
    ensures BestLeafUpTo(rows, i + 1, s)
         == if LeafOf(rows, s)(rows[i]) then Better(BestLeafUpTo(rows, i, s), rows[i]) else BestLeafUpTo(rows, i, s)
  {
    assert rows[..i + 1] == rows[..i] + [rows[i]];
    FilterConcat(rows[..i], [rows[i]], LeafOf(rows, s));
    if LeafOf(rows, s)(rows[i]) {
      BestOfOneMore(Filter(rows[..i], LeafOf(rows, s)), rows[i]);
    } else {
      assert Filter(rows[..i], LeafOf(rows, s)) + [] == Filter(rows[..i], LeafOf(rows, s));
    }
  }

  lemma LookupIsLatest(rows: seq<Row>, latest: map<Uuid, Row>)
    requires forall s: Uuid :: Lookup(latest, s) == BestLeafUpTo(rows, |rows|, s)
    ensures latest == Latest(rows)
  {
    assert rows[..|rows|] == rows;
    forall s: Uuid ensures Lookup(latest, s) == Lookup(Latest(rows), s) {
      assert Lookup(latest, s) == BestLeafUpTo(rows, |rows|, s);
      BestIsOneOf(Leaves(rows, s));
      if CurrentOf(rows, s).Some? {
        assert CurrentOf(rows, s).value in rows && CurrentOf(rows, s).value.SourceId() == s;
      }
    }
    forall s: Uuid ensures s in latest <==> s in Latest(rows) {
      assert Lookup(latest, s) == Lookup(Latest(rows), s);
    }
    forall s | s in latest ensures latest[s] == Latest(rows)[s] {
      assert Lookup(latest, s) == Lookup(Latest(rows), s);
    }
  }

  lemma BestOfOneMore(rows: seq<Row>, r: Row)
    ensures Best(rows + [r]) == Better(Best(rows), r)
  {
    assert (rows + [r])[..|rows + [r]| - 1] == rows;
  }

  lemma {:induction false} BestIsOneOf(rows: seq<Row>)
    ensures rows == [] <==> Best(rows).None?
    ensures Best(rows).Some? ==> Best(rows).value in rows
  {
    if rows != [] {
      BestIsOneOf(rows[..|rows| - 1]);
    }
  }
}
