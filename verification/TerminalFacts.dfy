// The operational facts of a terminal and which of them are current
// (apps/api/paxpivot/domain/terminal.py, `list_current_facts` of infrastructure/repositories.py).
module TerminalFacts {
  import opened Wrappers
  import opened Sequences
  import opened Domain

  // In the order of their wire values.
  datatype FactKind = AccessNote | CounterHours | Email | Parking | PassengerTerminalNote | Phone | UsoAvailability

  const KINDS: seq<FactKind> :=
    [AccessNote, CounterHours, Email, Parking, PassengerTerminalNote, Phone, UsoAvailability]

  function Position(kind: FactKind): nat {
    match kind
    case AccessNote => 0
    case CounterHours => 1
    case Email => 2
    case Parking => 3
    case PassengerTerminalNote => 4
    case Phone => 5
    case UsoAvailability => 6
  }

  datatype Fact = Fact(
    factId: Uuid, terminalId: Uuid, kind: FactKind, value: string, provenance: Provenance,
    effectiveFrom: Option<Time>, effectiveTo: Option<Time>, recordedAt: Time)

  // ---- the ranked listing ----

  // `ORDER BY recorded_at DESC, fact_id DESC`: does `a` come first?
  predicate FactOutranks(a: Fact, b: Fact) {
    a.recordedAt > b.recordedAt || (a.recordedAt == b.recordedAt && a.factId > b.factId)
  }

  function OpenFacts(terminalId: Uuid, kind: FactKind): Fact -> bool {
    (f: Fact) => f.terminalId == terminalId && f.effectiveTo.None? && f.kind == kind
  }

  // Rank 1 of some facts.
  function TopFact(facts: seq<Fact>): Option<Fact> {
    if facts == [] then None
    else
      var rest := TopFact(facts[1..]);
      if rest.None? || FactOutranks(facts[0], rest.value) then Some(facts[0]) else rest
  }

  function TopOfEach(facts: seq<Fact>, terminalId: Uuid, kinds: seq<FactKind>): seq<Fact> {
    if kinds == [] then []
    else
      var top := TopFact(Filter(facts, OpenFacts(terminalId, kinds[0])));
      (if top.Some? then [top.value] else []) + TopOfEach(facts, terminalId, kinds[1..])
  }

  // `list_current_facts`: the top open fact of each kind, in the order of the kinds.
  function ListCurrentFacts(facts: seq<Fact>, terminalId: Uuid): seq<Fact> { TopOfEach(facts, terminalId, KINDS) }

  // ---- what is listed ----

  ghost predicate DistinctFacts(facts: seq<Fact>) {
    forall i, j :: 0 <= i < j < |facts| ==> facts[i].factId != facts[j].factId
  }

  // An open fact that no other open fact of its terminal and kind outranks.
  ghost predicate IsCurrentFact(facts: seq<Fact>, f: Fact) {
    && f in facts && f.effectiveTo.None?
    && forall g :: g in facts && g != f && OpenFacts(f.terminalId, f.kind)(g) ==> FactOutranks(f, g)
  }

  ghost predicate BeatsAllFacts(facts: seq<Fact>, f: Fact) {
    f in facts && forall g :: g in facts && g != f ==> FactOutranks(f, g)
  }

  ghost predicate FactsIdentified(facts: seq<Fact>) {
    forall f, g :: f in facts && g in facts && f.factId == g.factId ==> f == g
  }

  lemma DistinctFactsAreIdentified(facts: seq<Fact>)
    requires DistinctFacts(facts)
    ensures FactsIdentified(facts)
  {
    forall f, g | f in facts && g in facts && f.factId == g.factId ensures f == g {
      var i :| 0 <= i < |facts| && facts[i] == f;
      var j :| 0 <= j < |facts| && facts[j] == g;
      assert i == j;
    }
  }

  lemma {:induction false} TopBeatsAll(facts: seq<Fact>)
    requires FactsIdentified(facts)
    ensures TopFact(facts).None? <==> facts == []
    ensures TopFact(facts).Some? ==> BeatsAllFacts(facts, TopFact(facts).value)
  {
    if facts != [] {
      var rest := facts[1..];
      assert FactsIdentified(rest);
      TopBeatsAll(rest);
      var top := TopFact(facts).value;
      forall g | g in facts && g != top ensures FactOutranks(top, g) {
        assert g == facts[0] || g in rest;
      }
    }
  }

  // Of one kind, the listing holds exactly the current fact.
  lemma TopIsCurrent(facts: seq<Fact>, terminalId: Uuid, kind: FactKind, f: Fact)
    requires FactsIdentified(facts)
    ensures TopFact(Filter(facts, OpenFacts(terminalId, kind))) == Some(f) <==>
            f.terminalId == terminalId && f.kind == kind && IsCurrentFact(facts, f)
  {
    var open := Filter(facts, OpenFacts(terminalId, kind));
    TopBeatsAll(open);
    if TopFact(open) == Some(f) {
      assert f in open;
      forall g | g in facts && g != f && OpenFacts(f.terminalId, f.kind)(g) ensures FactOutranks(f, g) {
        assert g in open;
      }
    }
    if f.terminalId == terminalId && f.kind == kind && IsCurrentFact(facts, f) {
      assert f in open;
      var top := TopFact(open).value;
      assert top in open;
      assert top != f ==> FactOutranks(f, top);
    }
  }

  lemma {:induction false} TopOfEachHolds(facts: seq<Fact>, terminalId: Uuid, kinds: seq<FactKind>, f: Fact)
    requires FactsIdentified(facts)
    ensures f in TopOfEach(facts, terminalId, kinds) <==>
            f.kind in kinds && f.terminalId == terminalId && IsCurrentFact(facts, f)
  {
    if kinds != [] {
      TopOfEachHolds(facts, terminalId, kinds[1..], f);
      TopIsCurrent(facts, terminalId, kinds[0], f);
    }
  }

  lemma EveryKindIsListed(kind: FactKind)
    ensures kind in KINDS
  {
    assert KINDS[Position(kind)] == kind;
  }

  // The listing holds exactly the current facts of the terminal.
  lemma CurrentFactsExactly(facts: seq<Fact>, terminalId: Uuid, f: Fact)
    requires DistinctFacts(facts)
    ensures f in ListCurrentFacts(facts, terminalId) <==> f.terminalId == terminalId && IsCurrentFact(facts, f)
  {
    DistinctFactsAreIdentified(facts);
    TopOfEachHolds(facts, terminalId, KINDS, f);
    EveryKindIsListed(f.kind);
  }

  // A fact can only be closed by the row that states it: appending a closed row, newer or not, leaves
  // the listing of every terminal as it was.
  lemma {:induction false} ClosedFactsChangeNothing(facts: seq<Fact>, closed: Fact, terminalId: Uuid,
                                                    kinds: seq<FactKind>)
    requires closed.effectiveTo.Some?
    ensures TopOfEach(facts + [closed], terminalId, kinds) == TopOfEach(facts, terminalId, kinds)
  {
    if kinds != [] {
      ClosedFactsChangeNothing(facts, closed, terminalId, kinds[1..]);
      var open := OpenFacts(terminalId, kinds[0]);
      FilterConcat(facts, [closed], open);
      FilterNone([closed], open);
      assert Filter(facts, open) + [] == Filter(facts, open);
    }
  }

  // ---- order ----

  ghost predicate KindsAscend(facts: seq<Fact>) {
    forall i, j :: 0 <= i < j < |facts| ==> Position(facts[i].kind) < Position(facts[j].kind)
  }

  ghost predicate Ascending(kinds: seq<FactKind>) {
    forall i, j :: 0 <= i < j < |kinds| ==> Position(kinds[i]) < Position(kinds[j])
  }

  lemma {:induction false} TopsAscend(facts: seq<Fact>, terminalId: Uuid, kinds: seq<FactKind>)
    requires FactsIdentified(facts) && Ascending(kinds)
    ensures KindsAscend(TopOfEach(facts, terminalId, kinds))
  {
    if kinds != [] {
      var rest := TopOfEach(facts, terminalId, kinds[1..]);
      TopsAscend(facts, terminalId, kinds[1..]);
      forall k | 0 <= k < |rest| ensures Position(kinds[0]) < Position(rest[k].kind) {
        TopOfEachHolds(facts, terminalId, kinds[1..], rest[k]);
        var m :| 0 <= m < |kinds[1..]| && kinds[1..][m] == rest[k].kind;
        assert kinds[m + 1] == rest[k].kind;
      }
      var top := TopFact(Filter(facts, OpenFacts(terminalId, kinds[0])));
      if top.Some? {
        TopIsCurrent(facts, terminalId, kinds[0], top.value);
      }
    }
  }

  // Each kind is listed at most once, in the order of the kinds.
  lemma OneFactPerKind(facts: seq<Fact>, terminalId: Uuid)
    requires DistinctFacts(facts)
    ensures KindsAscend(ListCurrentFacts(facts, terminalId))
  {
    DistinctFactsAreIdentified(facts);
    TopsAscend(facts, terminalId, KINDS);
  }

  lemma {:induction false} SelectionAscends(facts: seq<Fact>, p: Fact -> bool)
    requires KindsAscend(facts)
    ensures KindsAscend(Filter(facts, p))
  {
    if facts != [] {
      var rest := facts[1..];
      assert forall i :: 0 <= i < |rest| ==> rest[i] == facts[i + 1];
      SelectionAscends(rest, p);
      forall k | 0 <= k < |Filter(rest, p)| ensures Position(facts[0].kind) < Position(Filter(rest, p)[k].kind) {
        assert Filter(rest, p)[k] in rest;
      }
    }
  }
}
