/** The frozen contracts of the learning loop: cells, metrics, scores, envelopes, allocations and the
    references built from them. A reference is a fingerprint of canonical content in the program; here
    it is that content itself, so two references are equal exactly when what they identify is equal. */
module LearningContracts {
  import opened Wrappers

  datatype Country = CH | FR

  datatype Currency = CHF | EUR

  datatype Cell = Cell(country: Country, wedge: string) {
    function Key(): string {
      (if country == CH then "CH:" else "FR:") + wedge
    }
  }

  lemma KeyIdentifiesCell(a: Cell, b: Cell)
    requires a.Key() == b.Key()
    ensures a == b
  {
    assert a.Key()[0] == b.Key()[0];
    assert a.wedge == a.Key()[3..] && b.wedge == b.Key()[3..];
  }

  // ---------- metrics and scores ----------

  datatype CellMetrics = CellMetrics(
    cell: Cell,
    contactedCount: nat, bounceCount: nat, positiveReplyCount: nat, complaintCount: nat,
    unsubscribeCount: nat, clickCount: nat, signupCount: nat, activationCount: nat, paidCount: nat,
    knownMrrMinorUnits: nat, retainedMrrMinorUnits: nat, currency: Option<Currency>, mrrComplete: bool,
    m1EligibleCount: nat, retainedM1Count: nat, m2EligibleCount: nat, retainedM2Count: nat,
    churnCount: nat, knownVariableCostMinorUnits: nat, costCurrency: Option<Currency>,
    costComplete: bool, conversionIdentityAmbiguous: bool)

  datatype ScoreStatus = Ready | InsufficientEvidence | CostIncomplete | MrrIncomplete | RiskBlocked

  datatype EconomicScore = EconomicScore(
    cell: Cell, status: ScoreStatus, currency: Option<Currency>, score: real)

  // ---------- envelopes and allocations ----------

  /** Units per cell. The program lists them in key order, so the list and this map determine each other. */
  type Allocation = map<Cell, nat>

  datatype AllocationCell = AllocationCell(cell: Cell, currentUnits: nat, minimumUnits: nat, maximumUnits: nat)

  datatype EnvelopeFields = EnvelopeFields(
    validFrom: int, validUntil: int, totalDailyUnits: nat, cells: seq<AllocationCell>)

  predicate Covers(cells: seq<AllocationCell>, a: Allocation) {
    forall b :: b in cells ==> b.cell in a
  }

  function Units(cells: seq<AllocationCell>, a: Allocation): nat
    requires Covers(cells, a)
  {
    if cells == [] then 0 else a[cells[0].cell] + Units(cells[1..], a)
  }

  predicate DistinctCells(cells: seq<AllocationCell>) {
    forall i, j :: 0 <= i < j < |cells| ==> cells[i].cell != cells[j].cell
  }

  function CurrentUnits(cells: seq<AllocationCell>): nat {
    if cells == [] then 0 else cells[0].currentUnits + CurrentUnits(cells[1..])
  }

  predicate ValidEnvelope(e: EnvelopeFields) {
    && e.validFrom < e.validUntil
    && 1 <= |e.cells| <= 64
    && (forall b :: b in e.cells ==> b.minimumUnits <= b.currentUnits <= b.maximumUnits)
    && DistinctCells(e.cells)
    && CurrentUnits(e.cells) == e.totalDailyUnits
  }

  type Envelope = e: EnvelopeFields | ValidEnvelope(e)
    witness EnvelopeFields(0, 1, 0, [AllocationCell(Cell(CH, "w"), 0, 0, 0)])

  function CellSet(cells: seq<AllocationCell>): set<Cell> {
    set b | b in cells :: b.cell
  }

  /** The envelope's own allocation, from which the authority chain starts. */
  function InitialAllocation(e: Envelope): Allocation {
    map b | b in e.cells :: b.cell := b.currentUnits
  }

  function Bounds(e: Envelope): map<Cell, AllocationCell> {
    map b | b in e.cells :: b.cell := b
  }

  /** What an allocation must satisfy to be used under an envelope. */
  ghost predicate ValidAllocation(e: Envelope, a: Allocation) {
    && a.Keys == CellSet(e.cells)
    && Units(e.cells, a) == e.totalDailyUnits
    && forall b :: b in e.cells ==> b.minimumUnits <= a[b.cell] <= b.maximumUnits
  }

  lemma {:induction false} UnitsOfCurrent(cells: seq<AllocationCell>, a: Allocation)
    requires Covers(cells, a) && forall b :: b in cells ==> a[b.cell] == b.currentUnits
    ensures Units(cells, a) == CurrentUnits(cells)
  {
    if cells != [] {
      UnitsOfCurrent(cells[1..], a);
    }
  }

  lemma InitialAllocationIsValid(e: Envelope)
    ensures ValidAllocation(e, InitialAllocation(e))
  {
    UnitsOfCurrent(e.cells, InitialAllocation(e));
  }

  // ---------- references ----------

  datatype Kind = NoChange | ShiftOneUnit

  datatype SnapshotRef = SnapshotRef(
    windowEnd: int, metrics: seq<CellMetrics>, envelope: Envelope, current: Allocation,
    previous: Option<ProposalRef>)

  datatype ProposalRef = ProposalRef(
    snapshot: SnapshotRef, kind: Kind, fromCell: Option<Cell>, toCell: Option<Cell>,
    current: Allocation, proposed: Allocation, baseline: Authority)

  /** What an allocation rests on: the envelope itself, or an applied proposal. */
  datatype Authority = Initial(envelope: Envelope) | Applied(proposal: ProposalRef)

  function BaselineOf(s: SnapshotRef): Authority {
    match s.previous
    case None => Initial(s.envelope)
    case Some(p) => Applied(p)
  }

  // ---------- failures ----------

  /** The exceptions the loop can raise. `MultipleRows` is a lookup for at most one row that finds two. */
  datatype LearningError =
    | InvalidWindow | IncompatibleAllocation | InvalidSelection | InvalidArgument
    | UnknownProposal | Conflict | CircuitOpen | MultipleRows | AuthorityCycle | IntegrityViolation

  // ---------- candidates ----------

  datatype Candidate = Candidate(
    ref: ProposalRef, snapshot: SnapshotRef, kind: Kind, current: Allocation, proposed: Allocation,
    baseline: Authority, fromCell: Option<Cell>, toCell: Option<Cell>, deltaUnits: nat,
    expectedScoreDelta: real)

  /** The sum of all values of an allocation, in whatever order they are added. */
  ghost function MapTotal(a: Allocation): nat
    decreases |a|
  {
    if a == map[] then 0 else
      var c :| c in a;
      a[c] + MapTotal(a - {c})
  }

  lemma {:induction false} MapTotalPick(a: Allocation, c: Cell)
    requires c in a
    ensures MapTotal(a) == a[c] + MapTotal(a - {c})
    decreases |a|
  {
    var p :| p in a && MapTotal(a) == a[p] + MapTotal(a - {p});
    if p != c {
      MapTotalPick(a - {p}, c);
      MapTotalPick(a - {c}, p);
      assert a - {p} - {c} == a - {c} - {p};
    }
  }

  lemma {:induction false} UnitsFrame(cells: seq<AllocationCell>, a: Allocation, b: Allocation)
    requires Covers(cells, a) && Covers(cells, b)
    requires forall x :: x in cells ==> a[x.cell] == b[x.cell]
    ensures Units(cells, a) == Units(cells, b)
  {
    if cells != [] {
      UnitsFrame(cells[1..], a, b);
    }
  }

  lemma {:induction false} UnitsIsMapTotal(cells: seq<AllocationCell>, a: Allocation)
    requires DistinctCells(cells) && a.Keys == CellSet(cells)
    ensures Covers(cells, a) && Units(cells, a) == MapTotal(a)
  {
    if cells != [] {
      var c, rest := cells[0].cell, cells[1..];
      var a' := a - {c};
      MapTotalPick(a, c);
      assert forall b :: b in cells <==> b == cells[0] || b in rest;
      assert c !in CellSet(rest);
      assert a'.Keys == CellSet(rest);
      UnitsIsMapTotal(rest, a');
      UnitsFrame(rest, a, a');
    }
  }

  /** The validator every candidate passes when it is built. */
  ghost predicate ValidMove(c: Candidate) {
    && c.current.Keys == c.proposed.Keys
    && MapTotal(c.current) == MapTotal(c.proposed)
    && match c.kind
       case NoChange =>
         c.current == c.proposed && c.deltaUnits == 0 && c.fromCell == None && c.toCell == None
       case ShiftOneUnit =>
         && c.deltaUnits == 1 && c.fromCell.Some? && c.toCell.Some?
         && c.fromCell.value in c.current && c.toCell.value in c.current
         && c.current[c.fromCell.value] == c.proposed[c.fromCell.value] + 1
         && c.proposed[c.toCell.value] == c.current[c.toCell.value] + 1
  }
}
