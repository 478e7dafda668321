/** The economic score of a cell and the evidence gates that decide whether it may be used. */
module Economics {
  import opened LearningContracts

  const MIN_CONTACTED := 50
  const MIN_PAID := 2
  const MIN_M1_ELIGIBLE := 2
  const MIN_RETAINED_M1 := 1
  const RISK_CAP := 5000.0

  function PerContact(amount: nat, contacted: nat): real {
    if contacted == 0 then 0.0 else amount as real / contacted as real
  }

  function RiskNumerator(m: CellMetrics): nat {
    2500 * m.complaintCount + 500 * m.unsubscribeCount + 250 * m.bounceCount + 1000 * m.churnCount
  }

  function Risk(m: CellMetrics): real {
    var raw := PerContact(RiskNumerator(m), m.contactedCount);
    if raw <= RISK_CAP then raw else RISK_CAP
  }

  /** A bounce rate above five per cent; without contacts there is no rate. */
  predicate BouncesTooMuch(m: CellMetrics) {
    m.contactedCount != 0 && m.bounceCount as real / m.contactedCount as real > 0.05
  }

  function Status(m: CellMetrics): ScoreStatus {
    if m.complaintCount > 0 || m.conversionIdentityAmbiguous || BouncesTooMuch(m) then RiskBlocked
    else if !m.mrrComplete then MrrIncomplete
    else if !m.costComplete || m.costCurrency != m.currency then CostIncomplete
    else if
      || m.contactedCount < MIN_CONTACTED || m.paidCount < MIN_PAID
      || m.m1EligibleCount < MIN_M1_ELIGIBLE || m.retainedM1Count < MIN_RETAINED_M1
    then InsufficientEvidence
    else Ready
  }

  function ScoreCell(m: CellMetrics): EconomicScore {
    EconomicScore(m.cell, Status(m), m.currency,
      PerContact(m.retainedMrrMinorUnits, m.contactedCount)
      - PerContact(m.knownVariableCostMinorUnits, m.contactedCount)
      - Risk(m))
  }

  lemma PerContactMonotone(a: nat, b: nat, contacted: nat)
    requires a <= b
    ensures 0.0 <= PerContact(a, contacted) <= PerContact(b, contacted)
  {
    if contacted != 0 {
      var n := contacted as real;
      assert PerContact(b, contacted) - PerContact(a, contacted) == (b - a) as real / n;
    }
  }

  /** Among cells with as many contacts, more retained value, less cost and fewer of every penalised event never
      lower the score. */
  lemma ScoreIsMonotone(worse: CellMetrics, better: CellMetrics)
    requires worse.contactedCount == better.contactedCount
    requires worse.retainedMrrMinorUnits <= better.retainedMrrMinorUnits
    requires worse.knownVariableCostMinorUnits >= better.knownVariableCostMinorUnits
    requires worse.complaintCount >= better.complaintCount
    requires worse.unsubscribeCount >= better.unsubscribeCount
    requires worse.bounceCount >= better.bounceCount && worse.churnCount >= better.churnCount
    ensures ScoreCell(worse).score <= ScoreCell(better).score
  {
    var n := worse.contactedCount;
    PerContactMonotone(worse.retainedMrrMinorUnits, better.retainedMrrMinorUnits, n);
    PerContactMonotone(better.knownVariableCostMinorUnits, worse.knownVariableCostMinorUnits, n);
    PerContactMonotone(RiskNumerator(better), RiskNumerator(worse), n);
  }

  /** A usable score has every piece of evidence, and at least fifty contacts: its divisions are real. */
  lemma ReadyNeedsAllEvidence(m: CellMetrics)
    ensures ScoreCell(m).status == Ready <==>
      && m.complaintCount == 0 && !m.conversionIdentityAmbiguous
      && 20 * m.bounceCount <= m.contactedCount
      && m.mrrComplete && m.costComplete && m.costCurrency == m.currency
      && m.contactedCount >= 50 && m.paidCount >= 2 && m.m1EligibleCount >= 2 && m.retainedM1Count >= 1
  {
    if m.contactedCount != 0 {
      BounceRate(m.bounceCount, m.contactedCount);
    }
  }

  /** The score is the retained value less cost and weighted penalties, the penalties at most five thousand a
      contact; all of it shared out over the contacts, and zero without any. */
  lemma ScoreIsShared(m: CellMetrics)
    ensures var penalties := 2500 * m.complaintCount + 500 * m.unsubscribeCount + 250 * m.bounceCount + 1000 * m.churnCount;
      var n := m.contactedCount;
      ScoreCell(m).score * n as real
        == (if n == 0 then 0
            else m.retainedMrrMinorUnits - m.knownVariableCostMinorUnits - (if penalties <= 5000 * n then penalties else 5000 * n))
           as real
    ensures m.contactedCount == 0 ==> ScoreCell(m).score == 0.0
    ensures ScoreCell(m).cell == m.cell && ScoreCell(m).currency == m.currency
  {
    var n := m.contactedCount;
    if n != 0 {
      SharedOut(m.retainedMrrMinorUnits, n);
      SharedOut(m.knownVariableCostMinorUnits, n);
      SharedOut(RiskNumerator(m), n);
      CappedRisk(m);
      Distributes(PerContact(m.retainedMrrMinorUnits, n), PerContact(m.knownVariableCostMinorUnits, n), Risk(m), n as real);
    }
  }

  lemma SharedOut(amount: nat, contacted: nat)
    requires contacted != 0
    ensures PerContact(amount, contacted) * contacted as real == amount as real
  {
  }

  lemma Distributes(a: real, b: real, c: real, n: real)
    ensures (a - b - c) * n == a * n - b * n - c * n
  {
  }

  lemma CappedRisk(m: CellMetrics)
    requires m.contactedCount != 0
    ensures var (p, n) := (RiskNumerator(m), m.contactedCount);
      Risk(m) * n as real == (if p <= 5000 * n then p else 5000 * n) as real
  {
    var p, n := RiskNumerator(m), m.contactedCount;
    var raw := PerContact(p, n);
    SharedOut(p, n);
    SignOfProduct(raw - 5000.0, n as real);
    Distributes(raw, 5000.0, 0.0, n as real);
  }

  /** The status names the first gate that is shut: risk, then revenue, then cost, then evidence. */
  lemma StatusNamesFirstShutGate(m: CellMetrics)
    ensures var risky := m.complaintCount > 0 || m.conversionIdentityAmbiguous
        || (m.contactedCount > 0 && 20 * m.bounceCount > m.contactedCount);
      && (ScoreCell(m).status == RiskBlocked <==> risky)
      && (ScoreCell(m).status == MrrIncomplete <==> !risky && !m.mrrComplete)
      && (ScoreCell(m).status == CostIncomplete <==>
            !risky && m.mrrComplete && !(m.costComplete && m.costCurrency == m.currency))
      && (ScoreCell(m).status == InsufficientEvidence <==>
            !risky && m.mrrComplete && m.costComplete && m.costCurrency == m.currency
            && !(m.contactedCount >= 50 && m.paidCount >= 2 && m.m1EligibleCount >= 2 && m.retainedM1Count >= 1))
  {
    if m.contactedCount != 0 { BounceRate(m.bounceCount, m.contactedCount); }
  }

  ghost predicate NoLessEvidence(m: CellMetrics, n: CellMetrics) {
    && (m.mrrComplete ==> n.mrrComplete) && (m.costComplete ==> n.costComplete)
    && (m.costCurrency == m.currency ==> n.costCurrency == n.currency)
    && (n.conversionIdentityAmbiguous ==> m.conversionIdentityAmbiguous)
    && m.contactedCount <= n.contactedCount && m.paidCount <= n.paidCount
    && m.m1EligibleCount <= n.m1EligibleCount && m.retainedM1Count <= n.retainedM1Count
    && m.complaintCount >= n.complaintCount && m.bounceCount >= n.bounceCount
  }

  /** The gates are fail-closed: more evidence and fewer complaints and bounces never take READY away. */
  lemma MoreEvidenceStaysReady(m: CellMetrics, n: CellMetrics)
    requires NoLessEvidence(m, n) && ScoreCell(m).status == Ready
    ensures ScoreCell(n).status == Ready
  {
    ReadyNeedsAllEvidence(m);
    ReadyNeedsAllEvidence(n);
  }

  lemma SignOfProduct(x: real, n: real)
    requires n > 0.0
    ensures x > 0.0 ==> x * n > 0.0
    ensures x <= 0.0 ==> x * n <= 0.0
  {
  }

  lemma QuotientTimesDivisor(b: real, n: real)
    requires n > 0.0
    ensures (b / n) * n == b
  {
  }

  lemma BounceRate(bounces: nat, contacted: nat)
    requires contacted != 0
    ensures bounces as real / contacted as real > 0.05 <==> 20 * bounces > contacted
  {
    var b, n := bounces as real, contacted as real;
    var q := b / n;
    QuotientTimesDivisor(b, n);
    SignOfProduct(q - 0.05, n);
    assert (q - 0.05) * n == b - 0.05 * n;
    assert 20.0 * (b - 0.05 * n) == 20.0 * b - n;
  }
}
