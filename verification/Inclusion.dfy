/** Per-entity inclusion bits and ratio inputs: the plaintext specification and its circuit on shares. */
module Inclusion {
  import opened Words

  const FIELDS := 6

  // Payload positions
  const DEBT := 0
  const DSERV := 1
  const DELQ := 2
  const NPL := 3
  const UNSEC := 4
  const STDEBT := 5
  const INCOME := 0
  const EMP := 0

  datatype Range = Range(min: nat, max: nat)
  datatype RangeConfig = RangeConfig(income: Range, emp: Range, debt: Range)
  datatype Policy = Strict | Renormalised

  ghost predicate Bounds(r: Range) {
    r.min < U64 && r.max < U64
  }

  // ----------------------------------------------------------------------
  // Plaintext rows

  datatype Source = Source(v: seq<nat>, valid: seq<bool>, g: nat, vG: bool) {
    ghost predicate Ok() {
      |v| == |valid| == FIELDS && g < U64 && forall i :: 0 <= i < FIELDS ==> v[i] < U64
    }
  }

  datatype EntityRow = EntityRow(bin: nat, period: nat, sector: nat, conflict: bool,
                                 bMas: bool, bDos: bool, bMom: bool, live: bool, mas: Source, dos: Source, mom: Source) {
    ghost predicate Ok() {
      mas.Ok() && dos.Ok() && mom.Ok()
    }
  }

  datatype Metric = Metric(num: nat, den: nat, incl: bool)

  /** The eight ratios, then Gap. */
  datatype MetricRow = MetricRow(bin: nat, period: nat, sector: nat, conflict: bool,
                                 live: bool, bMas: bool, bDos: bool, bMom: bool,
                                 dti: Metric, dsi: Metric, dEmp: Metric, ipw: Metric, delq: Metric, npl: Metric,
                                 unsecShare: Metric, stDebtShare: Metric, gap: Metric, available: nat, vulnerable: bool)

  predicate InRange(v: nat, r: Range) {
    r.min <= v <= r.max
  }

  /** What the circuit computes: min - 1 < v < max + 1 on 64-bit words, with 0 - 1 read as 0. */
  predicate InShiftedRange(v: nat, r: Range) {
    (if r.min == 0 then 0 else r.min - 1) < v < (r.max + 1) % U64
  }

  function Count(b: bool): nat {
    if b then 1 else 0
  }

  /** g_MAS - g_DOS as a 64-bit two's complement word. */
  function SignedGap(a: nat, b: nat): nat {
    (a - b) % U64
  }

  predicate Sized(u: EntityRow) {
    |u.mas.v| == |u.mas.valid| == |u.dos.v| == |u.dos.valid| == |u.mom.v| == |u.mom.valid| == FIELDS
  }

  /** One row, given the verdicts on the three denominators. */
  function MetricsGiven(u: EntityRow, income: bool, debt: bool, emp: bool, policy: Policy): MetricRow
    requires Sized(u)
  {
    var m, d, w := u.mas, u.dos, u.mom;
    var dti := Metric(m.v[DEBT], d.v[INCOME],
                      ((u.live && u.bMas) && (u.bDos && m.valid[DEBT])) && (d.valid[INCOME] && income));
    var dsi := Metric(m.v[DSERV], d.v[INCOME],
                      ((u.live && u.bMas) && (u.bDos && m.valid[DSERV])) && (d.valid[INCOME] && income));
    var dEmp := Metric(m.v[DEBT], w.v[EMP],
                       ((u.live && u.bMas) && (u.bMom && m.valid[DEBT])) && (w.valid[EMP] && emp));
    var ipw := Metric(d.v[INCOME], w.v[EMP],
                      ((u.live && u.bDos) && (u.bMom && d.valid[INCOME])) && (w.valid[EMP] && emp));
    var delq := Metric(m.v[DELQ], m.v[DEBT], ((u.live && u.bMas) && m.valid[DELQ]) && (m.valid[DEBT] && debt));
    var npl := Metric(m.v[NPL], m.v[DEBT], ((u.live && u.bMas) && m.valid[NPL]) && (m.valid[DEBT] && debt));
    var unsec := Metric(m.v[UNSEC], m.v[DEBT], ((u.live && u.bMas) && m.valid[UNSEC]) && (m.valid[DEBT] && debt));
    var stDebt := Metric(m.v[STDEBT], m.v[DEBT], ((u.live && u.bMas) && m.valid[STDEBT]) && (m.valid[DEBT] && debt));
    var gap := Metric(SignedGap(m.g, d.g), 1, ((u.live && u.bMas) && u.bDos) && (m.vG && d.vG));
    var available := Count(dti.incl) + Count(dsi.incl) + Count(delq.incl) + Count(npl.incl);
    var vulnerable := u.live && (if policy == Strict then available == 4 else available >= 1);
    MetricRow(u.bin, u.period, u.sector, u.conflict, u.live, u.bMas, u.bDos, u.bMom,
              dti, dsi, dEmp, ipw, delq, npl, unsec, stDebt, gap, available, vulnerable)
  }

  function PlainMetrics(u: EntityRow, rc: RangeConfig, policy: Policy): MetricRow
    requires Sized(u)
  {
    MetricsGiven(u, InRange(u.dos.v[INCOME], rc.income), InRange(u.mas.v[DEBT], rc.debt), InRange(u.mom.v[EMP], rc.emp),
                 policy)
  }

  /** The specification under the circuit's range test. */
  ghost function ShiftedMetrics(u: EntityRow, rc: RangeConfig, policy: Policy): MetricRow
    requires Sized(u)
  {
    MetricsGiven(u, InShiftedRange(u.dos.v[INCOME], rc.income), InShiftedRange(u.mas.v[DEBT], rc.debt),
                 InShiftedRange(u.mom.v[EMP], rc.emp), policy)
  }

  // ----------------------------------------------------------------------
  // What a row of metrics means

  /** A figure: one of the six places of source 0 (MAS), 1 (DOS) or 2 (MOM). */
  datatype Place = Place(source: nat, field: nat)

  function SourceOf(u: EntityRow, c: nat): Source {
    if c == 0 then u.mas else if c == 1 then u.dos else u.mom
  }

  predicate Brought(u: EntityRow, c: nat) {
    if c == 0 then u.bMas else if c == 1 then u.bDos else u.bMom
  }

  /** The ratio of two figures is included exactly when the row is live, both sources are there, both figures are valid
      and the denominator passes its range test. */
  ghost predicate IsRatio(m: Metric, u: EntityRow, num: Place, den: Place, inRange: bool)
    requires Sized(u) && num.field < FIELDS && den.field < FIELDS
  {
    && m.num == SourceOf(u, num.source).v[num.field] && m.den == SourceOf(u, den.source).v[den.field]
    && (m.incl <==>
        && u.live && Brought(u, num.source) && Brought(u, den.source)
        && SourceOf(u, num.source).valid[num.field] && SourceOf(u, den.source).valid[den.field] && inRange)
  }

  /** The nine metrics by source and place, given the range tests of income, debt and employment. */
  ghost predicate RowMeans(r: MetricRow, u: EntityRow, policy: Policy, income: bool, debt: bool, emp: bool)
    requires Sized(u)
  {
    && r.bin == u.bin && r.period == u.period && r.sector == u.sector && r.conflict == u.conflict && r.live == u.live
    && r.bMas == u.bMas && r.bDos == u.bDos && r.bMom == u.bMom
    && IsRatio(r.dti, u, Place(0, 0), Place(1, 0), income)
    && IsRatio(r.dsi, u, Place(0, 1), Place(1, 0), income)
    && IsRatio(r.dEmp, u, Place(0, 0), Place(2, 0), emp)
    && IsRatio(r.ipw, u, Place(1, 0), Place(2, 0), emp)
    && IsRatio(r.delq, u, Place(0, 2), Place(0, 0), debt)
    && IsRatio(r.npl, u, Place(0, 3), Place(0, 0), debt)
    && IsRatio(r.unsecShare, u, Place(0, 4), Place(0, 0), debt)
    && IsRatio(r.stDebtShare, u, Place(0, 5), Place(0, 0), debt)
    && r.gap.num == (u.mas.g - u.dos.g) % 0x1_0000_0000_0000_0000 && r.gap.den == 1
    && (r.gap.incl <==> u.live && u.bMas && u.bDos && u.mas.vG && u.dos.vG)
    && Coverage(r.dti.incl, r.dsi.incl, r.delq.incl, r.npl.incl, u.live, policy, r.available, r.vulnerable)
  }

  /** How many of the four core metrics are included, and whether that is enough: all of them, or any. */
  ghost predicate Coverage(a: bool, b: bool, c: bool, d: bool, live: bool, policy: Policy, available: nat, vulnerable: bool) {
    && available == (if a then 1 else 0) + (if b then 1 else 0) + (if c then 1 else 0) + (if d then 1 else 0)
    && (vulnerable <==> live && if policy == Strict then a && b && c && d else a || b || c || d)
  }

  lemma GivenMeans(u: EntityRow, income: bool, debt: bool, emp: bool, policy: Policy)
    requires Sized(u)
    ensures RowMeans(MetricsGiven(u, income, debt, emp, policy), u, policy, income, debt, emp)
  {
    hide IsRatio, Coverage;
    GivenRatios(u, income, debt, emp, policy);
    GivenCoverage(u, income, debt, emp, policy);
  }

  lemma GivenRatios(u: EntityRow, income: bool, debt: bool, emp: bool, policy: Policy)
    requires Sized(u)
    ensures var r := MetricsGiven(u, income, debt, emp, policy);
            && IsRatio(r.dti, u, Place(0, 0), Place(1, 0), income) && IsRatio(r.dsi, u, Place(0, 1), Place(1, 0), income)
            && IsRatio(r.dEmp, u, Place(0, 0), Place(2, 0), emp) && IsRatio(r.ipw, u, Place(1, 0), Place(2, 0), emp)
            && IsRatio(r.delq, u, Place(0, 2), Place(0, 0), debt) && IsRatio(r.npl, u, Place(0, 3), Place(0, 0), debt)
            && IsRatio(r.unsecShare, u, Place(0, 4), Place(0, 0), debt)
            && IsRatio(r.stDebtShare, u, Place(0, 5), Place(0, 0), debt)
  {
    hide SignedGap;
  }

  lemma GivenCoverage(u: EntityRow, income: bool, debt: bool, emp: bool, policy: Policy)
    requires Sized(u)
    ensures var r := MetricsGiven(u, income, debt, emp, policy);
            Coverage(r.dti.incl, r.dsi.incl, r.delq.incl, r.npl.incl, u.live, policy, r.available, r.vulnerable)
  {
    hide SignedGap;
  }

  /** An included metric has a denominator in range; a missing or out-of-range one is excluded, its numbers untouched. */
  lemma IncludedIsInRange(u: EntityRow, rc: RangeConfig, policy: Policy)
    requires Sized(u)
    ensures var r := PlainMetrics(u, rc, policy);
            && (r.dti.incl || r.dsi.incl ==> InRange(r.dti.den, rc.income))
            && (r.dEmp.incl || r.ipw.incl ==> InRange(r.dEmp.den, rc.emp))
            && (r.delq.incl || r.npl.incl || r.unsecShare.incl || r.stDebtShare.incl ==> InRange(r.delq.den, rc.debt))
            && (r.vulnerable ==> r.live && r.available >= 1)
            && (r.available > 0 ==> r.live && r.bMas)
  {
  }

  // ----------------------------------------------------------------------
  // Where the shifted range test is right

  ghost predicate Exact(r: Range) {
    r.min >= 1 && r.max < U64 - 1
  }

  ghost predicate AgreesOn(v: nat, r: Range) {
    InShiftedRange(v, r) == InRange(v, r)
  }

  /** A word on which the two tests differ, when there is one. */
  ghost function Disagreement(r: Range): nat
    requires Bounds(r) && !Exact(r)
  {
    if r.min == 0 then 0 else U64 - 1
  }

  /** The shifted test is the range test on every word exactly when min >= 1 and max < 2^64 - 1. */
  lemma RangeTestExactIff(r: Range)
    requires Bounds(r)
    ensures (forall v :: 0 <= v < U64 ==> AgreesOn(v, r)) <==> Exact(r)
    ensures !Exact(r) ==> Disagreement(r) < U64 && InRange(Disagreement(r), r) && !InShiftedRange(Disagreement(r), r)
  {
    if Exact(r) {
      forall v | 0 <= v < U64 ensures AgreesOn(v, r) {
      }
    } else {
      assert !AgreesOn(Disagreement(r), r);
    }
  }

  ghost predicate AllExact(rc: RangeConfig) {
    Exact(rc.income) && Exact(rc.debt) && Exact(rc.emp)
  }

  ghost predicate AllBounds(rc: RangeConfig) {
    Bounds(rc.income) && Bounds(rc.debt) && Bounds(rc.emp)
  }

  /** Every bit set, the given denominators. */
  ghost function FullRow(income: nat, debt: nat, emp: nat): EntityRow {
    var ok := seq(FIELDS, _ => true);
    EntityRow(0, 0, 0, false, true, true, true, true,
              Source([debt, 0, 0, 0, 0, 0], ok, 0, true), Source([income, 0, 0, 0, 0, 0], ok, 0, true),
              Source([emp, 0, 0, 0, 0, 0], ok, 0, true))
  }

  ghost predicate MatchesOn(u: EntityRow, rc: RangeConfig, policy: Policy) {
    Sized(u) && ShiftedMetrics(u, rc, policy) == PlainMetrics(u, rc, policy)
  }

  lemma ExactMatches(u: EntityRow, rc: RangeConfig, policy: Policy)
    requires u.Ok() && AllBounds(rc) && AllExact(rc)
    ensures MatchesOn(u, rc, policy)
  {
    hide MetricsGiven, InRange, InShiftedRange;
    RangeTestExactIff(rc.income);
    RangeTestExactIff(rc.debt);
    RangeTestExactIff(rc.emp);
    assert AgreesOn(u.dos.v[INCOME], rc.income) && AgreesOn(u.mas.v[DEBT], rc.debt) && AgreesOn(u.mom.v[EMP], rc.emp);
  }

  lemma InexactDiffers(rc: RangeConfig, policy: Policy)
    requires AllBounds(rc) && !AllExact(rc)
    ensures exists u: EntityRow :: u.Ok() && !MatchesOn(u, rc, policy)
  {
    hide InRange, InShiftedRange;
    if !Exact(rc.income) {
      RangeTestExactIff(rc.income);
      var u := FullRow(Disagreement(rc.income), 0, 0);
      assert ShiftedMetrics(u, rc, policy).dti.incl != PlainMetrics(u, rc, policy).dti.incl;
      assert u.Ok() && !MatchesOn(u, rc, policy);
    } else if !Exact(rc.debt) {
      RangeTestExactIff(rc.debt);
      var u := FullRow(0, Disagreement(rc.debt), 0);
      assert ShiftedMetrics(u, rc, policy).delq.incl != PlainMetrics(u, rc, policy).delq.incl;
      assert u.Ok() && !MatchesOn(u, rc, policy);
    } else {
      RangeTestExactIff(rc.emp);
      var u := FullRow(0, 0, Disagreement(rc.emp));
      assert ShiftedMetrics(u, rc, policy).ipw.incl != PlainMetrics(u, rc, policy).ipw.incl;
      assert u.Ok() && !MatchesOn(u, rc, policy);
    }
  }

  /** The circuit's specification is the plaintext one on all rows exactly when all three ranges are inside [1, 2^64 - 2]. */
  lemma SpecsAgreeIff(rc: RangeConfig, policy: Policy)
    requires AllBounds(rc)
    ensures (forall u: EntityRow :: u.Ok() ==> MatchesOn(u, rc, policy)) <==> AllExact(rc)
  {
    if AllExact(rc) {
      forall u: EntityRow | u.Ok() ensures MatchesOn(u, rc, policy) {
        ExactMatches(u, rc, policy);
      }
    } else {
      InexactDiffers(rc, policy);
    }
  }

  /** The nine metrics under the range tests themselves. */
  ghost predicate MeansRow(r: MetricRow, u: EntityRow, rc: RangeConfig, policy: Policy)
    requires Sized(u)
  {
    RowMeans(r, u, policy, rc.income.min <= u.dos.v[0] <= rc.income.max, rc.debt.min <= u.mas.v[0] <= rc.debt.max,
             rc.emp.min <= u.mom.v[0] <= rc.emp.max)
  }

  lemma PlainMeans(u: EntityRow, rc: RangeConfig, policy: Policy)
    requires Sized(u)
    ensures MeansRow(PlainMetrics(u, rc, policy), u, rc, policy)
  {
    hide MetricsGiven, RowMeans;
    GivenMeans(u, InRange(u.dos.v[INCOME], rc.income), InRange(u.mas.v[DEBT], rc.debt), InRange(u.mom.v[EMP], rc.emp),
               policy);
  }

  method ComputeEntityMetrics(rows: seq<EntityRow>, rc: RangeConfig, policy: Policy) returns (out: seq<MetricRow>)
    requires forall i :: 0 <= i < |rows| ==> Sized(rows[i])
    ensures |out| == |rows| && forall i :: 0 <= i < |rows| ==> out[i] == PlainMetrics(rows[i], rc, policy)
    ensures forall i :: 0 <= i < |rows| ==> MeansRow(out[i], rows[i], rc, policy)
  {
    hide PlainMetrics, MeansRow;
    out := [];
    for i := 0 to |rows|
      invariant |out| == i && forall k :: 0 <= k < i ==> out[k] == PlainMetrics(rows[k], rc, policy)
      invariant forall k :: 0 <= k < i ==> MeansRow(out[k], rows[k], rc, policy)
    {
      PlainMeans(rows[i], rc, policy);
      out := out + [PlainMetrics(rows[i], rc, policy)];
    }
  }
}

/** The inclusion circuit on XOR shares. */
module InclusionWire {
  import opened Outcomes
  import opened Words
  import opened Shares
  import opened Compare
  import opened Inclusion

  const RANGE_COST: nat := 2 * LESS_THAN_COST + 1
  const ROW_COST: nat := 3 * RANGE_COST + 4 * 5 + 5 * 4 + 4 + 9

  /** What callers are told to provide for a row. */
  const ROW_BUDGET: nat := 3 * (2 * LESS_THAN_COST + 1) + 9 * 6 + 100

  lemma BudgetCoversRow()
    ensures ROW_COST <= ROW_BUDGET && ROW_COST == 1592 && ROW_BUDGET == 1693
  {
  }

  datatype SharedSource = SharedSource(v: seq<Shared>, valid: seq<SharedBit>, g: Shared, vG: SharedBit) {
    ghost predicate Ok(n: nat) {
      && |v| == |valid| == FIELDS && Word(g, n) && vG.N() == n
      && forall i :: 0 <= i < FIELDS ==> Word(v[i], n) && valid[i].N() == n
    }

    ghost function Plain(): Source {
      Source(seq(|v|, i requires 0 <= i < |v| => Value(v[i])), Open(valid), Value(g), vG.Open())
    }
  }

  datatype SharedRow = SharedRow(bin: nat, period: nat, sector: nat, conflict: bool,
                                 bMas: SharedBit, bDos: SharedBit, bMom: SharedBit, live: SharedBit,
                                 mas: SharedSource, dos: SharedSource, mom: SharedSource) {
    ghost predicate Ok(n: nat) {
      && n >= 1 && bMas.N() == bDos.N() == bMom.N() == live.N() == n
      && mas.Ok(n) && dos.Ok(n) && mom.Ok(n)
    }

    ghost function Plain(): EntityRow {
      EntityRow(bin, period, sector, conflict, bMas.Open(), bDos.Open(), bMom.Open(), live.Open(),
                mas.Plain(), dos.Plain(), mom.Plain())
    }
  }

  datatype SharedMetric = SharedMetric(num: Shared, den: Shared, incl: SharedBit) {
    ghost function Plain(): Metric {
      Metric(Value(num), Value(den), incl.Open())
    }
  }

  datatype SharedMetricRow =
    SharedMetricRow(bin: nat, period: nat, sector: nat, conflict: bool,
                    live: SharedBit, bMas: SharedBit, bDos: SharedBit, bMom: SharedBit,
                    dti: SharedMetric, dsi: SharedMetric, dEmp: SharedMetric, ipw: SharedMetric, delq: SharedMetric,
                    npl: SharedMetric, unsecShare: SharedMetric, stDebtShare: SharedMetric, gap: SharedMetric,
                    available: Shared, vulnerable: SharedBit) {
    /** The joint reconstruction; the count keeps its low three bits. */
    ghost function Plain(): MetricRow {
      MetricRow(bin, period, sector, conflict, live.Open(), bMas.Open(), bDos.Open(), bMom.Open(),
                dti.Plain(), dsi.Plain(), dEmp.Plain(), ipw.Plain(), delq.Plain(), npl.Plain(), unsecShare.Plain(),
                stDebtShare.Plain(), gap.Plain(), Value(available) % 8, vulnerable.Open())
    }
  }

  // ----------------------------------------------------------------------
  // Gates

  function SharePublic(n: nat, value: nat): (w: Shared)
    requires n >= 1 && value < U64
    ensures Word(w, n) && Value(w) == value
  {
    var bits := FromNat(value, 64);
    var w := seq(64, i requires 0 <= i < 64 => Public(n, bits[i]));
    Pow2At64();
    FromNatSmall(value);
    assert Open(w) == bits;
    w
  }

  lemma FromNatSmall(value: nat)
    requires value < U64
    ensures |FromNat(value, 64)| == 64 && ToNat(FromNat(value, 64)) == value
  {
    hide Pow2, ToNat, FromNat;
    Pow2At64();
    FromNatValue(value, 64);
    DivModUnique(value, U64, 0, value);
  }

  method RangeCheckShared(value: Shared, r: Range, bag: TripleBag, n: nat) returns (out: Result<SharedBit>)
    requires Word(value, n) && bag.Honest(n) && Bounds(r)
    modifies bag
    ensures out.Success? <==> old(bag.index) + RANGE_COST <= |bag.triples|
    ensures out.Success? ==> bag.index == old(bag.index) + RANGE_COST
    ensures out.Success? ==> out.value.N() == n && (out.value.Open() <==> InShiftedRange(Value(value), r))
  {
    hide ToNat;
    var low := SharePublic(n, if r.min == 0 then 0 else r.min - 1);
    var high := SharePublic(n, (r.max + 1) % U64);
    var above :- SecureLessThan(low, value, bag);
    var below :- SecureLessThan(value, high, bag);
    var both :- bag.And(above, below);
    out := Success(both);
  }

  /** The AND of all the bits, from the left. */
  method MakeIncl(bits: seq<SharedBit>, bag: TripleBag, n: nat) returns (r: Result<SharedBit>)
    requires bits != [] && Shaped(bits, n) && bag.Honest(n)
    modifies bag
    ensures r.Success? <==> |bits| == 1 || old(bag.index) + |bits| - 1 <= |bag.triples|
    ensures r.Success? ==> bag.index == old(bag.index) + |bits| - 1
    ensures r.Success? ==> r.value.N() == n && (r.value.Open() <==> AllTrue(Open(bits)))
  {
    var acc := bits[0];
    for i := 1 to |bits|
      invariant acc.N() == n && bag.index == old(bag.index) + i - 1 && (i > 1 ==> bag.index <= |bag.triples|)
      invariant acc.Open() <==> forall k :: 0 <= k < i ==> bits[k].Open()
    {
      acc :- bag.And(acc, bits[i]);
    }
    r := Success(acc);
  }

  lemma AllOfFive(a: SharedBit, b: SharedBit, c: SharedBit, d: SharedBit, e: SharedBit)
    ensures AllTrue(Open([a, b, c, d, e])) <==> a.Open() && b.Open() && c.Open() && d.Open() && e.Open()
  {
    var s := Open([a, b, c, d, e]);
    assert AllTrue(s) <==> s[0] && s[1] && s[2] && s[3] && s[4];
  }

  lemma AllOfSix(a: SharedBit, b: SharedBit, c: SharedBit, d: SharedBit, e: SharedBit, f: SharedBit)
    ensures AllTrue(Open([a, b, c, d, e, f])) <==> a.Open() && b.Open() && c.Open() && d.Open() && e.Open() && f.Open()
  {
    var s := Open([a, b, c, d, e, f]);
    assert AllTrue(s) <==> s[0] && s[1] && s[2] && s[3] && s[4] && s[5];
  }

  method And5(a: SharedBit, b: SharedBit, c: SharedBit, d: SharedBit, e: SharedBit, bag: TripleBag, n: nat)
    returns (r: Result<SharedBit>)
    requires a.N() == b.N() == c.N() == d.N() == e.N() == n && bag.Honest(n)
    modifies bag
    ensures r.Success? <==> old(bag.index) + 4 <= |bag.triples|
    ensures r.Success? ==> bag.index == old(bag.index) + 4 && r.value.N() == n
    ensures r.Success? ==> (r.value.Open() <==> a.Open() && b.Open() && c.Open() && d.Open() && e.Open())
  {
    AllOfFive(a, b, c, d, e);
    r := MakeIncl([a, b, c, d, e], bag, n);
  }

  method And6(a: SharedBit, b: SharedBit, c: SharedBit, d: SharedBit, e: SharedBit, f: SharedBit, bag: TripleBag, n: nat)
    returns (r: Result<SharedBit>)
    requires a.N() == b.N() == c.N() == d.N() == e.N() == f.N() == n && bag.Honest(n)
    modifies bag
    ensures r.Success? <==> old(bag.index) + 5 <= |bag.triples|
    ensures r.Success? ==> bag.index == old(bag.index) + 5 && r.value.N() == n
    ensures r.Success? ==> (r.value.Open() <==> a.Open() && b.Open() && c.Open() && d.Open() && e.Open() && f.Open())
  {
    AllOfSix(a, b, c, d, e, f);
    r := MakeIncl([a, b, c, d, e, f], bag, n);
  }

  /** a OR b = a + b + ab. */
  method Sor(a: SharedBit, b: SharedBit, bag: TripleBag) returns (r: Result<SharedBit>)
    requires bag.Honest(a.N()) && b.N() == a.N()
    modifies bag
    ensures r.Success? <==> old(bag.index) + 1 <= |bag.triples|
    ensures r.Success? ==> bag.index == old(bag.index) + 1
    ensures r.Success? ==> r.value.N() == a.N() && r.value.Open() == (a.Open() || b.Open())
  {
    var both :- bag.And(a, b);
    r := Success(XorShared(XorShared(a, b), both));
  }

  method FullAdd(a: SharedBit, b: SharedBit, carry: SharedBit, bag: TripleBag) returns (r: Result<(SharedBit, SharedBit)>)
    requires bag.Honest(a.N()) && a.N() == b.N() == carry.N()
    modifies bag
    ensures r.Success? <==> old(bag.index) + 3 <= |bag.triples|
    ensures r.Success? ==> bag.index == old(bag.index) + 3
    ensures r.Success? ==> r.value.0.N() == r.value.1.N() == a.N()
    ensures r.Success? ==>
              Count(r.value.0.Open()) + 2 * Count(r.value.1.Open()) == Count(a.Open()) + Count(b.Open()) + Count(carry.Open())
  {
    var ab := XorShared(a, b);
    var sum := XorShared(ab, carry);
    var both :- bag.And(a, b);
    var propagated :- bag.And(carry, ab);
    var twice :- bag.And(both, propagated);
    r := Success((sum, XorShared(XorShared(both, propagated), twice)));
  }

  lemma ThreeBits(s: SharedBit, c: SharedBit, d: SharedBit, n: nat)
    requires s.N() == c.N() == d.N() == n >= 1
    ensures Word([s, c, d] + Zeros(61, n), n)
    ensures Value([s, c, d] + Zeros(61, n)) == Count(s.Open()) + 2 * Count(c.Open()) + 4 * Count(d.Open())
  {
    hide Pow2;
    OpenConcat([s, c, d], Zeros(61, n));
    var low, high := Open([s, c, d]), Open(Zeros(61, n));
    ToNatConcat(low, high);
    ToNatZeros(61);
    assert low[1..] == [c.Open(), d.Open()] && low[1..][1..] == [d.Open()];
    assert ToNat([d.Open()]) == Count(d.Open());
    assert ToNat(low[1..]) == Count(c.Open()) + 2 * Count(d.Open());
  }

  /** The number of set bits among four, as a shared word. */
  method CountFour(a: SharedBit, b: SharedBit, c: SharedBit, d: SharedBit, bag: TripleBag, n: nat) returns (r: Result<Shared>)
    requires a.N() == b.N() == c.N() == d.N() == n && bag.Honest(n)
    modifies bag
    ensures r.Success? <==> old(bag.index) + 9 <= |bag.triples|
    ensures r.Success? ==> bag.index == old(bag.index) + 9 && Word(r.value, n)
    ensures r.Success? ==> Value(r.value) == Count(a.Open()) + Count(b.Open()) + Count(c.Open()) + Count(d.Open())
  {
    hide ToNat, Open, SharedBit.Open;
    var s01 := XorShared(a, b);
    var c01 :- bag.And(a, b);
    var zero := Zero(n);
    var second :- FullAdd(s01, c, zero, bag);
    var c1 := XorShared(c01, second.1);
    var c1Carry :- bag.And(c01, second.1);
    var third :- FullAdd(second.0, d, zero, bag);
    var c1Final := XorShared(c1, third.1);
    var c1FinalCarry :- bag.And(c1, third.1);
    var c2 := XorShared(c1Carry, c1FinalCarry);
    ThreeBits(third.0, c1Final, c2, n);
    r := Success([third.0, c1Final, c2] + Zeros(61, n));
  }

  method Vulnerable(policy: Policy, live: SharedBit, a: SharedBit, b: SharedBit, c: SharedBit, d: SharedBit, bag: TripleBag, n: nat)
    returns (r: Result<SharedBit>)
    requires live.N() == a.N() == b.N() == c.N() == d.N() == n && bag.Honest(n)
    modifies bag
    ensures r.Success? <==> old(bag.index) + 4 <= |bag.triples|
    ensures r.Success? ==> bag.index == old(bag.index) + 4 && r.value.N() == n
    ensures r.Success? ==> (r.value.Open() <==>
                            && live.Open()
                            && var available := Count(a.Open()) + Count(b.Open()) + Count(c.Open()) + Count(d.Open());
                            if policy == Strict then available == 4 else available >= 1)
  {
    hide SharedBit.Open;
    if policy == Strict {
      r := And5(live, a, b, c, d, bag, n);
    } else {
      var any :- Sor(a, b, bag);
      any :- Sor(any, c, bag);
      any :- Sor(any, d, bag);
      r := bag.And(live, any);
    }
  }

  // ----------------------------------------------------------------------
  // One row

  /** The inclusion bits of the nine metrics, in order. */
  datatype Included = Included(dti: SharedBit, dsi: SharedBit, dEmp: SharedBit, ipw: SharedBit, delq: SharedBit,
                               npl: SharedBit, unsec: SharedBit, stDebt: SharedBit, gap: SharedBit) {
    ghost predicate Ok(n: nat) {
      && dti.N() == dsi.N() == dEmp.N() == ipw.N() == delq.N() == npl.N() == n
      && unsec.N() == stDebt.N() == gap.N() == n
    }

    /** The bits the specification gives. */
    ghost predicate Match(m: MetricRow) {
      && dti.Open() == m.dti.incl && dsi.Open() == m.dsi.incl && dEmp.Open() == m.dEmp.incl && ipw.Open() == m.ipw.incl
      && delq.Open() == m.delq.incl && npl.Open() == m.npl.incl && unsec.Open() == m.unsecShare.incl
      && stDebt.Open() == m.stDebtShare.incl && gap.Open() == m.gap.incl
    }
  }

  method InclusionBits(u: SharedRow, income: SharedBit, debt: SharedBit, emp: SharedBit, bag: TripleBag, n: nat,
                       ghost policy: Policy)
    returns (r: Result<Included>)
    requires u.Ok(n) && income.N() == debt.N() == emp.N() == n && bag.Honest(n)
    modifies bag
    ensures r.Success? <==> old(bag.index) + 40 <= |bag.triples|
    ensures r.Success? ==> bag.index == old(bag.index) + 40 && r.value.Ok(n)
    ensures r.Success? ==> r.value.Match(MetricsGiven(u.Plain(), income.Open(), debt.Open(), emp.Open(), policy))
  {
    hide SharedBit.Open, Value, SignedGap;
    var m, d, w := u.mas, u.dos, u.mom;
    var dti :- And6(u.live, u.bMas, u.bDos, m.valid[DEBT], d.valid[INCOME], income, bag, n);
    var dsi :- And6(u.live, u.bMas, u.bDos, m.valid[DSERV], d.valid[INCOME], income, bag, n);
    var dEmp :- And6(u.live, u.bMas, u.bMom, m.valid[DEBT], w.valid[EMP], emp, bag, n);
    var ipw :- And6(u.live, u.bDos, u.bMom, d.valid[INCOME], w.valid[EMP], emp, bag, n);
    var delq :- And5(u.live, u.bMas, m.valid[DELQ], m.valid[DEBT], debt, bag, n);
    var npl :- And5(u.live, u.bMas, m.valid[NPL], m.valid[DEBT], debt, bag, n);
    var unsec :- And5(u.live, u.bMas, m.valid[UNSEC], m.valid[DEBT], debt, bag, n);
    var stDebt :- And5(u.live, u.bMas, m.valid[STDEBT], m.valid[DEBT], debt, bag, n);
    var gap :- And5(u.live, u.bMas, u.bDos, m.vG, d.vG, bag, n);
    r := Success(Included(dti, dsi, dEmp, ipw, delq, npl, unsec, stDebt, gap));
  }

  /** All but the Gap numbers, which the circuit leaves to later phases. */
  ghost predicate SameButGap(wire: MetricRow, plain: MetricRow) {
    wire.(gap := plain.gap) == plain && wire.gap.incl == plain.gap.incl
  }

  function SharedOf(u: SharedRow, c: nat): SharedSource {
    if c == 0 then u.mas else if c == 1 then u.dos else u.mom
  }

  function BroughtBit(u: SharedRow, c: nat): SharedBit {
    if c == 0 then u.bMas else if c == 1 then u.bDos else u.bMom
  }

  /** The shared ratio of two figures, and what its inclusion bit opens to. */
  ghost predicate IsSharedRatio(m: SharedMetric, u: SharedRow, n: nat, num: Place, den: Place, inRange: bool)
    requires u.Ok(n) && num.field < FIELDS && den.field < FIELDS
  {
    && Value(m.num) == Value(SharedOf(u, num.source).v[num.field]) && Value(m.den) == Value(SharedOf(u, den.source).v[den.field])
    && (m.incl.Open() <==>
        && u.live.Open() && BroughtBit(u, num.source).Open() && BroughtBit(u, den.source).Open()
        && SharedOf(u, num.source).valid[num.field].Open() && SharedOf(u, den.source).valid[den.field].Open() && inRange)
  }

  /** The nine shared metrics by source and place, given the range tests; Gap keeps the two growth figures. */
  ghost predicate WireMeans(w: SharedMetricRow, u: SharedRow, n: nat, policy: Policy, income: bool, debt: bool, emp: bool)
    requires u.Ok(n)
  {
    && w.bin == u.bin && w.period == u.period && w.sector == u.sector && w.conflict == u.conflict && w.live == u.live
    && w.bMas == u.bMas && w.bDos == u.bDos && w.bMom == u.bMom
    && IsSharedRatio(w.dti, u, n, Place(0, 0), Place(1, 0), income)
    && IsSharedRatio(w.dsi, u, n, Place(0, 1), Place(1, 0), income)
    && IsSharedRatio(w.dEmp, u, n, Place(0, 0), Place(2, 0), emp)
    && IsSharedRatio(w.ipw, u, n, Place(1, 0), Place(2, 0), emp)
    && IsSharedRatio(w.delq, u, n, Place(0, 2), Place(0, 0), debt)
    && IsSharedRatio(w.npl, u, n, Place(0, 3), Place(0, 0), debt)
    && IsSharedRatio(w.unsecShare, u, n, Place(0, 4), Place(0, 0), debt)
    && IsSharedRatio(w.stDebtShare, u, n, Place(0, 5), Place(0, 0), debt)
    && Value(w.gap.num) == Value(u.mas.g) && Value(w.gap.den) == Value(u.dos.g)
    && (w.gap.incl.Open() <==>
        u.live.Open() && u.bMas.Open() && u.bDos.Open() && u.mas.vG.Open() && u.dos.vG.Open())
    && Coverage(w.dti.incl.Open(), w.dsi.incl.Open(), w.delq.incl.Open(), w.npl.incl.Open(), u.live.Open(), policy,
                Value(w.available), w.vulnerable.Open())
  }

  /** Under the shifted range test, which is what the circuit computes, for all ranges. */
  ghost predicate MeansShifted(w: SharedMetricRow, u: SharedRow, n: nat, rc: RangeConfig, policy: Policy)
    requires u.Ok(n)
  {
    WireMeans(w, u, n, policy, Shifted(Value(u.dos.v[0]), rc.income), Shifted(Value(u.mas.v[0]), rc.debt),
              Shifted(Value(u.mom.v[0]), rc.emp))
  }

  predicate Shifted(v: nat, r: Range) {
    (if r.min == 0 then 0 else r.min - 1) < v < (r.max + 1) % 0x1_0000_0000_0000_0000
  }

  /** Under the range test itself. */
  ghost predicate MeansInRange(w: SharedMetricRow, u: SharedRow, n: nat, rc: RangeConfig, policy: Policy)
    requires u.Ok(n)
  {
    WireMeans(w, u, n, policy, rc.income.min <= Value(u.dos.v[0]) <= rc.income.max,
              rc.debt.min <= Value(u.mas.v[0]) <= rc.debt.max, rc.emp.min <= Value(u.mom.v[0]) <= rc.emp.max)
  }

  lemma ExactTest(v: nat, r: Range)
    requires Exact(r) && v < U64
    ensures Shifted(v, r) <==> r.min <= v <= r.max
  {
  }

  lemma ExactMeans(w: SharedMetricRow, u: SharedRow, n: nat, rc: RangeConfig, policy: Policy)
    requires u.Ok(n) && AllBounds(rc) && AllExact(rc) && MeansShifted(w, u, n, rc, policy)
    ensures MeansInRange(w, u, n, rc, policy)
  {
    hide WireMeans, ToNat, Pow2, Exact, Shifted;
    Pow2At64();
    ToNatBound(Open(u.dos.v[0]));
    ToNatBound(Open(u.mas.v[0]));
    ToNatBound(Open(u.mom.v[0]));
    ExactTest(Value(u.dos.v[0]), rc.income);
    ExactTest(Value(u.mas.v[0]), rc.debt);
    ExactTest(Value(u.mom.v[0]), rc.emp);
  }

  lemma RatioMeans(m: SharedMetric, u: SharedRow, n: nat, num: Place, den: Place, inRange: bool)
    requires u.Ok(n) && num.field < FIELDS && den.field < FIELDS && Sized(u.Plain())
    requires IsRatio(m.Plain(), u.Plain(), num, den, inRange)
    ensures IsSharedRatio(m, u, n, num, den, inRange)
  {
    hide SharedBit.Open, ToNat;
  }

  lemma MatchMeans(w: SharedMetricRow, u: SharedRow, n: nat, policy: Policy, income: bool, debt: bool, emp: bool)
    requires u.Ok(n) && Sized(u.Plain())
    requires SameButGap(w.Plain(), MetricsGiven(u.Plain(), income, debt, emp, policy))
    requires w.gap.num == u.mas.g && w.gap.den == u.dos.g && w.live == u.live
    requires w.bMas == u.bMas && w.bDos == u.bDos && w.bMom == u.bMom
    requires Coverage(w.dti.incl.Open(), w.dsi.incl.Open(), w.delq.incl.Open(), w.npl.incl.Open(), u.live.Open(), policy,
                      Value(w.available), w.vulnerable.Open())
    ensures WireMeans(w, u, n, policy, income, debt, emp)
  {
    hide SharedBit.Open, ToNat, MetricsGiven, IsRatio, IsSharedRatio, Coverage, SharedMetric.Plain, SharedSource.Plain;
    GivenMeans(u.Plain(), income, debt, emp, policy);
    RatioMeans(w.dti, u, n, Place(0, 0), Place(1, 0), income);
    RatioMeans(w.dsi, u, n, Place(0, 1), Place(1, 0), income);
    RatioMeans(w.dEmp, u, n, Place(0, 0), Place(2, 0), emp);
    RatioMeans(w.ipw, u, n, Place(1, 0), Place(2, 0), emp);
    RatioMeans(w.delq, u, n, Place(0, 2), Place(0, 0), debt);
    RatioMeans(w.npl, u, n, Place(0, 3), Place(0, 0), debt);
    RatioMeans(w.unsecShare, u, n, Place(0, 4), Place(0, 0), debt);
    RatioMeans(w.stDebtShare, u, n, Place(0, 5), Place(0, 0), debt);
    GapMeans(w.gap, u);
  }

  lemma GapMeans(m: SharedMetric, u: SharedRow)
    ensures m.Plain().incl == m.incl.Open() && u.Plain().mas.vG == u.mas.vG.Open() && u.Plain().dos.vG == u.dos.vG.Open()
  {
  }

  /** The reconstructed output row is the specification under the shifted range test, but for the Gap numbers. */
  ghost predicate Matches(wire: SharedMetricRow, u: SharedRow, rc: RangeConfig, policy: Policy) {
    Sized(u.Plain()) && SameButGap(wire.Plain(), ShiftedMetrics(u.Plain(), rc, policy))
  }

  /** The reconstructed output row is the plaintext one, but for the Gap numbers. */
  ghost predicate Refines(wire: SharedMetricRow, u: SharedRow, rc: RangeConfig, policy: Policy) {
    Sized(u.Plain()) && SameButGap(wire.Plain(), PlainMetrics(u.Plain(), rc, policy))
  }

  /**
   * The output row: the specification's row but for the Gap numbers, and what
   * that means figure by figure; under exact ranges, by the range test itself.
   */
  ghost predicate RowRight(w: SharedMetricRow, u: SharedRow, n: nat, rc: RangeConfig, policy: Policy)
    requires u.Ok(n)
  {
    && Matches(w, u, rc, policy) && MeansShifted(w, u, n, rc, policy)
    && (AllExact(rc) ==> Refines(w, u, rc, policy) && MeansInRange(w, u, n, rc, policy))
  }

  /** The output row: the figures, the inclusion bits, the coverage. */
  function RowOf(u: SharedRow, i: Included, available: Shared, vulnerable: SharedBit): SharedMetricRow
    requires |u.mas.v| == |u.dos.v| == |u.mom.v| == FIELDS
  {
    var m, d, w := u.mas, u.dos, u.mom;
    SharedMetricRow(u.bin, u.period, u.sector, u.conflict, u.live, u.bMas, u.bDos, u.bMom,
                    SharedMetric(m.v[DEBT], d.v[INCOME], i.dti), SharedMetric(m.v[DSERV], d.v[INCOME], i.dsi),
                    SharedMetric(m.v[DEBT], w.v[EMP], i.dEmp), SharedMetric(d.v[INCOME], w.v[EMP], i.ipw),
                    SharedMetric(m.v[DELQ], m.v[DEBT], i.delq), SharedMetric(m.v[NPL], m.v[DEBT], i.npl),
                    SharedMetric(m.v[UNSEC], m.v[DEBT], i.unsec),
                    SharedMetric(m.v[STDEBT], m.v[DEBT], i.stDebt),
                    SharedMetric(m.g, d.g, i.gap), available, vulnerable)
  }

  /** What the gates promise of their results makes the output row right. */
  lemma RowOfIsRight(u: SharedRow, n: nat, rc: RangeConfig, policy: Policy, i: Included, available: Shared,
                     vulnerable: SharedBit, income: bool, debt: bool, emp: bool)
    requires u.Ok(n) && AllBounds(rc) && i.Match(MetricsGiven(u.Plain(), income, debt, emp, policy))
    requires income == InShiftedRange(Value(u.dos.v[INCOME]), rc.income) && debt == InShiftedRange(Value(u.mas.v[DEBT]), rc.debt)
    requires emp == InShiftedRange(Value(u.mom.v[EMP]), rc.emp)
    requires var count := Count(i.dti.Open()) + Count(i.dsi.Open()) + Count(i.delq.Open()) + Count(i.npl.Open());
             && Value(available) == count
             && (vulnerable.Open() <==> u.live.Open() && if policy == Strict then count == 4 else count >= 1)
    ensures RowRight(RowOf(u, i, available, vulnerable), u, n, rc, policy)
  {
    hide SharedBit.Open, ToNat, MetricsGiven, InShiftedRange, AllExact, AllBounds, Included.Match, SameButGap, RowRight, Coverage,
         SharedMetricRow.Plain;
    var row := RowOf(u, i, available, vulnerable);
    Assembled(u, n, row, i, income, debt, emp, policy);
    Counted(i, u.live, policy, available, vulnerable);
    RightRow(row, u, n, rc, policy, income, debt, emp);
  }

  /**
   * The reconstructed row is the specification under the shifted range test,
   * with the growth figures themselves in the Gap pair, and a row takes
   * exactly 1592 triples.
   */
  method ComputeEntityMetricsWire(u: SharedRow, rc: RangeConfig, policy: Policy, bag: TripleBag, n: nat)
    returns (r: Result<SharedMetricRow>)
    requires u.Ok(n) && AllBounds(rc) && bag.Honest(n)
    modifies bag
    ensures r.Success? <==> old(bag.index) + ROW_COST <= |bag.triples|
    ensures r.Success? ==> bag.index == old(bag.index) + ROW_COST
    ensures r.Success? ==> RowRight(r.value, u, n, rc, policy) && r.value.gap.num == u.mas.g && r.value.gap.den == u.dos.g
  {
    hide SharedBit.Open, ToNat, MetricsGiven, InShiftedRange, Included.Match, Included.Ok, RowRight;
    var income :- RangeCheckShared(u.dos.v[INCOME], rc.income, bag, n);
    var debt :- RangeCheckShared(u.mas.v[DEBT], rc.debt, bag, n);
    var emp :- RangeCheckShared(u.mom.v[EMP], rc.emp, bag, n);
    var i :- InclusionBits(u, income, debt, emp, bag, n, policy);
    IncludedShapes(i, n);
    var vulnerable :- Vulnerable(policy, u.live, i.dti, i.dsi, i.delq, i.npl, bag, n);
    var available :- CountFour(i.dti, i.dsi, i.delq, i.npl, bag, n);
    RowOfIsRight(u, n, rc, policy, i, available, vulnerable, income.Open(), debt.Open(), emp.Open());
    r := Success(RowOf(u, i, available, vulnerable));
  }

  lemma IncludedShapes(i: Included, n: nat)
    requires i.Ok(n)
    ensures i.dti.N() == i.dsi.N() == i.delq.N() == i.npl.N() == n
  {
  }

  lemma Counted(i: Included, live: SharedBit, policy: Policy, available: Shared, vulnerable: SharedBit)
    requires var count := Count(i.dti.Open()) + Count(i.dsi.Open()) + Count(i.delq.Open()) + Count(i.npl.Open());
             && Value(available) == count
             && (vulnerable.Open() <==> live.Open() && if policy == Strict then count == 4 else count >= 1)
    ensures Coverage(i.dti.Open(), i.dsi.Open(), i.delq.Open(), i.npl.Open(), live.Open(), policy, Value(available),
                     vulnerable.Open())
  {
    hide SharedBit.Open, ToNat;
  }

  lemma RightRow(row: SharedMetricRow, u: SharedRow, n: nat, rc: RangeConfig, policy: Policy,
                 income: bool, debt: bool, emp: bool)
    requires u.Ok(n) && AllBounds(rc) && Sized(u.Plain())
    requires SameButGap(row.Plain(), MetricsGiven(u.Plain(), income, debt, emp, policy))
    requires income == InShiftedRange(Value(u.dos.v[INCOME]), rc.income) && debt == InShiftedRange(Value(u.mas.v[DEBT]), rc.debt)
    requires emp == InShiftedRange(Value(u.mom.v[EMP]), rc.emp)
    requires row.gap.num == u.mas.g && row.gap.den == u.dos.g && row.live == u.live
    requires row.bMas == u.bMas && row.bDos == u.bDos && row.bMom == u.bMom
    requires Coverage(row.dti.incl.Open(), row.dsi.incl.Open(), row.delq.incl.Open(), row.npl.incl.Open(), u.live.Open(),
                      policy, Value(row.available), row.vulnerable.Open())
    ensures RowRight(row, u, n, rc, policy)
  {
    hide WireMeans, MetricsGiven, SharedBit.Open, ToNat, SameButGap, Coverage, SharedMetricRow.Plain, MeansInRange, AllExact;
    MatchMeans(row, u, n, policy, income, debt, emp);
    if AllExact(rc) {
      PlainIsOk(u, n);
      ExactMatches(u.Plain(), rc, policy);
      ExactMeans(row, u, n, rc, policy);
    }
  }

  lemma PlainIsOk(u: SharedRow, n: nat)
    requires u.Ok(n)
    ensures u.Plain().Ok()
  {
    SourceIsOk(u.mas, n);
    SourceIsOk(u.dos, n);
    SourceIsOk(u.mom, n);
  }

  lemma SourceIsOk(s: SharedSource, n: nat)
    requires s.Ok(n)
    ensures s.Plain().Ok()
  {
    hide ToNat, Pow2, SharedBit.Open;
    Pow2At64();
    ToNatBound(Open(s.g));
    forall i | 0 <= i < FIELDS ensures Value(s.v[i]) < U64 {
      ToNatBound(Open(s.v[i]));
    }
  }

  /** The row put together from the gates' results. */
  lemma Assembled(u: SharedRow, n: nat, row: SharedMetricRow, i: Included, income: bool, debt: bool, emp: bool, policy: Policy)
    requires u.Ok(n) && i.Match(MetricsGiven(u.Plain(), income, debt, emp, policy))
    requires row.bin == u.bin && row.period == u.period && row.sector == u.sector && row.conflict == u.conflict
    requires row.live == u.live && row.bMas == u.bMas && row.bDos == u.bDos && row.bMom == u.bMom
    requires row.dti == SharedMetric(u.mas.v[DEBT], u.dos.v[INCOME], i.dti)
    requires row.dsi == SharedMetric(u.mas.v[DSERV], u.dos.v[INCOME], i.dsi)
    requires row.dEmp == SharedMetric(u.mas.v[DEBT], u.mom.v[EMP], i.dEmp)
    requires row.ipw == SharedMetric(u.dos.v[INCOME], u.mom.v[EMP], i.ipw)
    requires row.delq == SharedMetric(u.mas.v[DELQ], u.mas.v[DEBT], i.delq)
    requires row.npl == SharedMetric(u.mas.v[NPL], u.mas.v[DEBT], i.npl)
    requires row.unsecShare == SharedMetric(u.mas.v[UNSEC], u.mas.v[DEBT], i.unsec)
    requires row.stDebtShare == SharedMetric(u.mas.v[STDEBT], u.mas.v[DEBT], i.stDebt)
    requires row.gap.incl == i.gap
    requires var available := Count(i.dti.Open()) + Count(i.dsi.Open()) + Count(i.delq.Open()) + Count(i.npl.Open());
             && Value(row.available) == available
             && (row.vulnerable.Open() <==> u.live.Open() && if policy == Strict then available == 4 else available >= 1)
    ensures SameButGap(row.Plain(), MetricsGiven(u.Plain(), income, debt, emp, policy))
  {
    hide SharedBit.Open, Value, SignedGap;
  }

  /**
   * A batch of rows: as many triples as rows times the row cost, every row
   * the specification under the shifted range test, and under exact ranges
   * the plaintext row.
   */
  method ComputeEntityMetricsWireBatch(rows: seq<SharedRow>, rc: RangeConfig, policy: Policy, bag: TripleBag, n: nat)
    returns (r: Result<seq<SharedMetricRow>>)
    requires AllBounds(rc) && bag.Honest(n) && forall k :: 0 <= k < |rows| ==> rows[k].Ok(n)
    modifies bag
    ensures r.Success? <==> rows == [] || old(bag.index) + |rows| * ROW_COST <= |bag.triples|
    ensures r.Success? ==> bag.index == old(bag.index) + |rows| * ROW_COST && |r.value| == |rows|
    ensures r.Success? ==> forall k :: 0 <= k < |rows| ==> RowRight(r.value[k], rows[k], n, rc, policy)
  {
    hide RowRight, SharedRow.Ok;
    var out: seq<SharedMetricRow> := [];
    for i := 0 to |rows|
      invariant |out| == i && bag.index == old(bag.index) + i * ROW_COST && (i > 0 ==> bag.index <= |bag.triples|)
      invariant forall k :: 0 <= k < i ==> RowRight(out[k], rows[k], n, rc, policy)
    {
      var row :- ComputeEntityMetricsWire(rows[i], rc, policy, bag, n);
      out := out + [row];
    }
    r := Success(out);
  }
}
