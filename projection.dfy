/** The cost projection of a lead-acid and a lithium battery: six monthly cost
    columns built from the scalar inputs, their per-month totals and the two
    cumulative cost columns, over a horizon of `h` months (`MaxMo` in the
    program). Money is an exact `real`; the rate `DollarTl` converts Turkish
    lira to dollars. */
module Projection {
  import opened Series

  const MaxYr: nat := 30
  /** Months 0 to `12 * MaxYr` inclusive: 361. */
  const MaxMo: nat := MaxYr * 12 + 1
  const DollarTl: real := 1.0 / 28.0

  /** The horizon runs from month 0 to month 360, the end of the thirtieth
      year, and one dollar buys 28 lira. */
  lemma HorizonAndRate()
    ensures MaxMo == 361 && MaxMo - 1 == 12 * MaxYr
    ensures 28.0 * DollarTl == 1.0
  {
  }

  /** The values of the input widgets. The maintenance interval is held as a
      count of tenths of a year, the step of its widget. */
  datatype Inputs = Inputs(
    lacidPrice: real,               // dollars
    lacidLifespan: int,             // years
    lacidMaintenanceTenths: int,    // tenths of a year between maintenance events
    lacidMaintenanceCost: real,     // lira per maintenance event
    lacidWasteValue: real,          // dollars recovered at each replacement
    lithiumPrice: real,             // dollars
    lithiumLifespan: int,           // years
    lithiumAdvFactor: real,         // relative change in electricity use
    elecPrice: real,                // lira per kWh
    elecUsage: real,                // kWh per month
    projectionTime: int             // years shown on the chart
  )

  /** The ranges the input widgets enforce. */
  predicate WidgetBounds(p: Inputs)
  {
    && p.lacidPrice >= 0.01
    && 1 <= p.lacidLifespan <= 20
    && p.lacidMaintenanceTenths >= 1
    && p.lacidMaintenanceCost >= 0.01
    && p.lacidWasteValue >= 0.01
    && p.lithiumPrice >= 0.01
    && 1 <= p.lithiumLifespan <= 20
    && -0.99 <= p.lithiumAdvFactor <= 0.0
    && p.elecPrice >= 0.01
    && p.elecUsage >= 0.1
    && 5 <= p.projectionTime <= 30
  }

  /** Monthly lead-acid electricity cost in dollars. */
  function ElectricityCost(p: Inputs): (e: real)
  {
    p.elecPrice * DollarTl * p.elecUsage
  }

  /** Monthly lithium electricity cost: the lead-acid cost scaled by the
      efficiency factor. */
  function LithiumElectricityCost(p: Inputs): (e: real)
  {
    ElectricityCost(p) * (1.0 + p.lithiumAdvFactor)
  }

  /** Python's `x % m` on floats for `m > 0`, with exact arithmetic: the
      remainder after taking away the largest whole multiple of `m`. */
  function FloorMod(x: real, m: real): (r: real)
    requires m > 0.0
    ensures 0.0 <= r < m
  {
    var y := x / m;
    var k := y.Floor;
    assert x == m * y;
    assert 0.0 <= y - k as real < 1.0;
    var f := y - k as real;
    assert x - m * (k as real) == m * f;
    ProductBelow(m, f);
    assert 0.0 <= x - m * (k as real) < m;
    x - m * (k as real)
  }

  /** `m * f` lies in `[0, m)` for `f` in `[0, 1)`. */
  lemma ProductBelow(m: real, f: real)
    requires m > 0.0 && 0.0 <= f < 1.0
    ensures 0.0 <= m * f < m
  {
    assert m - m * f == m * (1.0 - f);
    assert m * (1.0 - f) > 0.0;
  }

  lemma ProductAtLeast(m: real, f: real)
    requires m > 0.0 && f >= 1.0
    ensures m * f >= m
  {
    assert m * f - m == m * (f - 1.0);
  }

  /** The floored remainder is fixed by any decomposition `x == m * k + r`
      with a whole `k` and `0 <= r < m`. */
  lemma FloorModUnique(x: real, m: real, k: int, r: real)
    requires m > 0.0 && 0.0 <= r < m && x == m * (k as real) + r
    ensures FloorMod(x, m) == r
  {
    var f := r / m;
    assert r == m * f;
    if f >= 1.0 {
      ProductAtLeast(m, f);
    }
    assert x / m == k as real + f by {
      assert x == m * (k as real + f);
    }
    assert (x / m).Floor == k;
  }

  /** A maintenance event falls in month `n` when `n` is a whole multiple of the
      interval of `tenths / 10` years, that is of `12 * tenths / 10` months. */
  predicate MaintenanceDue(tenths: nat, n: nat)
    requires tenths >= 1
  {
    (10 * n) % (12 * tenths) == 0
  }

  /** Lead-acid maintenance: the converted cost at every maintenance month. */
  function MaintenanceSeries(h: nat, tenths: nat, costTl: real): (s: seq<real>)
    requires tenths >= 1
    ensures |s| == h
  {
    seq(h, n requires 0 <= n < h => if MaintenanceDue(tenths, n) then costTl * DollarTl else 0.0)
  }

  /** Lead-acid salvage: minus the waste value at every replacement month
      except month 0. */
  function SalvageSeries(h: nat, period: nat, waste: real): (s: seq<real>)
    requires period > 0
    ensures |s| == h
  {
    seq(h, n => if n % period == 0 && n != 0 then 0.0 - waste else 0.0)
  }

  /** The data frame after the two cumulative columns are added. `months[n]`
      is the offset in months of the row's date from the start date. */
  datatype Frame = Frame(
    months: seq<nat>,
    lithiumPurchase: seq<real>,
    lithiumElectricity: seq<real>,
    lacidPurchase: seq<real>,
    lacidMaintenance: seq<real>,
    lacidWaste: seq<real>,
    lacidElectricity: seq<real>,
    lithiumCosts: seq<real>,
    lacidCosts: seq<real>
  )

  /** The date column: month offsets `0, 1, ..., h - 1` from the start date. */
  function Months(h: nat): (ms: seq<nat>)
    ensures |ms| == h
  {
    seq(h, n requires 0 <= n < h => n as nat)
  }

  /** The whole projection over `h` months: every column has one row per month. */
  function Project(p: Inputs, h: nat): (f: Frame)
    requires WidgetBounds(p)
    ensures |f.months| == h
    ensures |f.lithiumPurchase| == h && |f.lithiumElectricity| == h
    ensures |f.lacidPurchase| == h && |f.lacidMaintenance| == h
    ensures |f.lacidWaste| == h && |f.lacidElectricity| == h
    ensures |f.lithiumCosts| == h && |f.lacidCosts| == h
  {
    var lithiumPurchase := Recurring(h, p.lithiumLifespan * 12, p.lithiumPrice);
    var lithiumElectricity := Constant(h, LithiumElectricityCost(p));
    var lacidPurchase := Recurring(h, p.lacidLifespan * 12, p.lacidPrice);
    var lacidMaintenance := MaintenanceSeries(h, p.lacidMaintenanceTenths, p.lacidMaintenanceCost);
    var lacidWaste := SalvageSeries(h, p.lacidLifespan * 12, p.lacidWasteValue);
    var lacidElectricity := Constant(h, ElectricityCost(p));
    Frame(Months(h),
          lithiumPurchase, lithiumElectricity,
          lacidPurchase, lacidMaintenance, lacidWaste, lacidElectricity,
          RunningTotal(LithiumTotals(lithiumPurchase, lithiumElectricity)),
          RunningTotal(LeadAcidTotals(lacidPurchase, lacidMaintenance, lacidWaste, lacidElectricity)))
  }

  /** All columns of the frame have the same number of rows. */
  predicate WellShaped(f: Frame)
  {
    var h := |f.lithiumPurchase|;
    && |f.months| == h && |f.lithiumElectricity| == h
    && |f.lacidPurchase| == h && |f.lacidMaintenance| == h && |f.lacidWaste| == h
    && |f.lacidElectricity| == h && |f.lithiumCosts| == h && |f.lacidCosts| == h
  }

  /** Lithium's monthly totals: purchase plus electricity. */
  function LithiumTotals(purchase: seq<real>, electricity: seq<real>): (t: seq<real>)
    requires |electricity| == |purchase|
    ensures |t| == |purchase|
  {
    SumHorizontal([purchase, electricity], |purchase|)
  }

  /** Lead-acid's monthly totals: purchase, maintenance, salvage and electricity. */
  function LeadAcidTotals(purchase: seq<real>, maintenance: seq<real>, waste: seq<real>, electricity: seq<real>): (t: seq<real>)
    requires |maintenance| == |purchase| && |waste| == |purchase| && |electricity| == |purchase|
    ensures |t| == |purchase|
  {
    SumHorizontal([purchase, maintenance, waste, electricity], |purchase|)
  }

  /** The projection the program draws: 361 months. */
  function ProjectFull(p: Inputs): (f: Frame)
    requires WidgetBounds(p)
    ensures |f.lithiumCosts| == 361 && |f.lacidCosts| == 361
  {
    Project(p, MaxMo)
  }

  /** The first `k` months of a projection do not depend on the horizon: the
      projection over `k <= h` months is the first `k` rows of the one over `h`. */
  lemma ProjectPrefix(p: Inputs, h: nat, k: nat)
    requires WidgetBounds(p) && k <= h
    ensures var f, g := Project(p, h), Project(p, k);
      && g.months == f.months[..k]
      && g.lithiumPurchase == f.lithiumPurchase[..k]
      && g.lithiumElectricity == f.lithiumElectricity[..k]
      && g.lacidPurchase == f.lacidPurchase[..k]
      && g.lacidMaintenance == f.lacidMaintenance[..k]
      && g.lacidWaste == f.lacidWaste[..k]
      && g.lacidElectricity == f.lacidElectricity[..k]
      && g.lithiumCosts == f.lithiumCosts[..k]
      && g.lacidCosts == f.lacidCosts[..k]
  {
    var f, g := Project(p, h), Project(p, k);
    ColumnsPrefix(p, h, k);
    CostsAreRunningTotals(p, h);
    CostsAreRunningTotals(p, k);
    TotalsPrefix(f, g, k);
  }

  /** When the components of `g` are the first `k` rows of those of `f`, so
      are the running totals of its monthly totals. */
  lemma TotalsPrefix(f: Frame, g: Frame, k: nat)
    requires WellShaped(f) && WellShaped(g) && |g.lithiumPurchase| == k <= |f.lithiumPurchase|
    requires g.lithiumPurchase == f.lithiumPurchase[..k] && g.lithiumElectricity == f.lithiumElectricity[..k]
    requires g.lacidPurchase == f.lacidPurchase[..k] && g.lacidMaintenance == f.lacidMaintenance[..k]
    requires g.lacidWaste == f.lacidWaste[..k] && g.lacidElectricity == f.lacidElectricity[..k]
    ensures RunningTotal(LithiumTotals(g.lithiumPurchase, g.lithiumElectricity))
         == RunningTotal(LithiumTotals(f.lithiumPurchase, f.lithiumElectricity))[..k]
    ensures RunningTotal(LeadAcidTotals(g.lacidPurchase, g.lacidMaintenance, g.lacidWaste, g.lacidElectricity))
         == RunningTotal(LeadAcidTotals(f.lacidPurchase, f.lacidMaintenance, f.lacidWaste, f.lacidElectricity))[..k]
  {
    var h := |f.lithiumPurchase|;
    SumHorizontalPrefix([f.lithiumPurchase, f.lithiumElectricity],
                        [g.lithiumPurchase, g.lithiumElectricity], h, k);
    SumHorizontalPrefix([f.lacidPurchase, f.lacidMaintenance, f.lacidWaste, f.lacidElectricity],
                        [g.lacidPurchase, g.lacidMaintenance, g.lacidWaste, g.lacidElectricity], h, k);
    RunningTotalPrefix(LithiumTotals(f.lithiumPurchase, f.lithiumElectricity), k);
    RunningTotalPrefix(LeadAcidTotals(f.lacidPurchase, f.lacidMaintenance, f.lacidWaste, f.lacidElectricity), k);
  }

  /** The component columns over `k <= h` months are the first `k` rows of
      those over `h` months. */
  lemma ColumnsPrefix(p: Inputs, h: nat, k: nat)
    requires WidgetBounds(p) && k <= h
    ensures var f, g := Project(p, h), Project(p, k);
      && g.months == f.months[..k]
      && g.lithiumPurchase == f.lithiumPurchase[..k]
      && g.lithiumElectricity == f.lithiumElectricity[..k]
      && g.lacidPurchase == f.lacidPurchase[..k]
      && g.lacidMaintenance == f.lacidMaintenance[..k]
      && g.lacidWaste == f.lacidWaste[..k]
      && g.lacidElectricity == f.lacidElectricity[..k]
  {
    assert Months(k) == Months(h)[..k];
    assert Recurring(k, p.lithiumLifespan * 12, p.lithiumPrice)
        == Recurring(h, p.lithiumLifespan * 12, p.lithiumPrice)[..k];
    assert Constant(k, LithiumElectricityCost(p)) == Constant(h, LithiumElectricityCost(p))[..k];
    assert Recurring(k, p.lacidLifespan * 12, p.lacidPrice)
        == Recurring(h, p.lacidLifespan * 12, p.lacidPrice)[..k];
    assert MaintenanceSeries(k, p.lacidMaintenanceTenths, p.lacidMaintenanceCost)
        == MaintenanceSeries(h, p.lacidMaintenanceTenths, p.lacidMaintenanceCost)[..k];
    assert SalvageSeries(k, p.lacidLifespan * 12, p.lacidWasteValue)
        == SalvageSeries(h, p.lacidLifespan * 12, p.lacidWasteValue)[..k];
    assert Constant(k, ElectricityCost(p)) == Constant(h, ElectricityCost(p))[..k];
  }

  // ---------------------------------------------------------------------
  // Purchases and salvage

  /** A battery is bought exactly in the months that are multiples of its
      lifespan, for its price; month 0 always records a purchase. */
  lemma PurchaseAtReplacements(p: Inputs, h: nat, n: nat)
    requires WidgetBounds(p) && n < h
    ensures var f := Project(p, h);
      && (f.lithiumPurchase[n] != 0.0 <==> n % (p.lithiumLifespan * 12) == 0)
      && (f.lacidPurchase[n] != 0.0 <==> n % (p.lacidLifespan * 12) == 0)
      && f.lithiumPurchase[n] in {0.0, p.lithiumPrice}
      && f.lacidPurchase[n] in {0.0, p.lacidPrice}
      && f.lithiumPurchase[0] == p.lithiumPrice && f.lacidPurchase[0] == p.lacidPrice
  {
  }

  /** Over the first `h >= 1` months each technology is bought
      `(h - 1) / (12 * lifespan) + 1` times, which is `ceil(h / (12 * lifespan))`. */
  lemma PurchaseCount(p: Inputs, h: nat)
    requires WidgetBounds(p) && h >= 1
    ensures var f, li, la := Project(p, h), p.lithiumLifespan * 12, p.lacidLifespan * 12;
      && Occurrences(f.lithiumPurchase) == (h - 1) / li + 1 == (h + li - 1) / li
      && Occurrences(f.lacidPurchase) == (h - 1) / la + 1 == (h + la - 1) / la
  {
    var f, li, la := Project(p, h), p.lithiumLifespan * 12, p.lacidLifespan * 12;
    assert f.lithiumPurchase == Recurring(h, li, p.lithiumPrice);
    assert f.lacidPurchase == Recurring(h, la, p.lacidPrice);
    RecurringCount(h, li, p.lithiumPrice);
    RecurringCount(h, la, p.lacidPrice);
  }

  /** Over the 361 months of the program a battery lasting `y` years is bought
      `30 / y + 1` times (8 times for the default four-year lead-acid battery). */
  lemma PurchaseCountFullHorizon(p: Inputs)
    requires WidgetBounds(p)
    ensures Occurrences(ProjectFull(p).lacidPurchase) == 30 / p.lacidLifespan + 1
    ensures Occurrences(ProjectFull(p).lithiumPurchase) == 30 / p.lithiumLifespan + 1
  {
    PurchaseCount(p, MaxMo);
    Thirty(p.lacidLifespan);
    Thirty(p.lithiumLifespan);
  }

  lemma Thirty(y: int)
    requires 1 <= y <= 20
    ensures 360 / (y * 12) == 30 / y
  {
    DivModUnique(360, y * 12, 30 / y, (30 % y) * 12);
  }

  /** Salvage is recovered exactly at the replacement months after month 0;
      there is never salvage at month 0. */
  lemma SalvageAtLaterReplacements(p: Inputs, h: nat, n: nat)
    requires WidgetBounds(p) && n < h
    ensures var f := Project(p, h);
      && (f.lacidWaste[n] != 0.0 <==> f.lacidPurchase[n] != 0.0 && n != 0)
      && f.lacidWaste[n] in {0.0, -p.lacidWasteValue}
      && f.lacidWaste[0] == 0.0
  {
  }

  /** Over the first `h >= 1` months there is one salvage fewer than there are
      lead-acid purchases. */
  lemma SalvageCount(p: Inputs, h: nat)
    requires WidgetBounds(p) && h >= 1
    ensures var f := Project(p, h);
      Occurrences(f.lacidWaste) == Occurrences(f.lacidPurchase) - 1
  {
    var period := p.lacidLifespan * 12;
    SalvageSeriesCount(h, period, p.lacidWasteValue);
    RecurringCountStep(h, period, p.lacidPrice);
  }

  /** A salvage column with period `period` holds `(h - 1) / period` non-zero
      rows in its first `h >= 1` rows. */
  lemma {:induction false} SalvageSeriesCount(h: nat, period: nat, waste: real)
    requires period > 0 && h >= 1 && waste != 0.0
    ensures Occurrences(SalvageSeries(h, period, waste)) == (h - 1) / period
  {
    var s := SalvageSeries(h, period, waste);
    if h == 1 {
      assert s[..0] == [];
      assert s[0] == 0.0;
    } else {
      var prev := SalvageSeries(h - 1, period, waste);
      SalvageSeriesCount(h - 1, period, waste);
      assert s[..h - 1] == prev;
      assert (s[h - 1] != 0.0) == ((h - 1) % period == 0);
      DivStep(h - 1, period);
    }
  }

  // ---------------------------------------------------------------------
  // Maintenance

  /** `MaintenanceDue` is the exact reading of the program's test that month
      `n` leaves no floored remainder by twelve times the interval of
      `tenths / 10` years: that remainder is a tenth of
      `(10 * n) % (12 * tenths)`, and so zero exactly in the months
      `MaintenanceDue` names. */
  lemma MaintenanceExactReading(tenths: nat, n: nat)
    requires tenths >= 1
    ensures FloorMod(n as real, (tenths as real / 10.0) * 12.0) == ((10 * n) % (12 * tenths)) as real / 10.0
    ensures FloorMod(n as real, (tenths as real / 10.0) * 12.0) == 0.0 <==> MaintenanceDue(tenths, n)
  {
    var d := 12 * tenths;
    var q := (10 * n) / d;
    var r := (10 * n) % d;
    assert 10 * n == d * q + r;
    var m := (tenths as real / 10.0) * 12.0;
    assert (10 * n) as real == (d * q) as real + r as real;
    assert (d * q) as real == d as real * q as real;
    assert n as real == m * (q as real) + r as real / 10.0;
    FloorModUnique(n as real, m, q, r as real / 10.0);
  }

  /** For a whole number `y` of years between events, maintenance falls in the
      months that are multiples of `12 * y`. */
  lemma MaintenanceWholeYears(y: nat, n: nat)
    requires y >= 1
    ensures MaintenanceDue(10 * y, n) <==> n % (12 * y) == 0
  {
    var q, r := n / (12 * y), n % (12 * y);
    DivModUnique(10 * n, 120 * y, q, 10 * r);
  }

  /** Maintenance costs the converted lira amount in the maintenance months and
      nothing otherwise; a one-year interval gives months 0, 12, 24, ... */
  lemma MaintenanceSchedule(p: Inputs, h: nat, n: nat)
    requires WidgetBounds(p) && n < h
    ensures var f := Project(p, h);
      && (f.lacidMaintenance[n] != 0.0 <==> MaintenanceDue(p.lacidMaintenanceTenths, n))
      && f.lacidMaintenance[n] in {0.0, p.lacidMaintenanceCost / 28.0}
      && (p.lacidMaintenanceTenths == 10 ==> (f.lacidMaintenance[n] != 0.0 <==> n % 12 == 0))
  {
    MaintenanceWholeYears(1, n);
  }

  /** The maintenance column depends on the maintenance interval and cost only,
      never on the lead-acid lifespan or any other input. */
  lemma MaintenanceIndependentOfLifespan(p: Inputs, q: Inputs, h: nat)
    requires WidgetBounds(p) && WidgetBounds(q)
    requires p.lacidMaintenanceTenths == q.lacidMaintenanceTenths
    requires p.lacidMaintenanceCost == q.lacidMaintenanceCost
    ensures Project(p, h).lacidMaintenance == Project(q, h).lacidMaintenance
  {
  }

  // ---------------------------------------------------------------------
  // Electricity

  /** Electricity costs the same every month; lithium pays the lead-acid amount
      scaled by `1 + adv_factor`, which the widget bounds keep between 1% and
      100% of it, so lithium never pays more and never pays less than zero. */
  lemma ElectricityConstant(p: Inputs, h: nat, i: nat, j: nat)
    requires WidgetBounds(p) && i < h && j < h
    ensures var f := Project(p, h);
      && f.lacidElectricity[i] == f.lacidElectricity[j] == p.elecPrice * p.elecUsage / 28.0
      && f.lithiumElectricity[i] == f.lithiumElectricity[j]
      && f.lithiumElectricity[i] == f.lacidElectricity[i] * (1.0 + p.lithiumAdvFactor)
      && 0.0 < f.lithiumElectricity[i] <= f.lacidElectricity[i]
  {
    ElectricityBounds(p);
  }

  /** Within the widget bounds both monthly electricity costs are positive and
      lithium's is at most lead-acid's. */
  lemma ElectricityBounds(p: Inputs)
    requires WidgetBounds(p)
    ensures ElectricityCost(p) == p.elecPrice * p.elecUsage / 28.0
    ensures 0.0 < LithiumElectricityCost(p) <= ElectricityCost(p)
  {
    var e := ElectricityCost(p);
    var a := 1.0 + p.lithiumAdvFactor;
    assert e == (p.elecPrice * p.elecUsage) / 28.0;
    assert p.elecPrice * p.elecUsage > 0.0;
    assert 0.0 < a <= 1.0;
    assert e * a > 0.0;
    assert e - e * a == e * (1.0 - a);
    assert e * (1.0 - a) >= 0.0;
    assert LithiumElectricityCost(p) == e * a;
    assert 0.0 < e * a <= e;
  }

  // ---------------------------------------------------------------------
  // Totals and cumulative costs

  /** Each month's total is the sum of its technology's components: two for
      lithium, four for lead-acid. */
  lemma MonthlyTotals(f: Frame, n: nat)
    requires |f.lithiumElectricity| == |f.lithiumPurchase| && n < |f.lithiumPurchase|
    requires |f.lacidMaintenance| == |f.lacidPurchase| && |f.lacidWaste| == |f.lacidPurchase|
    requires |f.lacidElectricity| == |f.lacidPurchase| && n < |f.lacidPurchase|
    ensures LithiumTotals(f.lithiumPurchase, f.lithiumElectricity)[n]
         == f.lithiumPurchase[n] + f.lithiumElectricity[n]
    ensures LeadAcidTotals(f.lacidPurchase, f.lacidMaintenance, f.lacidWaste, f.lacidElectricity)[n]
         == f.lacidPurchase[n] + f.lacidMaintenance[n] + f.lacidWaste[n] + f.lacidElectricity[n]
  {
    SumHorizontalTwo(f.lithiumPurchase, f.lithiumElectricity, |f.lithiumPurchase|, n);
    SumHorizontalFour(f.lacidPurchase, f.lacidMaintenance, f.lacidWaste, f.lacidElectricity, |f.lacidPurchase|, n);
  }

  /** The cumulative columns are the running totals of the monthly totals. */
  lemma CostsAreRunningTotals(p: Inputs, h: nat)
    requires WidgetBounds(p)
    ensures var f := Project(p, h);
      && f.lithiumCosts == RunningTotal(LithiumTotals(f.lithiumPurchase, f.lithiumElectricity))
      && f.lacidCosts == RunningTotal(LeadAcidTotals(f.lacidPurchase, f.lacidMaintenance, f.lacidWaste, f.lacidElectricity))
  {
  }

  /** The cumulative columns start at month 0's total and add each month's
      total to the previous month's cumulative cost; the last one is the total
      cost over the horizon. */
  lemma CumulativeRecurrence(p: Inputs, h: nat, n: nat)
    requires WidgetBounds(p) && n < h
    ensures var f := Project(p, h);
      && f.lithiumCosts[0] == f.lithiumPurchase[0] + f.lithiumElectricity[0]
      && f.lacidCosts[0] == f.lacidPurchase[0] + f.lacidMaintenance[0] + f.lacidWaste[0] + f.lacidElectricity[0]
      && (n > 0 ==> f.lithiumCosts[n] == f.lithiumCosts[n - 1] + f.lithiumPurchase[n] + f.lithiumElectricity[n])
      && (n > 0 ==>
            f.lacidCosts[n] == f.lacidCosts[n - 1]
              + f.lacidPurchase[n] + f.lacidMaintenance[n] + f.lacidWaste[n] + f.lacidElectricity[n])
      && f.lithiumCosts[h - 1] == Sum(LithiumTotals(f.lithiumPurchase, f.lithiumElectricity))
      && f.lacidCosts[h - 1] == Sum(LeadAcidTotals(f.lacidPurchase, f.lacidMaintenance, f.lacidWaste, f.lacidElectricity))
  {
    var f := Project(p, h);
    CostsAreRunningTotals(p, h);
    MonthlyTotals(f, 0);
    MonthlyTotals(f, n);
    RunningTotalLast(LithiumTotals(f.lithiumPurchase, f.lithiumElectricity));
    RunningTotalLast(LeadAcidTotals(f.lacidPurchase, f.lacidMaintenance, f.lacidWaste, f.lacidElectricity));
  }

  /** Every lithium component is non-negative within the widget bounds, so
      lithium's cumulative cost never decreases. */
  lemma LithiumNonDecreasing(p: Inputs, h: nat, i: nat, j: nat)
    requires WidgetBounds(p) && i <= j < h
    ensures Project(p, h).lithiumCosts[i] <= Project(p, h).lithiumCosts[j]
  {
    var f := Project(p, h);
    var total := LithiumTotals(f.lithiumPurchase, f.lithiumElectricity);
    ElectricityBounds(p);
    forall n | 0 <= n < h
      ensures total[n] >= 0.0
    {
      MonthlyTotals(f, n);
      assert f.lithiumPurchase[n] >= 0.0;
      assert f.lithiumElectricity[n] == LithiumElectricityCost(p);
    }
    CostsAreRunningTotals(p, h);
    RunningTotalNonDecreasing(total, i, j);
  }

  /** At a lead-acid replacement month after month 0 the cumulative cost moves
      by the price less the salvage value, plus electricity, plus the
      maintenance cost when maintenance falls in the same month. */
  lemma LeadAcidReplacementStep(p: Inputs, h: nat, n: nat)
    requires WidgetBounds(p) && 0 < n < h && n % (p.lacidLifespan * 12) == 0
    ensures var f := Project(p, h);
      f.lacidCosts[n] - f.lacidCosts[n - 1]
        == p.lacidPrice - p.lacidWasteValue + ElectricityCost(p)
           + (if MaintenanceDue(p.lacidMaintenanceTenths, n) then p.lacidMaintenanceCost * DollarTl else 0.0)
  {
    CumulativeRecurrence(p, h, n);
  }

  /** Lead-acid's cumulative cost is not monotone, but it can fall only at a
      salvage month: it falls in month `n > 0` exactly when `n` is a
      replacement month whose salvage value exceeds the rest of that month's
      cost, which includes maintenance only when maintenance is due. In every
      other month it rises by at least the electricity cost. */
  lemma LeadAcidDipsAtSalvage(p: Inputs, h: nat, n: nat)
    requires WidgetBounds(p) && 0 < n < h
    ensures Project(p, h).lacidCosts[n] < Project(p, h).lacidCosts[n - 1]
        <==> && n % (p.lacidLifespan * 12) == 0
             && p.lacidWasteValue > p.lacidPrice + ElectricityCost(p)
                  + (if MaintenanceDue(p.lacidMaintenanceTenths, n) then p.lacidMaintenanceCost * DollarTl else 0.0)
  {
    CumulativeRecurrence(p, h, n);
    ElectricityBounds(p);
  }

  /** The initial values of the input widgets. */
  function DefaultInputs(): (p: Inputs)
    ensures WidgetBounds(p)
  {
    Inputs(1400.0, 4, 10, 2000.0, 150.0, 1600.0, 8, -0.3, 4.53, 80.0, 10)
  }

  /** The defaults with a salvage value above the lead-acid price. */
  function HighSalvageInputs(): (p: Inputs)
    ensures WidgetBounds(p)
    ensures p.lacidWasteValue > p.lacidPrice + ElectricityCost(p) + p.lacidMaintenanceCost * DollarTl
  {
    DefaultInputs().(lacidWasteValue := 1600.0)
  }

  /** With the default lead-acid and electricity inputs but a salvage value
      of 1600 against a price of 1400, the lead-acid cumulative cost falls at
      month 48, its first replacement, over any horizon past it (361 months,
      for `HighSalvageInputs`, included). */
  lemma LeadAcidDipExample(p: Inputs, h: nat)
    requires WidgetBounds(p) && p.lacidPrice == 1400.0 && p.lacidLifespan == 4
    requires p.lacidMaintenanceTenths == 10 && p.lacidMaintenanceCost == 2000.0
    requires p.lacidWasteValue == 1600.0 && p.elecPrice == 4.53 && p.elecUsage == 80.0
    requires h > 48
    ensures Project(p, h).lacidCosts[48] < Project(p, h).lacidCosts[47]
  {
    assert ElectricityCost(p) < 13.0 && p.lacidMaintenanceCost * DollarTl < 72.0;
    LeadAcidDipsAtSalvage(p, h, 48);
  }

  /** With maintenance every 0.7 years and a salvage value of 1450 instead:
      maintenance is not due at month 48, and the salvage value, though below
      price, electricity and maintenance together, exceeds price and
      electricity, so the cumulative cost still falls there. */
  lemma LeadAcidDipWithoutMaintenance(p: Inputs, h: nat)
    requires WidgetBounds(p) && p.lacidPrice == 1400.0 && p.lacidLifespan == 4
    requires p.lacidMaintenanceTenths == 7 && p.lacidMaintenanceCost == 2000.0
    requires p.lacidWasteValue == 1450.0 && p.elecPrice == 4.53 && p.elecUsage == 80.0
    requires h > 48
    ensures !MaintenanceDue(p.lacidMaintenanceTenths, 48)
    ensures p.lacidWasteValue < p.lacidPrice + ElectricityCost(p) + p.lacidMaintenanceCost * DollarTl
    ensures Project(p, h).lacidCosts[48] < Project(p, h).lacidCosts[47]
  {
    assert (10 * 48) % (12 * 7) == 60;
    assert 12.0 < ElectricityCost(p) < 13.0 && 71.0 < p.lacidMaintenanceCost * DollarTl;
    LeadAcidDipsAtSalvage(p, h, 48);
  }

  /** With the default lead-acid inputs (a 4-year battery at 1400 and 2000
      lira of maintenance every year) and any horizon past month 48: purchases at months 0 and 48 but not
      47, and maintenance of 2000/28 dollars at month 12 but not 6. */
  lemma DefaultScenario(p: Inputs, h: nat)
    requires WidgetBounds(p) && p.lacidPrice == 1400.0 && p.lacidLifespan == 4
    requires p.lacidMaintenanceTenths == 10 && p.lacidMaintenanceCost == 2000.0
    requires h > 48
    ensures var f := Project(p, h);
      && f.lacidPurchase[0] == 1400.0 && f.lacidPurchase[47] == 0.0 && f.lacidPurchase[48] == 1400.0
      && f.lacidMaintenance[12] == 2000.0 / 28.0 && f.lacidMaintenance[6] == 0.0
  {
    PurchaseAtReplacements(p, h, 47);
    PurchaseAtReplacements(p, h, 48);
    MaintenanceSchedule(p, h, 12);
    MaintenanceSchedule(p, h, 6);
  }
}
