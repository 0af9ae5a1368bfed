# Lead-acid versus lithium battery cost projection

A Dafny model of the cost-projection engine of a small Streamlit page that
compares what a lead-acid battery and a lithium battery cost over thirty years.
From a handful of inputs (prices, lifespans in years, the lead-acid maintenance
interval and cost in lira, the lead-acid salvage value, electricity price and
use, and lithium's efficiency factor) the program builds six monthly cost
columns over `MAX_MO = 30 * 12 + 1 = 361` months:

- lithium purchase (the price every `12 * lifespan` months) and lithium
  electricity (a constant, scaled by `1 + adv_factor`);
- lead-acid purchase, maintenance (converted from lira at `DOLLAR_TL = 1/28`
  every maintenance interval), salvage (minus the waste value at every
  replacement except month 0) and electricity (a constant);

then sums each technology's columns per month, takes running totals, melts the
two cumulative columns into long format and keeps the rows dated before the
end of the chosen projection window for the chart.

The model is pure, as the program is:

- `series.dfy` (module `Series`): the column operations the program relies on,
  with exact meaning: constant columns (`[x] * h`), recurring columns (the list
  comprehensions on `n % period == 0`), `sum_horizontal` and `cumsum`, plus lemmas
  about them (prefix sums, monotonicity, truncation, counting recurring events).
- `projection.dfy` (module `Projection`): the constants, the inputs and the
  widget bounds, the six columns, the data frame `Project(p, h)` over a horizon of `h`
  months (`ProjectFull` is the program's 361) and the properties of the projection.
- `display.dfy` (module `Display`): the melt into long format and the date
  filter of the chart, and the proof that it only truncates.

Modelling decisions:

- Money is an exact `real`; `DOLLAR_TL` is exactly `1/28`.
- The horizon is a parameter `h`. `MaxMo = 361` is the program's instance.
- The widget ranges become the predicate `WidgetBounds`:
  - prices and the lead-acid maintenance cost and salvage value are at least 0.01;
  - lifespans are whole years in [1, 20];
  - the maintenance interval is at least 0.1 year, in steps of 0.1;
  - the efficiency factor is in [-0.99, 0.0];
  - the electricity price is at least 0.01 and the use at least 0.1;
  - the window is 5 to 30 years.
- The maintenance interval is a whole count `t` of tenths of a year. The
  program tests `n % (interval * 12) == 0` on floats. The model reads this as
  "`n` is a whole multiple of `12 * t / 10` months", that is
  `(10 * n) % (12 * t) == 0` (`MaintenanceDue`). `MaintenanceExactReading`
  proves this is exactly the condition under which the floored remainder of `n`
  by the real `t / 10 * 12` is zero.
- Dates are month offsets `0 .. h - 1` from an abstract start date. The chart's
  filter `date < start + projection_time years` is read as `offset < 12 * projection_time`.

## Model

| member | source | states |
|---|---|---|
| Series.Constant | main.py:105 | a repeated value `[x] * h` is a column of exactly `h` rows |
| Series.Recurring | main.py:104 | the purchase comprehension over `range(h)` yields exactly `h` rows |
| Series.Add | main.py:121 | the row-wise sum of two equally long columns has their length |
| Series.Sum | main.py:121-126 | the reference total of a list of amounts, taken from the front; `SumHorizontal`, `RunningTotalIsPrefixSum` and `RunningTotalLast` state their results through it |
| Series.SumHorizontal | main.py:121-126 | `sum_horizontal` has one row per month and each row is the sum of that month's entries across the columns |
| Series.RunningTotal | main.py:121-126 | `cumsum` keeps the length, starts at the first amount and adds each month's amount to the previous total |
| Series.RunningTotalIsPrefixSum | main.py:121-126 | each cumulative entry is the sum of the column up to and including its month |
| Series.RunningTotalLast | main.py:121-126 | the last cumulative entry is the total over the whole horizon |
| Series.RunningTotalPrefix | main.py:121-126 | the running total of the first `k` months is the first `k` entries of the full running total |
| Series.RunningTotalNonDecreasing | main.py:121 | a column of non-negative amounts has a running total that never decreases |
| Series.SumHorizontalTwo | main.py:121 | `sum_horizontal` of two columns adds them row by row |
| Series.SumHorizontalFour | main.py:122-126 | `sum_horizontal` of four columns adds them row by row |
| Series.SumHorizontalPrefix | main.py:121-126 | the row sums of truncated columns are the truncated row sums |
| Series.RecurringCount | main.py:104 | an amount recurring every `period` months occurs `(h - 1) / period + 1 = ceil(h / period)` times in the first `h >= 1` months |
| Series.RecurringCountStep | main.py:106 | the same count, proved by induction on the horizon |
| Series.Occurrences | main.py:104-108 | the number of months with a non-zero amount, never more than the months there are; the purchase, salvage and recurrence counts are stated through it |
| Projection.HorizonAndRate | main.py:6-9 | the horizon holds 361 months, 0 to the end of year 30, and 28 lira make a dollar |
| Projection.WidgetBounds | main.py:16-92 | the ranges the widgets enforce on the eleven inputs; `DefaultInputs` and `HighSalvageInputs` meet them and every projection lemma assumes them |
| Projection.ElectricityCost | main.py:103 | lead-acid's monthly electricity cost, price times use converted to dollars; its value and sign are stated by `ElectricityBounds` |
| Projection.LithiumElectricityCost | main.py:105 | lithium's monthly electricity cost, lead-acid's scaled by `1 + adv_factor`; `ElectricityBounds` states it is positive and at most lead-acid's |
| Projection.MaintenanceDue | main.py:107 | the exact tenths-of-a-year reading of the maintenance test; `MaintenanceExactReading` proves it equivalent to a zero floored remainder |
| Projection.FloorMod | main.py:107 | Python's floored float remainder by a positive modulus lies in `[0, m)` |
| Projection.FloorModUnique | main.py:107 | the floored remainder is determined by any decomposition `x = m * k + r` with whole `k` and `0 <= r < m` |
| Projection.MaintenanceSeries | main.py:107 | the maintenance comprehension yields exactly `h` rows |
| Projection.SalvageSeries | main.py:108 | the salvage comprehension yields exactly `h` rows |
| Projection.Months | main.py:94-101 | the monthly date range has one entry per month of the horizon |
| Projection.Project | main.py:103-126 | every column of the frame, the two cumulative ones included, has exactly `h` rows |
| Projection.ProjectFull | main.py:6-7 | the program's frame has 361 rows of cumulative cost per technology |
| Projection.LithiumTotals | main.py:121 | lithium's monthly totals have one row per month |
| Projection.LeadAcidTotals | main.py:122-126 | lead-acid's monthly totals have one row per month |
| Projection.CostsAreRunningTotals | main.py:121-126 | the two cumulative columns are the running totals of the two technologies' monthly totals |
| Projection.ColumnsPrefix | main.py:94-109 | every component column over `k <= h` months is the first `k` rows of the column over `h` months |
| Projection.TotalsPrefix | main.py:121-126 | truncating the components truncates the running totals of their monthly totals |
| Projection.ProjectPrefix | main.py:103-126 | the first `k` months of the projection do not depend on the horizon: every column over `k <= h` months is the first `k` rows of the column over `h` |
| Projection.PurchaseAtReplacements | main.py:104-106 | a purchase is non-zero exactly at multiples of `12 * lifespan`, is either the price or 0, and month 0 always records the price |
| Projection.PurchaseCount | main.py:104-106 | each technology is bought `(h - 1) / (12 * lifespan) + 1 = ceil(h / (12 * lifespan))` times in the first `h >= 1` months |
| Projection.PurchaseCountFullHorizon | main.py:6-7 | over 361 months a battery lasting `y` years is bought `30 / y + 1` times |
| Projection.SalvageAtLaterReplacements | main.py:108 | salvage is non-zero exactly at replacement months other than 0, is minus the waste value or 0, and is 0 at month 0 |
| Projection.SalvageSeriesCount | main.py:108 | a salvage column holds `(h - 1) / period` non-zero rows in its first `h >= 1` rows |
| Projection.SalvageCount | main.py:106-108 | there is exactly one salvage fewer than there are lead-acid purchases |
| Projection.MaintenanceExactReading | main.py:107 | the floored remainder of `n` by `t / 10 * 12` months is `((10 * n) % (12 * t)) / 10`, so it is zero exactly when `MaintenanceDue(t, n)` |
| Projection.MaintenanceWholeYears | main.py:107 | for an interval of `y` whole years, maintenance falls exactly at multiples of `12 * y` months |
| Projection.MaintenanceSchedule | main.py:107 | maintenance is non-zero exactly in maintenance months and is the lira cost divided by 28 there; a one-year interval gives months 0, 12, 24, ... |
| Projection.MaintenanceIndependentOfLifespan | main.py:107 | two inputs with the same maintenance interval and cost give the same maintenance column, whatever their lifespans |
| Projection.ElectricityConstant | main.py:103-109 | electricity is the same every month, `elec_price * elec_usage / 28` for lead-acid and that times `1 + adv_factor` for lithium, with `0 <` lithium's `<=` lead-acid's |
| Projection.ElectricityBounds | main.py:65-71 | within the widget bounds lithium's monthly electricity cost is positive and at most lead-acid's |
| Projection.MonthlyTotals | main.py:121-126 | in any frame whose columns are equally long, each month's total is the sum of two components for lithium and of four for lead-acid |
| Projection.CumulativeRecurrence | main.py:121-126 | `cum[0] = total[0]`, `cum[n] = cum[n - 1] + total[n]` for both technologies, and the last entry is the total over the horizon |
| Projection.LithiumNonDecreasing | main.py:121 | within the widget bounds lithium's cumulative cost never decreases |
| Projection.LeadAcidReplacementStep | main.py:106-109 | at a lead-acid replacement month `n > 0` the cumulative cost moves by the price minus the salvage value, plus electricity, plus the maintenance cost if maintenance falls in month `n` too |
| Projection.LeadAcidDipsAtSalvage | main.py:103-109 | lead-acid's cumulative cost falls in a month `n > 0` if and only if `n` is a replacement month and the salvage value exceeds price plus electricity plus, when maintenance is due in month `n`, the maintenance cost; in every other month it does not fall |
| Projection.DefaultInputs | main.py:16-92 | the widgets' initial values are within the widget bounds |
| Projection.HighSalvageInputs | main.py:43-47 | there are inputs within the bounds whose salvage value exceeds price, electricity and maintenance together |
| Projection.LeadAcidDipExample | main.py:106-109 | with those inputs (a salvage value of 1600 against a price of 1400) lead-acid's cumulative cost at month 48 is below that at month 47, over any horizon past month 48 |
| Projection.LeadAcidDipWithoutMaintenance | main.py:106-109 | with maintenance every 0.7 years and a salvage value of 1450, no maintenance is due at month 48 and the salvage value is below price, electricity and maintenance together, yet the cumulative cost still falls at month 48 |
| Projection.DefaultScenario | main.py:18-39 | with a 4-year lead-acid battery at 1400, yearly maintenance of 2000 lira and a horizon past month 48 (361 included): purchases at months 0 and 48 but not 47, and maintenance of 2000/28 at month 12 but not 6 |
| Display.Rows | main.py:128 | one technology's long-format block has one row per month |
| Display.Melt | main.py:128 | the long-format frame has two rows per month: all lithium rows, then all lead-acid rows |
| Display.MeltAt | main.py:128 | row `n` of each block holds month `n`'s date, the technology and its cumulative cost |
| Display.Before | main.py:132 | the date filter keeps no more rows than it is given |
| Display.BeforeMembers | main.py:132 | a row is kept exactly when it is among the given rows and dated before the bound |
| Display.BeforeConcat | main.py:132 | filtering a concatenation filters each part |
| Display.BeforeKeepsPrefix | main.py:132 | filtering one technology's dated rows keeps exactly its first `min(h, bound)` rows, unchanged |
| Display.ChartIsPrefix | main.py:132 | the filtered long-format frame is the melt of the projection over the first `min(h, bound)` months |
| Display.WindowRows | main.py:128-132 | a window of `w <= h` months shows `w` rows per technology, each with the full projection's cumulative cost for its month |
| Display.Chart | main.py:132 | the charted rows are at most two per month of the 361-month horizon |
| Display.ChartRows | main.py:87-92 | within the widget bounds the chart holds exactly `12 * projection_time` rows per technology, with the full projection's values |
| Display.BeforeNested | main.py:132 | filtering to a smaller bound after a larger one equals filtering to the smaller bound |
| Display.WindowsNest | main.py:132 | filtering a longer window's chart down to a shorter window gives the shorter window's chart |

## Left out

- The Streamlit widgets and page layout (main.py:11-92). Only their ranges are kept, as `WidgetBounds`, and their initial values, as `DefaultInputs`.
- The Altair chart, its mouseover selection and its theme (main.py:130-141). Only the filter it is given is modelled.
- `datetime.today()` and the `datetime_range` calendar stepping (main.py:8, 94-101). Dates are month offsets from an abstract start. Two consequences are not modelled: day-of-month clamping, and `replace(year=...)` failing when the start date is 29 February and the target year is not a leap year.
- Floating-point rounding throughout, including `1/28` and all the costs. Money is exact.
- Floating-point rounding in the maintenance test `n % (interval * 12) == 0` (main.py:107). For example, `0.1 * 12` is not exactly `1.2` in binary floating point, so which months the program really matches depends on rounding. The model uses the exact reading in tenths of a year.
- Maintenance intervals that are not a whole number of tenths of a year. The widget steps by 0.1, but a typed value could have more decimals.
- The library calls `sum_horizontal`, `cumsum` and `melt` are modelled by what they compute. Their null handling and column types are not modelled.
