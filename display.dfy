/** What the chart is given: the two cumulative cost columns in long format,
    keeping the rows dated before the end of the chosen projection window. A
    row's date is its month offset from the start date, so "before the start
    date plus `y` years" is "month offset below `12 * y`". */
module Display {
  import opened Series
  import opened Projection

  datatype Technology = Lithium | LeadAcid

  /** One row of the long-format frame: date, series name, cumulative cost. */
  datatype Row = Row(month: nat, variable: Technology, value: real)

  /** One technology's rows, in date order. */
  function Rows(months: seq<nat>, v: Technology, values: seq<real>): (rows: seq<Row>)
    requires |months| == |values|
    ensures |rows| == |values|
  {
    seq(|values|, i requires 0 <= i < |values| => Row(months[i], v, values[i]))
  }

  /** The long-format stacking of the two cumulative cost columns, keyed by
      date: all lithium rows, then all lead-acid rows. */
  function Melt(f: Frame): (rows: seq<Row>)
    requires |f.lithiumCosts| == |f.months| && |f.lacidCosts| == |f.months|
    ensures |rows| == 2 * |f.months|
  {
    Rows(f.months, Lithium, f.lithiumCosts) + Rows(f.months, LeadAcid, f.lacidCosts)
  }

  /** The rows dated before month `bound`, in their original order. */
  function Before(rows: seq<Row>, bound: nat): (kept: seq<Row>)
    ensures |kept| <= |rows|
  {
    if rows == [] then []
    else (if rows[0].month < bound then [rows[0]] else []) + Before(rows[1..], bound)
  }

  /** A row is kept exactly when it is among the rows and dated before `bound`. */
  lemma {:induction false} BeforeMembers(rows: seq<Row>, bound: nat, r: Row)
    ensures r in Before(rows, bound) <==> r in rows && r.month < bound
  {
    if rows != [] {
      BeforeMembers(rows[1..], bound, r);
      assert rows == [rows[0]] + rows[1..];
    }
  }

  /** The rows the chart draws for the inputs `p`. */
  function Chart(p: Inputs): (rows: seq<Row>)
    requires WidgetBounds(p)
    ensures |rows| <= 2 * MaxMo
  {
    Before(Melt(ProjectFull(p)), 12 * p.projectionTime)
  }

  lemma {:induction false} BeforeConcat(a: seq<Row>, b: seq<Row>, bound: nat)
    ensures Before(a + b, bound) == Before(a, bound) + Before(b, bound)
  {
    if a != [] {
      assert (a + b)[1..] == a[1..] + b;
      BeforeConcat(a[1..], b, bound);
    } else {
      assert a + b == b;
    }
  }

  /** Filtering one technology's dated rows keeps exactly its first
      `min(h, bound)` rows, with their values unchanged. */
  lemma {:induction false} BeforeKeepsPrefix(h: nat, v: Technology, s: seq<real>, bound: nat)
    requires |s| == h
    ensures var k := if h <= bound then h else bound;
      Before(Rows(Months(h), v, s), bound) == Rows(Months(k), v, s[..k])
  {
    if h == 0 {
      assert s[..0] == [];
    } else {
      var init := Rows(Months(h - 1), v, s[..h - 1]);
      var last := Row(h - 1, v, s[h - 1]);
      assert Rows(Months(h), v, s) == init + [last] by {
        assert Months(h)[..h - 1] == Months(h - 1);
      }
      BeforeConcat(init, [last], bound);
      BeforeKeepsPrefix(h - 1, v, s[..h - 1], bound);
      assert Before([last], bound) == if h - 1 < bound then [last] else [] by {
        assert [last][1..] == [];
      }
      if h <= bound {
        assert s[..h - 1][..h - 1] == s[..h - 1];
        assert s[..h] == s;
      } else {
        assert s[..h - 1][..bound] == s[..bound];
      }
    }
  }

  /** Keeping the rows dated before month `bound` leaves the projection over
      the first `min(h, bound)` months: filtering truncates the tail and
      changes no value that is kept. */
  lemma ChartIsPrefix(p: Inputs, h: nat, bound: nat)
    requires WidgetBounds(p)
    ensures var k := if h <= bound then h else bound;
      Before(Melt(Project(p, h)), bound) == Melt(Project(p, k))
  {
    var f := Project(p, h);
    var k := if h <= bound then h else bound;
    ProjectPrefix(p, h, k);
    BeforeConcat(Rows(f.months, Lithium, f.lithiumCosts), Rows(f.months, LeadAcid, f.lacidCosts), bound);
    BeforeKeepsPrefix(h, Lithium, f.lithiumCosts, bound);
    BeforeKeepsPrefix(h, LeadAcid, f.lacidCosts, bound);
  }

  /** When the window of `w` months ends inside the horizon of `h` months, the
      filtered rows are `w` rows per technology, each carrying the cumulative
      cost the full projection has for its month. */
  lemma WindowRows(p: Inputs, h: nat, w: nat, n: nat)
    requires WidgetBounds(p) && w <= h && n < w
    ensures var f, shown := Project(p, h), Melt(Project(p, w));
      && Before(Melt(f), w) == shown
      && |shown| == 2 * w
      && shown[n] == Row(n, Lithium, f.lithiumCosts[n])
      && shown[w + n] == Row(n, LeadAcid, f.lacidCosts[n])
  {
    var f, g := Project(p, h), Project(p, w);
    ChartIsPrefix(p, h, w);
    ProjectPrefix(p, h, w);
    MeltAt(g, n);
    assert g.months[n] == n;
  }

  /** Row `n` of each technology's block of the long-format frame. */
  lemma MeltAt(f: Frame, n: nat)
    requires |f.lithiumCosts| == |f.months| && |f.lacidCosts| == |f.months| && n < |f.months|
    ensures Melt(f)[n] == Row(f.months[n], Lithium, f.lithiumCosts[n])
    ensures Melt(f)[|f.months| + n] == Row(f.months[n], LeadAcid, f.lacidCosts[n])
  {
  }

  /** Within the widget bounds the window of `projection_time` years ends
      inside the 361-month horizon, so the chart holds `12 * projection_time`
      rows per technology with the full projection's values. */
  lemma ChartRows(p: Inputs, n: nat)
    requires WidgetBounds(p) && n < 12 * p.projectionTime
    ensures var f, rows, w := ProjectFull(p), Chart(p), 12 * p.projectionTime;
      && |rows| == 2 * w
      && rows[n] == Row(n, Lithium, f.lithiumCosts[n])
      && rows[w + n] == Row(n, LeadAcid, f.lacidCosts[n])
  {
    WindowRows(p, MaxMo, 12 * p.projectionTime, n);
  }

  /** Filtering to a smaller window after a larger one is the same as
      filtering to the smaller window directly. */
  lemma {:induction false} BeforeNested(rows: seq<Row>, small: nat, large: nat)
    requires small <= large
    ensures Before(Before(rows, large), small) == Before(rows, small)
  {
    if rows != [] {
      BeforeNested(rows[1..], small, large);
      var head := if rows[0].month < large then [rows[0]] else [];
      BeforeConcat(head, Before(rows[1..], large), small);
      if rows[0].month < large {
        assert [rows[0]][1..] == [];
      }
    }
  }

  /** Filtering the chart of a longer window down to a shorter one gives the
      chart of the shorter window. */
  lemma WindowsNest(p: Inputs, small: nat, large: nat)
    requires WidgetBounds(p) && small <= large
    ensures var f := Project(p, MaxMo);
      Before(Before(Melt(f), 12 * large), 12 * small) == Before(Melt(f), 12 * small)
  {
    BeforeNested(Melt(Project(p, MaxMo)), 12 * small, 12 * large);
  }
}
