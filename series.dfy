/** Column arithmetic used by the cost projection: constant and recurring
    columns, row-wise sums of several columns and running totals, over columns
    of monetary amounts, written as exact functions over `seq<real>`. */
module Series {

  /** A column holding the same amount in each of its `h` rows. */
  function Constant(h: nat, v: real): (s: seq<real>)
    ensures |s| == h
  {
    seq(h, _ => v)
  }

  /** A column of `h` rows holding `amount` in every row whose index is a
      multiple of `period`, starting at row 0, and zero elsewhere. */
  function Recurring(h: nat, period: nat, amount: real): (s: seq<real>)
    requires period > 0
    ensures |s| == h
  {
    seq(h, n => if n % period == 0 then amount else 0.0)
  }

  /** Row-wise sum of two columns of equal length. */
  function Add(a: seq<real>, b: seq<real>): (r: seq<real>)
    requires |a| == |b|
    ensures |r| == |a|
  {
    seq(|a|, n requires 0 <= n < |a| => a[n] + b[n])
  }

  /** The sum of a sequence of amounts, taken from the front. */
  function Sum(s: seq<real>): (t: real)
  {
    if s == [] then 0.0 else s[0] + Sum(s[1..])
  }

  /** Row `n` of a list of columns: the `n`-th entry of each column, in order. */
  function RowAt(cols: seq<seq<real>>, n: nat): (row: seq<real>)
    requires forall c :: c in cols ==> n < |c|
    ensures |row| == |cols|
  {
    seq(|cols|, k requires 0 <= k < |cols| => cols[k][n])
  }

  /** `sum_horizontal`: the row-wise sum of equally long columns, folded column
      by column; every row of the result is the sum of that row's entries. */
  function SumHorizontal(cols: seq<seq<real>>, h: nat): (r: seq<real>)
    requires forall c :: c in cols ==> |c| == h
    ensures |r| == h
    ensures forall n :: 0 <= n < h ==> r[n] == Sum(RowAt(cols, n))
  {
    if cols == [] then Constant(h, 0.0)
    else
      var rest := SumHorizontal(cols[1..], h);
      var r := Add(cols[0], rest);
      assert forall n :: 0 <= n < h ==> RowAt(cols, n)[1..] == RowAt(cols[1..], n);
      r
  }

  /** `cumsum`: the running total of a column. Row 0 is the first amount and
      every later row adds that row's amount to the previous running total. */
  function RunningTotal(s: seq<real>): (c: seq<real>)
    ensures |c| == |s|
    ensures |s| > 0 ==> c[0] == s[0]
    ensures forall n :: 0 < n < |s| ==> c[n] == c[n - 1] + s[n]
  {
    if |s| == 0 then []
    else
      var p := RunningTotal(s[..|s| - 1]);
      var last := if |p| == 0 then 0.0 else p[|p| - 1];
      p + [last + s[|s| - 1]]
  }

  /** The number of rows of a column that hold a non-zero amount. */
  function Occurrences(s: seq<real>): (k: nat)
    ensures k <= |s|
  {
    if |s| == 0 then 0
    else Occurrences(s[..|s| - 1]) + (if s[|s| - 1] != 0.0 then 1 else 0)
  }

  lemma {:induction false} SumAppend(s: seq<real>, x: real)
    ensures Sum(s + [x]) == Sum(s) + x
  {
    if s == [] {
      assert [x][1..] == [];
    } else {
      assert (s + [x])[1..] == s[1..] + [x];
      SumAppend(s[1..], x);
    }
  }

  /** Each running total is the sum of the column up to and including its row. */
  lemma {:induction false} RunningTotalIsPrefixSum(s: seq<real>, n: nat)
    requires n < |s|
    ensures RunningTotal(s)[n] == Sum(s[..n + 1])
  {
    if n == 0 {
      assert s[..1] == [s[0]];
      assert [s[0]][1..] == [];
    } else {
      RunningTotalIsPrefixSum(s, n - 1);
      assert s[..n + 1] == s[..n] + [s[n]];
      SumAppend(s[..n], s[n]);
    }
  }

  /** The last running total is the total of the whole column. */
  lemma RunningTotalLast(s: seq<real>)
    requires |s| > 0
    ensures RunningTotal(s)[|s| - 1] == Sum(s)
  {
    RunningTotalIsPrefixSum(s, |s| - 1);
    assert s[..|s|] == s;
  }

  /** Accumulating a prefix of a column gives the prefix of its accumulation:
      truncating after `cumsum` never changes a value that is kept. */
  lemma {:induction false} RunningTotalPrefix(s: seq<real>, k: nat)
    requires k <= |s|
    ensures RunningTotal(s[..k]) == RunningTotal(s)[..k]
  {
    if k == |s| {
      assert s[..k] == s;
    } else {
      var init := s[..|s| - 1];
      RunningTotalPrefix(init, k);
      assert init[..k] == s[..k];
    }
  }

  /** A column of non-negative amounts has a non-decreasing running total. */
  lemma {:induction false} RunningTotalNonDecreasing(s: seq<real>, i: nat, j: nat)
    requires forall n :: 0 <= n < |s| ==> s[n] >= 0.0
    requires i <= j < |s|
    ensures RunningTotal(s)[i] <= RunningTotal(s)[j]
  {
    if i < j {
      RunningTotalNonDecreasing(s, i, j - 1);
    }
  }

  /** `sum_horizontal` of two columns adds them row by row. */
  lemma SumHorizontalTwo(a: seq<real>, b: seq<real>, h: nat, n: nat)
    requires |a| == h && |b| == h && n < h
    ensures SumHorizontal([a, b], h)[n] == a[n] + b[n]
  {
    var row := RowAt([a, b], n);
    assert row == [a[n], b[n]];
    assert row[1..] == [b[n]] && row[1..][1..] == [];
  }

  /** `sum_horizontal` of four columns adds them row by row. */
  lemma SumHorizontalFour(a: seq<real>, b: seq<real>, c: seq<real>, d: seq<real>, h: nat, n: nat)
    requires |a| == h && |b| == h && |c| == h && |d| == h && n < h
    ensures SumHorizontal([a, b, c, d], h)[n] == a[n] + b[n] + c[n] + d[n]
  {
    var row := RowAt([a, b, c, d], n);
    assert row == [a[n], b[n], c[n], d[n]];
    assert row[1..] == [b[n], c[n], d[n]];
    assert row[1..][1..] == [c[n], d[n]];
    assert row[1..][1..][1..] == [d[n]];
    assert row[1..][1..][1..][1..] == [];
    assert Sum(row[1..][1..][1..]) == d[n];
    assert Sum(row[1..][1..]) == c[n] + d[n];
    assert Sum(row[1..]) == b[n] + c[n] + d[n];
  }

  /** `sum_horizontal` of the first `k` rows of each column is the first `k`
      rows of the full `sum_horizontal`. */
  lemma SumHorizontalPrefix(cols: seq<seq<real>>, short: seq<seq<real>>, h: nat, k: nat)
    requires k <= h && |short| == |cols|
    requires forall c :: c in cols ==> |c| == h
    requires forall i :: 0 <= i < |cols| ==> short[i] == cols[i][..k]
    ensures SumHorizontal(short, k) == SumHorizontal(cols, h)[..k]
  {
    assert forall c :: c in short ==> |c| == k;
    forall n | 0 <= n < k
      ensures SumHorizontal(short, k)[n] == SumHorizontal(cols, h)[n]
    {
      assert RowAt(short, n) == RowAt(cols, n);
    }
  }

  /** Integer division and remainder are determined by any decomposition
      `a == d * q + r` with `0 <= r < d`. */
  lemma DivModUnique(a: int, d: int, q: int, r: int)
    requires d > 0 && 0 <= r < d && a == d * q + r
    ensures a / d == q && a % d == r
  {
    var q', r' := a / d, a % d;
    assert a == d * q' + r' && 0 <= r' < d;
    assert d * (q' - q) == r - r' by {
      assert d * q' - d * q == d * (q' - q);
    }
    if q' - q >= 1 {
      MulAtLeast(d, q' - q);
    } else if q - q' >= 1 {
      MulAtLeast(d, q - q');
    }
  }

  lemma MulAtLeast(d: int, k: int)
    requires d > 0 && k >= 1
    ensures d * k >= d
  {
    assert d * k == d + d * (k - 1);
    assert d * (k - 1) >= 0;
  }

  /** Stepping from `m - 1` to `m` raises `m / p` exactly when `m` is a multiple of `p`. */
  lemma DivStep(m: nat, p: nat)
    requires m >= 1 && p >= 1
    ensures m / p == (m - 1) / p + (if m % p == 0 then 1 else 0)
  {
    var q, r := (m - 1) / p, (m - 1) % p;
    if r == p - 1 {
      DivModUnique(m, p, q + 1, 0);
    } else {
      DivModUnique(m, p, q, r + 1);
    }
  }

  /** A column recurring every `period` rows holds `(h - 1) / period + 1`
      non-zero rows in its first `h >= 1` rows, that is `ceil(h / period)`. */
  lemma RecurringCount(h: nat, period: nat, amount: real)
    requires period > 0 && h >= 1 && amount != 0.0
    ensures Occurrences(Recurring(h, period, amount)) == (h - 1) / period + 1
    ensures Occurrences(Recurring(h, period, amount)) == (h + period - 1) / period
  {
    RecurringCountStep(h, period, amount);
    DivModUnique(h + period - 1, period, (h - 1) / period + 1, (h - 1) % period);
  }

  lemma {:induction false} RecurringCountStep(h: nat, period: nat, amount: real)
    requires period > 0 && h >= 1 && amount != 0.0
    ensures Occurrences(Recurring(h, period, amount)) == (h - 1) / period + 1
  {
    var s := Recurring(h, period, amount);
    if h == 1 {
      assert s[..0] == [];
      assert s[0] == amount;
    } else {
      var prev := Recurring(h - 1, period, amount);
      RecurringCountStep(h - 1, period, amount);
      assert s[..h - 1] == prev;
      assert Occurrences(s) == Occurrences(prev) + (if s[h - 1] != 0.0 then 1 else 0);
      assert (s[h - 1] != 0.0) == ((h - 1) % period == 0);
      DivStep(h - 1, period);
    }
  }
}
