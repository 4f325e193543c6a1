/** The histogram path of the dashboard (process_data_optimized). Every
    salary text is split on '-'. Each of the first two pieces keeps only its
    ASCII digits and is read as a number. A row's average is the mean of the
    sides that are present. Rows whose average lies outside the outlier
    fences Q1 - 1.5 * IQR .. Q3 + 1.5 * IQR are dropped.

    Numbers are `real`: float rounding is not modelled. A missing value (NaN)
    is None. */
module ProcessData {
  import opened Wrappers
  import opened Text
  import opened Counting

  /** A row of the postings frame as this path sees it: the salary text (None
      for NaN) and the three columns the path writes. */
  datatype SalaryRow = SalaryRow(
    salary: Option<string>,
    lowerBound: Option<real>,
    upperBound: Option<real>,
    avgSalary: Option<real>)

  // ------------------------------------------------------------ the sides

  /** float() of one piece once every non-digit is removed: the number its
      digits spell, in order. A piece without any digit leaves "", which
      float() rejects. */
  function SideValue(piece: string): (r: Result<real>)
    ensures r.Err? <==> NoDigits(piece)
    ensures r.Err? ==> r.error == ValueError
    ensures r.Ok? ==> r.value == DigitsValue(KeepDigits(piece)) as real >= 0.0
  {
    var d := KeepDigits(piece);
    KeepDigitsMembers(piece);
    if d == [] then
      assert NoDigits(piece) by {
        forall i | 0 <= i < |piece| ensures !IsDigit(piece[i]) {
          assert piece[i] !in d;
        }
      }
      Err(ValueError)
    else
      assert d[0] in piece;
      Ok(DigitsValue(d) as real)
  }

  /** The lower_bound cell of a row: piece 0 of the split, the text before
      the first '-', read by SideValue; NaN for a NaN salary. The whole
      column fails when that piece has no digit. */
  function LowerSide(salary: Option<string>): (r: Result<Option<real>>)
    ensures salary.None? ==> r == Ok(None)
    ensures salary.Some? ==> (r.Err? <==> NoDigits(Split(salary.value, '-')[0]))
    ensures r.Err? ==> r.error == ValueError
    ensures salary.Some? && r.Ok? ==>
      r.value == Some(DigitsValue(KeepDigits(Split(salary.value, '-')[0])) as real)
  {
    match salary
    case None => Ok(None)
    case Some(s) =>
      match SideValue(Split(s, '-')[0])
      case Err(e) => Err(e)
      case Ok(v) => Ok(Some(v))
  }

  /** The upper_bound cell of a row: piece 1 of the split, the text between
      the first and the second '-', read by SideValue; NaN for a NaN salary
      and for a text without '-'. Pieces after the second are ignored. */
  function UpperSide(salary: Option<string>): (r: Result<Option<real>>)
    ensures salary.None? || '-' !in salary.value ==> r == Ok(None)
    ensures salary.Some? && '-' in salary.value ==> |Split(salary.value, '-')| >= 2
    ensures salary.Some? && |Split(salary.value, '-')| >= 2 ==>
      && (r.Err? <==> NoDigits(Split(salary.value, '-')[1]))
      && (r.Ok? ==> r.value == Some(DigitsValue(KeepDigits(Split(salary.value, '-')[1])) as real))
    ensures r.Err? ==> r.error == ValueError
  {
    match salary
    case None => Ok(None)
    case Some(s) =>
      var parts := Split(s, '-');
      OccurrencesPositive(s, '-');
      if |parts| < 2 then Ok(None)
      else
        match SideValue(parts[1])
        case Err(e) => Err(e)
        case Ok(v) => Ok(Some(v))
  }

  /** A whole column converted row by row: astype(float) fails for the
      column as soon as one row fails. */
  function ColumnOf(rows: seq<SalaryRow>, side: Option<string> -> Result<Option<real>>): (r: Result<seq<Option<real>>>)
    ensures r.Ok? <==> forall i :: 0 <= i < |rows| ==> side(rows[i].salary).Ok?
    ensures r.Ok? ==> |r.value| == |rows|
    ensures r.Ok? ==> forall i :: 0 <= i < |rows| ==> side(rows[i].salary) == Ok(r.value[i])
    ensures r.Err? ==> exists i :: 0 <= i < |rows| && side(rows[i].salary) == Err(r.error)
  {
    if rows == [] then Ok([])
    else
      match side(rows[0].salary)
      case Err(e) => Err(e)
      case Ok(v) =>
        match ColumnOf(rows[1..], side)
        case Err(e) =>
          assert forall i :: 1 <= i < |rows| ==> rows[1..][i - 1] == rows[i];
          Err(e)
        case Ok(vs) =>
          assert forall i :: 1 <= i < |rows| ==> rows[1..][i - 1] == rows[i];
          Ok([v] + vs)
  }

  /** split(expand=True) has a column 1 only when some salary text contains
      '-'; otherwise split_salaries[1] raises KeyError. */
  predicate HasUpperColumn(rows: seq<SalaryRow>) {
    exists i :: 0 <= i < |rows| && rows[i].salary.Some? && '-' in rows[i].salary.value
  }

  /** mean(axis=1) of the two bound cells: a NaN side is skipped, and two
      NaN sides give NaN. */
  function RowMean(lower: Option<real>, upper: Option<real>): (r: Option<real>)
    ensures r.None? <==> lower.None? && upper.None?
    ensures lower.Some? && upper.None? ==> r == lower
    ensures lower.None? && upper.Some? ==> r == upper
    ensures lower.Some? && upper.Some? ==> r.Some? && r.value - lower.value == upper.value - r.value
  {
    match (lower, upper)
    case (Some(a), Some(b)) => Some((a + b) / 2.0)
    case (Some(a), None) => Some(a)
    case (None, Some(b)) => Some(b)
    case (None, None) => None
  }

  /** The frame after df.loc[:, 'lower_bound'] = col. */
  function WithLower(rows: seq<SalaryRow>, col: seq<Option<real>>): (r: seq<SalaryRow>)
    requires |col| == |rows|
    ensures |r| == |rows|
    ensures forall i :: 0 <= i < |rows| ==> r[i] == rows[i].(lowerBound := col[i])
  {
    seq(|rows|, i requires 0 <= i < |rows| => rows[i].(lowerBound := col[i]))
  }

  /** The frame after the upper_bound column is col and avg_salary is the
      row mean of the two bounds. */
  function WithAverages(rows: seq<SalaryRow>, col: seq<Option<real>>): (r: seq<SalaryRow>)
    requires |col| == |rows|
    ensures |r| == |rows|
    ensures forall i :: 0 <= i < |rows| ==>
      r[i] == rows[i].(upperBound := col[i], avgSalary := RowMean(rows[i].lowerBound, col[i]))
  {
    seq(|rows|, i requires 0 <= i < |rows| =>
      rows[i].(upperBound := col[i], avgSalary := RowMean(rows[i].lowerBound, col[i])))
  }

  // ------------------------------------------------------------ quantiles

  /** The avg_salary column. */
  function AvgColumn(rows: seq<SalaryRow>): seq<Option<real>> {
    seq(|rows|, i requires 0 <= i < |rows| => rows[i].avgSalary)
  }

  /** The averages that are not NaN, in row order: what quantile() sees. */
  function Averages(rows: seq<SalaryRow>): (r: seq<real>)
    ensures |r| <= |rows|
    ensures forall i :: 0 <= i < |rows| && rows[i].avgSalary.Some? ==> rows[i].avgSalary.value in r
    ensures forall x :: x in r ==> exists i :: 0 <= i < |rows| && rows[i].avgSalary == Some(x)
  {
    var col := AvgColumn(rows);
    assert forall i :: 0 <= i < |rows| ==> col[i] == rows[i].avgSalary;
    Present(col)
  }

  /** Every average is seen by quantile() as often as rows carry it. */
  lemma AveragesCount(rows: seq<SalaryRow>, x: real)
    ensures Count(Averages(rows), x) == Count(AvgColumn(rows), Some(x))
  {
    PresentCount(AvgColumn(rows), x);
  }

  /** quantile() sees every row but the NaN ones. */
  lemma AveragesLength(rows: seq<SalaryRow>)
    ensures |Averages(rows)| + Count(AvgColumn(rows), None) == |rows|
  {
    PresentLength(AvgColumn(rows));
  }

  /** The averages of a concatenation come part by part, in row order. */
  lemma AveragesAppend(a: seq<SalaryRow>, b: seq<SalaryRow>)
    ensures Averages(a + b) == Averages(a) + Averages(b)
  {
    assert AvgColumn(a + b) == AvgColumn(a) + AvgColumn(b);
    PresentAppend(AvgColumn(a), AvgColumn(b));
  }

  predicate Sorted(v: seq<real>) {
    forall i, j :: 0 <= i < j < |v| ==> v[i] <= v[j]
  }

  /** x placed before the first element of v that is not below it. */
  function Insert(x: real, v: seq<real>): (r: seq<real>)
    ensures |r| == |v| + 1
  {
    if v == [] || x <= v[0] then [x] + v
    else [v[0]] + Insert(x, v[1..])
  }

  /** Inserting adds x and keeps every element of v. */
  lemma {:induction false} InsertPermutes(x: real, v: seq<real>)
    ensures multiset(Insert(x, v)) == multiset(v) + multiset{x}
  {
    if v != [] && x > v[0] {
      InsertPermutes(x, v[1..]);
      assert v == [v[0]] + v[1..];
    }
  }

  /** Every element of Insert(x, v) is at least lo when x and those of v are. */
  lemma {:induction false} InsertAbove(x: real, v: seq<real>, lo: real)
    requires lo <= x && forall i :: 0 <= i < |v| ==> lo <= v[i]
    ensures forall k :: 0 <= k < |Insert(x, v)| ==> lo <= Insert(x, v)[k]
  {
    if v != [] && x > v[0] {
      InsertAbove(x, v[1..], lo);
      var r := Insert(x, v);
      forall k | 0 <= k < |r| ensures lo <= r[k] {
        if k > 0 {
          assert r[k] == Insert(x, v[1..])[k - 1];
        }
      }
    }
  }

  /** Inserting into sorted values keeps them sorted. */
  lemma {:induction false} InsertSorted(x: real, v: seq<real>)
    requires Sorted(v)
    ensures Sorted(Insert(x, v))
  {
    if v != [] && x > v[0] {
      var tail := Insert(x, v[1..]);
      InsertSorted(x, v[1..]);
      InsertAbove(x, v[1..], v[0]);
      var r := Insert(x, v);
      assert r == [v[0]] + tail;
      forall i, j | 0 <= i < j < |r| ensures r[i] <= r[j] {
        assert r[j] == tail[j - 1];
        if i > 0 {
          assert r[i] == tail[i - 1];
        }
      }
    }
  }

  /** The values in ascending order (insertion sort). */
  function SortValues(v: seq<real>): (r: seq<real>)
    ensures Sorted(r)
    ensures |r| == |v|
  {
    if v == [] then []
    else
      var rest := SortValues(v[1..]);
      InsertSorted(v[0], rest);
      Insert(v[0], rest)
  }

  /** Sorting permutes the values. */
  lemma {:induction false} SortPermutes(v: seq<real>)
    ensures multiset(SortValues(v)) == multiset(v)
  {
    if v != [] {
      SortPermutes(v[1..]);
      InsertPermutes(v[0], SortValues(v[1..]));
      assert v == [v[0]] + v[1..];
    }
  }

  /** Sorting sorted values changes nothing. */
  lemma {:induction false} SortSorted(v: seq<real>)
    requires Sorted(v)
    ensures SortValues(v) == v
  {
    if v != [] {
      SortSorted(v[1..]);
      assert v == [v[0]] + v[1..];
    }
  }

  /** The product of two non-negative numbers is non-negative. */
  lemma NonNegProduct(d: real, f: real)
    requires d >= 0.0 && f >= 0.0
    ensures d * f >= 0.0
  {
  }

  /** a + (b - a) * f lies between a and b for a fraction f in [0, 1]. */
  lemma Interpolate(a: real, b: real, f: real)
    requires a <= b && 0.0 <= f <= 1.0
    ensures a <= a + (b - a) * f <= b
  {
    NonNegProduct(b - a, f);
    NonNegProduct(b - a, 1.0 - f);
    assert (b - a) * 1.0 - (b - a) * f == (b - a) * (1.0 - f);
  }

  /** Weighting a distance by a bigger fraction never gives less. */
  lemma Scale(d: real, f: real, g: real)
    requires d >= 0.0 && 0.0 <= f <= g
    ensures d * f <= d * g
  {
    NonNegProduct(d, g - f);
    assert d * g - d * f == d * (g - f);
  }

  /** Moving further along the segment from a to b never goes back. */
  lemma InterpolateMonotone(a: real, b: real, f: real, g: real)
    requires a <= b && 0.0 <= f <= g
    ensures a + (b - a) * f <= a + (b - a) * g
  {
    Scale(b - a, f, g);
  }

  lemma FloorMonotone(a: real, b: real)
    requires a <= b
    ensures a.Floor <= b.Floor
  {
    assert a.Floor as real <= a && b < b.Floor as real + 1.0;
  }

  /** numpy's linear interpolation at a fractional position of the sorted
      values: the value at the floor lo of pos, moved towards the next value
      by the fractional part of pos. */
  function ValueAt(v: seq<real>, pos: real): (q: real)
    requires Sorted(v) && 0.0 <= pos <= (|v| - 1) as real
    ensures v[pos.Floor] <= q
    ensures pos.Floor + 1 < |v| ==> q <= v[pos.Floor + 1]
    ensures pos.Floor + 1 >= |v| ==> q == v[pos.Floor]
  {
    var lo := pos.Floor;
    if lo + 1 < |v| then
      Interpolate(v[lo], v[lo + 1], pos - lo as real);
      v[lo] + (v[lo + 1] - v[lo]) * (pos - lo as real)
    else v[lo]
  }

  /** Interpolation is monotone in the position. */
  lemma ValueAtMonotone(v: seq<real>, pos: real, pos': real)
    requires Sorted(v) && 0.0 <= pos <= pos' <= (|v| - 1) as real
    ensures ValueAt(v, pos) <= ValueAt(v, pos')
  {
    var lo, lo' := pos.Floor, pos'.Floor;
    FloorMonotone(pos, pos');
    if lo == lo' && lo + 1 < |v| {
      InterpolateMonotone(v[lo], v[lo + 1], pos - lo as real, pos' - lo as real);
    } else if lo < lo' {
      assert v[lo + 1] <= v[lo'];
    }
  }

  /** The position of the p-quantile among n sorted values: (n - 1) * p. */
  function Position(n: nat, p: real): (pos: real)
    requires n > 0 && 0.0 <= p <= 1.0
    ensures 0.0 <= pos <= (n - 1) as real
  {
    Interpolate(0.0, (n - 1) as real, p);
    (n - 1) as real * p
  }

  lemma PositionMonotone(n: nat, p: real, p': real)
    requires n > 0 && 0.0 <= p <= p' <= 1.0
    ensures Position(n, p) <= Position(n, p')
  {
    Scale((n - 1) as real, p, p');
  }

  /** Series.quantile(p) with linear interpolation, on the sorted values. */
  function Quantile(v: seq<real>, p: real): (q: real)
    requires |v| > 0 && Sorted(v) && 0.0 <= p <= 1.0
    ensures v[0] <= q <= v[|v| - 1]
  {
    var pos := Position(|v|, p);
    ValueAtMonotone(v, 0.0, pos);
    ValueAtMonotone(v, pos, (|v| - 1) as real);
    assert (0.0).Floor == 0 && ((|v| - 1) as real).Floor == |v| - 1;
    ValueAt(v, pos)
  }

  /** A higher quantile is never smaller. */
  lemma QuantileMonotone(v: seq<real>, p: real, p': real)
    requires |v| > 0 && Sorted(v) && 0.0 <= p <= p' <= 1.0
    ensures Quantile(v, p) <= Quantile(v, p')
  {
    PositionMonotone(|v|, p, p');
    ValueAtMonotone(v, Position(|v|, p), Position(|v|, p'));
  }

  /** Q1 and Q3 of non-empty values. */
  function Quartiles(values: seq<real>): (r: (real, real))
    requires values != []
    ensures r.0 <= r.1
  {
    var s := SortValues(values);
    QuantileMonotone(s, 0.25, 0.75);
    (Quantile(s, 0.25), Quantile(s, 0.75))
  }

  /** The outlier fences Q1 - 1.5 * IQR and Q3 + 1.5 * IQR; without any
      value the quartiles are NaN and so are the fences (None). */
  function Fences(values: seq<real>): (r: Option<(real, real)>)
    ensures r.None? <==> values == []
    ensures r.Some? ==> r.value.0 <= Quartiles(values).0 <= Quartiles(values).1 <= r.value.1
  {
    if values == [] then None
    else
      var (q1, q3) := Quartiles(values);
      Some((q1 - 1.5 * (q3 - q1), q3 + 1.5 * (q3 - q1)))
  }

  // ------------------------------------------------------------ the filter

  /** The row mask: the average is present and within the fences. Every
      comparison with NaN is False. */
  predicate WithinFences(row: SalaryRow, fences: Option<(real, real)>) {
    && fences.Some? && row.avgSalary.Some?
    && fences.value.0 <= row.avgSalary.value <= fences.value.1
  }

  /** df[(avg >= lower) & (avg <= upper)]: the rows within the fences of the
      frame's own averages, in their original order. */
  function OutliersRemoved(rows: seq<SalaryRow>): (r: seq<SalaryRow>)
    ensures r == Filter(rows, row => WithinFences(row, Fences(Averages(rows))))
    ensures forall i :: 0 <= i < |r| ==> r[i] in rows && WithinFences(r[i], Fences(Averages(rows)))
    ensures forall i :: 0 <= i < |rows| && WithinFences(rows[i], Fences(Averages(rows))) ==> rows[i] in r
    ensures forall i :: 0 <= i < |r| ==> r[i].avgSalary.Some?
  {
    Filter(rows, row => WithinFences(row, Fences(Averages(rows))))
  }

  /** The filter keeps every copy of a row within the fences and no copy of
      any other row. */
  lemma OutliersCount(rows: seq<SalaryRow>, row: SalaryRow)
    ensures Count(OutliersRemoved(rows), row) ==
      if WithinFences(row, Fences(Averages(rows))) then Count(rows, row) else 0
  {
    FilterCount(rows, row => WithinFences(row, Fences(Averages(rows))), row);
  }

  /** The kept rows keep frame order: filtering a frame made of two parts
      keeps the first part's survivors ahead of the second's. */
  lemma OutliersOrder(a: seq<SalaryRow>, b: seq<SalaryRow>)
    ensures OutliersRemoved(a + b) ==
      Filter(a, row => WithinFences(row, Fences(Averages(a + b))))
      + Filter(b, row => WithinFences(row, Fences(Averages(a + b))))
  {
    FilterAppend(a, b, row => WithinFences(row, Fences(Averages(a + b))));
  }

  /** The interquartile rows always survive: an average between Q1 and Q3
      lies within the fences. */
  lemma MiddleKept(rows: seq<SalaryRow>, i: nat)
    requires i < |rows| && rows[i].avgSalary.Some?
    requires Averages(rows) != []
    requires Quartiles(Averages(rows)).0 <= rows[i].avgSalary.value <= Quartiles(Averages(rows)).1
    ensures rows[i] in OutliersRemoved(rows)
  {
  }

  /** A row whose average is NaN never survives. */
  lemma MissingDropped(rows: seq<SalaryRow>, i: nat)
    requires i < |rows| && rows[i].avgSalary.None?
    ensures forall j :: 0 <= j < |OutliersRemoved(rows)| ==> OutliersRemoved(rows)[j] != rows[i]
  {
  }

  // ------------------------------------------------------------ the method

  /** process_data_optimized(df): writes lower_bound into df, then
      upper_bound and avg_salary, and returns the rows within the fences.
      A column that fails to convert raises ValueError, and a frame with no
      '-' in any salary raises KeyError once lower_bound is written. */
  method ProcessDataOptimized(df: array<SalaryRow>) returns (r: Result<seq<SalaryRow>>)
    modifies df
    ensures var lower := ColumnOf(old(df[..]), LowerSide);
            lower.Err? ==> r == Err(ValueError) && df[..] == old(df[..])
    ensures var lower := ColumnOf(old(df[..]), LowerSide);
            lower.Ok? && !HasUpperColumn(old(df[..])) ==>
              r == Err(KeyError) && df[..] == WithLower(old(df[..]), lower.value)
    ensures var lower, upper := ColumnOf(old(df[..]), LowerSide), ColumnOf(old(df[..]), UpperSide);
            lower.Ok? && HasUpperColumn(old(df[..])) && upper.Err? ==>
              r == Err(ValueError) && df[..] == WithLower(old(df[..]), lower.value)
    ensures var lower, upper := ColumnOf(old(df[..]), LowerSide), ColumnOf(old(df[..]), UpperSide);
            lower.Ok? && HasUpperColumn(old(df[..])) && upper.Ok? ==>
              && df[..] == WithAverages(WithLower(old(df[..]), lower.value), upper.value)
              && r == Ok(OutliersRemoved(df[..]))
  {
    var rows := df[..];
    var lower := ColumnOf(rows, LowerSide);
    if lower.Err? {
      return Err(lower.error);
    }
    forall i | 0 <= i < df.Length {
      df[i] := rows[i].(lowerBound := lower.value[i]);
    }
    assert df[..] == WithLower(rows, lower.value);
    if !HasUpperColumn(rows) {
      return Err(KeyError);
    }
    var upper := ColumnOf(rows, UpperSide);
    if upper.Err? {
      return Err(upper.error);
    }
    var written := df[..];
    forall i | 0 <= i < df.Length {
      df[i] := written[i].(upperBound := upper.value[i], avgSalary := RowMean(written[i].lowerBound, upper.value[i]));
    }
    assert df[..] == WithAverages(written, upper.value);
    r := Ok(OutliersRemoved(df[..]));
  }

  // ------------------------------------------------------------ the rows

  /** A range "low-high" averages its two sides. */
  lemma RangeAverage(low: string, high: string, a: real, b: real)
    requires '-' !in low && '-' !in high
    requires SideValue(low) == Ok(a) && SideValue(high) == Ok(b)
    ensures LowerSide(Some(low + "-" + high)) == Ok(Some(a))
    ensures UpperSide(Some(low + "-" + high)) == Ok(Some(b))
    ensures RowMean(Some(a), Some(b)) == Some((a + b) / 2.0)
  {
    RangeLowerSide(low, high, a);
    RangeUpperSide(low, high, b);
  }

  /** The lower bound of "low-high" is read from low alone. */
  lemma RangeLowerSide(low: string, high: string, a: real)
    requires '-' !in low && '-' !in high && SideValue(low) == Ok(a)
    ensures LowerSide(Some(low + "-" + high)) == Ok(Some(a))
  {
    SplitTwo(low, high, '-');
  }

  /** The upper bound of "low-high" is read from high alone. */
  lemma RangeUpperSide(low: string, high: string, b: real)
    requires '-' !in low && '-' !in high && SideValue(high) == Ok(b)
    ensures UpperSide(Some(low + "-" + high)) == Ok(Some(b))
  {
    SplitTwo(low, high, '-');
  }

  /** A text without '-' has no upper side, and its average is its one
      figure. */
  lemma SingleFigureAverage(s: string, a: real)
    requires '-' !in s
    requires SideValue(s) == Ok(a)
    ensures LowerSide(Some(s)) == Ok(Some(a))
    ensures UpperSide(Some(s)) == Ok(None)
    ensures RowMean(Some(a), None) == Some(a)
  {
    SplitWithout(s, '-');
  }

  // ------------------------------------------------------------ the examples

  lemma EightyThousandDigits(s: string)
    requires s == "$" + ("80" + ("," + ("000" + "")))
    ensures KeepDigits(s) == "80000"
  {
    DigitsBetween("$", "80", ",", "000", "");
  }

  lemma HundredThousandDigits(s: string)
    requires s == "$" + ("100" + ("," + ("000" + " a year")))
    ensures KeepDigits(s) == "100000"
  {
    DigitsBetween("$", "100", ",", "000", " a year");
  }

  lemma EightyThousandSide(s: string)
    requires KeepDigits(s) == "80000"
    ensures SideValue(s) == Ok(80000.0)
  {
    assert DigitsValue("8") == 8;
    assert "80"[..1] == "8" && DigitsValue("80") == 80;
    assert "800"[..2] == "80" && DigitsValue("800") == 800;
    assert "8000"[..3] == "800" && DigitsValue("8000") == 8000;
    assert "80000"[..4] == "8000";
  }

  lemma HundredThousandSide(s: string)
    requires KeepDigits(s) == "100000"
    ensures SideValue(s) == Ok(100000.0)
  {
    assert DigitsValue("1") == 1;
    assert "10"[..1] == "1" && DigitsValue("10") == 10;
    assert "100"[..2] == "10" && DigitsValue("100") == 100;
    assert "1000"[..3] == "100" && DigitsValue("1000") == 1000;
    assert "10000"[..4] == "1000" && DigitsValue("10000") == 10000;
    assert "100000"[..5] == "10000";
  }

  /** The currency sign and the comma are dropped: "$80,000" reads as 80000. */
  lemma LowPieceOfExample()
    ensures SideValue("$80,000") == Ok(80000.0)
  {
    EightyThousandDigits("$80,000");
    EightyThousandSide("$80,000");
  }

  /** The words after the figure are dropped too: "$100,000 a year" reads
      as 100000. */
  lemma HighPieceOfExample()
    ensures SideValue("$100,000 a year") == Ok(100000.0)
  {
    HundredThousandDigits("$100,000 a year");
    HundredThousandSide("$100,000 a year");
  }

  lemma PiecesOfExample()
    ensures '-' !in "$80,000" && '-' !in "$100,000 a year"
    ensures "$80,000-$100,000 a year" == "$80,000" + "-" + "$100,000 a year"
  {
  }

  lemma ExampleLowerSide()
    ensures LowerSide(Some("$80,000-$100,000 a year")) == Ok(Some(80000.0))
  {
    LowPieceOfExample();
    PiecesOfExample();
    RangeLowerSide("$80,000", "$100,000 a year", 80000.0);
  }

  lemma ExampleUpperSide()
    ensures UpperSide(Some("$80,000-$100,000 a year")) == Ok(Some(100000.0))
  {
    HighPieceOfExample();
    PiecesOfExample();
    RangeUpperSide("$80,000", "$100,000 a year", 100000.0);
  }

  /** The histogram path on "$80,000-$100,000 a year": the bounds are 80000
      and 100000 and the average 90000. */
  lemma HistogramExample()
    ensures LowerSide(Some("$80,000-$100,000 a year")) == Ok(Some(80000.0))
    ensures UpperSide(Some("$80,000-$100,000 a year")) == Ok(Some(100000.0))
    ensures RowMean(Some(80000.0), Some(100000.0)) == Some(90000.0)
  {
    ExampleLowerSide();
    ExampleUpperSide();
  }

  /** quantile() interpolates linearly between neighbours: a quarter of the
      way from 10 to 20 is 12.5 (not 10, 15 or 20 as the lower, midpoint or
      higher rules would give). */
  lemma FractionalQuantile()
    ensures Sorted([10.0, 20.0]) && Quantile([10.0, 20.0], 0.25) == 12.5
  {
    assert (0.25).Floor == 0;
  }


  const ExampleValues: seq<real> := [10.0, 12.0, 14.0, 15.0, 16.0, 18.0, 19.0, 20.0, 100.0]

  lemma ExampleSorted()
    ensures Sorted(ExampleValues)
  {
  }

  lemma ExampleLowerQuartile()
    ensures Sorted(ExampleValues) && Quantile(ExampleValues, 0.25) == 14.0
  {
    ExampleSorted();
    assert (8.0 * 0.25).Floor == 2;
  }

  lemma ExampleUpperQuartile()
    ensures Sorted(ExampleValues) && Quantile(ExampleValues, 0.75) == 19.0
  {
    ExampleSorted();
    assert (8.0 * 0.75).Floor == 6;
  }

  lemma ExampleQuartiles()
    ensures Quartiles(ExampleValues) == (14.0, 19.0)
  {
    ExampleSorted();
    SortSorted(ExampleValues);
    ExampleLowerQuartile();
    ExampleUpperQuartile();
  }

  /** Fences from the quartiles 14 and 19: IQR 5, so 14 - 7.5 and 19 + 7.5. */
  lemma ExampleFenceValues(values: seq<real>)
    requires values != [] && Quartiles(values) == (14.0, 19.0)
    ensures Fences(values) == Some((6.5, 26.5))
  {
  }

  /** Nine values with one far above the rest: the fences are 6.5 and 26.5. */
  lemma ExampleFences()
    ensures Fences(ExampleValues) == Some((6.5, 26.5))
  {
    ExampleQuartiles();
    ExampleFenceValues(ExampleValues);
  }

  /** Of the nine values, 100 falls outside the fences and every other
      value inside. */
  lemma ExampleOutlier()
    ensures forall i :: 0 <= i < 8 ==> 6.5 <= ExampleValues[i] <= 26.5
    ensures !(ExampleValues[8] <= 26.5)
  {
  }
}
