/**
 * The social-media usage dashboard: the startup check that the loaded
 * dataset has the seven required columns, and `update_plots`, which filters
 * the rows by an optional year and derives the data and titles of four
 * charts (scatter, histogram, pie, bar).
 */
module Dashboard {
  import opened Wrappers
  import opened Text
  import opened Aggregate

  /** One row of the dataset; `Hour` is taken as an integer. */
  datatype Record = Record(
    year: int,
    sentiment: string,
    retweets: int,
    platform: string,
    country: string,
    day: string,
    hour: int)

  function YearOf(r: Record): int { r.year }
  function SentimentOf(r: Record): string { r.sentiment }
  function CountryOf(r: Record): string { r.country }
  function DayOf(r: Record): string { r.day }
  function HourOf(r: Record): int { r.hour }
  /** The weight that turns a group's sum into its number of rows. */
  function One(r: Record): int { 1 }

  // ---------------------------------------------------------------------
  // Loading and the column check

  const RequiredColumns: seq<string> := ["Year", "Sentiment", "Retweets", "Platform", "Country", "Day", "Hour"]

  const SchemaMessage: string := "Dataset must contain the following columns: " + Join(RequiredColumns, ", ")

  const NotFoundMessage: string :=
    "The file 'projectk.csv' was not found. Ensure it exists in the working directory."

  datatype LoadError = FileNotFoundError(message: string) | ValueError(message: string)

  /** What reading the CSV file yields: its header and its rows. */
  datatype Table = Table(columns: seq<string>, rows: seq<Record>)

  /** Python's `all(col in columns for col in required)`. */
  function AllPresent(required: seq<string>, columns: seq<string>): (ok: bool)
    ensures ok <==> forall i :: 0 <= i < |required| ==> required[i] in columns
  {
    if |required| == 0 then true
    else required[0] in columns && AllPresent(required[1..], columns)
  }

  /**
   * Startup: a missing file raises FileNotFoundError; a file whose header
   * lacks any required column raises ValueError; otherwise the rows are the
   * dataset.
   */
  function Load(file: Option<Table>): (r: Result<seq<Record>, LoadError>)
    ensures file.None? ==> r == Failure(FileNotFoundError(NotFoundMessage))
    ensures file.Some? && (forall c :: c in RequiredColumns ==> c in file.value.columns) ==>
      r == Success(file.value.rows)
    ensures file.Some? && (exists c :: c in RequiredColumns && c !in file.value.columns) ==>
      r == Failure(ValueError(SchemaMessage))
  {
    match file
    case None => Failure(FileNotFoundError(NotFoundMessage))
    case Some(t) =>
      if AllPresent(RequiredColumns, t.columns) then Success(t.rows)
      else Failure(ValueError(SchemaMessage))
  }

  /** The schema error message names every required column. */
  lemma SchemaMessageNamesEveryColumn(c: string)
    requires c in RequiredColumns
    ensures exists k: nat :: OccursAt(SchemaMessage, c, k)
  {
    var prefix := "Dataset must contain the following columns: ";
    var i :| 0 <= i < |RequiredColumns| && RequiredColumns[i] == c;
    JoinContains(RequiredColumns, ", ", i);
    var k: nat :| OccursAt(Join(RequiredColumns, ", "), c, k);
    OccursAfterPrefix(prefix, Join(RequiredColumns, ", "), c, k);
  }

  // ---------------------------------------------------------------------
  // The year filter

  /** Python truthiness of the year input: `None` and `0` are false. */
  predicate Truthy(year: Option<int>) {
    year.Some? && year.value != 0
  }

  /** `a` is `b` with some elements left out, the rest in their order. */
  predicate IsSubsequence<T(==)>(a: seq<T>, b: seq<T>)
    decreases |b|
  {
    if |a| == 0 then true
    else if |b| == 0 then false
    else if a[|a| - 1] == b[|b| - 1] then IsSubsequence(a[..|a| - 1], b[..|b| - 1])
    else IsSubsequence(a, b[..|b| - 1])
  }

  /** `dataset[dataset['Year'] == y]`: the rows of year `y`. */
  function SelectYear(ds: seq<Record>, y: int): (rows: seq<Record>)
    ensures forall i :: 0 <= i < |rows| ==> rows[i].year == y
    decreases |ds|
  {
    if |ds| == 0 then []
    else
      var p := SelectYear(ds[..|ds| - 1], y);
      if ds[|ds| - 1].year == y then p + [ds[|ds| - 1]] else p
  }

  /** Every row of year `y` is kept, as often as the dataset has it. */
  lemma {:induction false} SelectYearKeepsAll(ds: seq<Record>, y: int)
    ensures forall r: Record :: r.year == y ==> multiset(SelectYear(ds, y))[r] == multiset(ds)[r]
  {
    if |ds| > 0 {
      var q := ds[..|ds| - 1];
      SelectYearKeepsAll(q, y);
      assert ds == q + [ds[|ds| - 1]];
    }
  }

  /** The kept rows are in their original order. */
  lemma {:induction false} SelectYearInOrder(ds: seq<Record>, y: int)
    ensures IsSubsequence(SelectYear(ds, y), ds)
  {
    if |ds| > 0 {
      var q, last := ds[..|ds| - 1], ds[|ds| - 1];
      var p := SelectYear(q, y);
      SelectYearInOrder(q, y);
      if last.year == y {
        assert (p + [last])[..|p|] == p;
      } else {
        assert |p| > 0 ==> p[|p| - 1] != last;
      }
    }
  }

  /** As many rows are kept as the dataset has rows of year `y`. */
  lemma {:induction false} SelectYearSize(ds: seq<Record>, y: int)
    ensures |SelectYear(ds, y)| == SumWhere(ds, YearOf, One, y)
  {
    if |ds| > 0 {
      SelectYearSize(ds[..|ds| - 1], y);
    }
  }

  /** `dataset[dataset['Year'] == year] if year else dataset`. */
  function Filter(ds: seq<Record>, year: Option<int>): seq<Record>
  {
    if Truthy(year) then SelectYear(ds, year.value) else ds
  }

  /**
   * A truthy year keeps exactly the rows of that year, each as often as in
   * the dataset and in their original order; no year, or year 0, keeps the
   * whole dataset.
   */
  lemma FilterKeepsExactlyTheYear(ds: seq<Record>, year: Option<int>)
    ensures var rows := Filter(ds, year);
      if Truthy(year) then
        && (forall r: Record :: multiset(rows)[r] == if r.year == year.value then multiset(ds)[r] else 0)
        && IsSubsequence(rows, ds)
        && |rows| == SumWhere(ds, YearOf, One, year.value)
      else rows == ds
  {
    if Truthy(year) {
      var rows := Filter(ds, year);
      SelectYearKeepsAll(ds, year.value);
      SelectYearInOrder(ds, year.value);
      SelectYearSize(ds, year.value);
      forall r: Record | r.year != year.value ensures r !in rows {
      }
    }
  }

  // ---------------------------------------------------------------------
  // Titles

  const NoDataTitle: string := "No data available for the selected year"
  const ScatterBase: string := "Scatter Plot of Retweets vs Platform"
  const HistogramBase: string := "Histogram of Country"
  const PieBase: string := "Day-wise Usage"
  const BarBase: string := "Count of Sentiments"

  /**
   * `f"<base> ({year})" if year else "<base>"`: the base, then, for a truthy
   * year, " (", the decimal text of the year and ")".
   */
  function Title(base: string, year: Option<int>): (t: string)
    ensures |t| >= |base| && t[..|base|] == base
    ensures t == base <==> !Truthy(year)
    ensures Truthy(year) ==>
      && |t| >= |base| + 3
      && t[|base|..|base| + 2] == " ("
      && t[|t| - 1] == ')'
      && IsIntText(t[|base| + 2..|t| - 1])
      && IsCanonicalIntText(t[|base| + 2..|t| - 1])
      && ParseInt(t[|base| + 2..|t| - 1]) == year.value
  {
    if Truthy(year) then
      var t := base + " (" + IntToString(year.value) + ")";
      IntToStringRoundTrip(year.value);
      assert t[|base| + 2..|t| - 1] == IntToString(year.value);
      t
    else base
  }

  /** A title with a year names that year: two years give the same title only if they are equal. */
  lemma TitleDeterminesYear(base: string, y1: Option<int>, y2: Option<int>)
    requires Truthy(y1) && Truthy(y2)
    requires Title(base, y1) == Title(base, y2)
    ensures y1 == y2
  {
    var t1, t2 := Title(base, y1), Title(base, y2);
    var s1, s2 := IntToString(y1.value), IntToString(y2.value);
    assert t1[|base| + 2..|t1| - 1] == s1;
    assert t2[|base| + 2..|t2| - 1] == s2;
    IntToStringInjective(y1.value, y2.value);
  }

  // ---------------------------------------------------------------------
  // The four charts

  /** Plotly's qualitative palette `Set1`. */
  const Set1: seq<string> := [
    "rgb(228,26,28)", "rgb(55,126,184)", "rgb(77,175,74)", "rgb(152,78,163)",
    "rgb(255,127,0)", "rgb(255,255,51)", "rgb(166,86,40)", "rgb(247,129,191)",
    "rgb(153,153,153)"]

  lemma Set1Distinct()
    ensures forall i, j :: 0 <= i < j < |Set1| ==> Set1[i] != Set1[j]
  {
  }

  datatype Point = Point(retweets: int, platform: string, sentiment: string)

  /**
   * The scatter: one point per row, the palette it is given, and the
   * sentiment categories in the order they take colour slots.
   */
  datatype Scatter = Scatter(title: string, points: seq<Point>, palette: seq<string>, legend: seq<string>)
  /** The histogram of Country: one bin per country with its number of rows. */
  datatype Histogram = Histogram(title: string, bins: seq<Bucket<string>>)
  /** The pie: one slice per day with the sum of Hour. */
  datatype Pie = Pie(title: string, slices: seq<Bucket<string>>)
  /** The bar chart: one bar per sentiment with its Count. */
  datatype Bar = Bar(title: string, bars: seq<Bucket<string>>)

  datatype Figures = Figures(scatter: Scatter, histogram: Histogram, pie: Pie, bar: Bar)

  function Min(a: int, b: int): int { if a <= b then a else b }

  function Points(rows: seq<Record>): (ps: seq<Point>)
    ensures |ps| == |rows|
    ensures forall i :: 0 <= i < |rows| ==>
      ps[i] == Point(rows[i].retweets, rows[i].platform, rows[i].sentiment)
  {
    seq(|rows|, i requires 0 <= i < |rows| => Point(rows[i].retweets, rows[i].platform, rows[i].sentiment))
  }

  /** The scatter of Retweets against Platform, coloured by Sentiment. */
  function ScatterChart(rows: seq<Record>, year: Option<int>): Scatter
  {
    var sentiments := Unique(rows, SentimentOf);
    Scatter(Title(ScatterBase, year), Points(rows), Set1[..Min(|Set1|, |sentiments|)], sentiments)
  }

  /** The histogram of Country. */
  function HistogramChart(rows: seq<Record>, year: Option<int>): Histogram
  {
    Histogram(Title(HistogramBase, year), Totals(rows, CountryOf, One))
  }

  /** The pie of Hour by Day. */
  function PieChart(rows: seq<Record>, year: Option<int>): Pie
  {
    Pie(Title(PieBase, year), Totals(rows, DayOf, HourOf))
  }

  /**
   * The bar chart of `groupby('Sentiment').size().reset_index(name='Count')
   * .sort_values('Count', ascending=False)`.
   */
  function BarChart(rows: seq<Record>, year: Option<int>): Bar
  {
    Bar(Title(BarBase, year), SortByTotalDescending(SortByKey(Totals(rows, SentimentOf, One))))
  }

  const NoDataFigures: Figures := Figures(
    Scatter(NoDataTitle, [], [], []),
    Histogram(NoDataTitle, []),
    Pie(NoDataTitle, []),
    Bar(NoDataTitle, []))

  /** `update_plots(year)` over the dataset `ds`. */
  function Render(ds: seq<Record>, year: Option<int>): Figures
  {
    var rows := Filter(ds, year);
    if |rows| == 0 then NoDataFigures
    else Figures(ScatterChart(rows, year), HistogramChart(rows, year), PieChart(rows, year), BarChart(rows, year))
  }

  /**
   * No rows left after filtering gives four placeholder charts titled "No data
   * available for the selected year" with no data; otherwise each chart is
   * the one its builder draws from the filtered rows, with one scatter point
   * per row, titled with its base title, followed by the year in parentheses
   * exactly when the year is truthy.
   */
  lemma RenderBranches(ds: seq<Record>, year: Option<int>)
    ensures var f := Render(ds, year);
      if |Filter(ds, year)| == 0 then
        && f.scatter.title == f.histogram.title == f.pie.title == f.bar.title == NoDataTitle
        && f.scatter.points == [] && f.histogram.bins == [] && f.pie.slices == [] && f.bar.bars == []
        && f.scatter.palette == [] && f.scatter.legend == []
      else
        && f.scatter.title == Title(ScatterBase, year)
        && f.histogram.title == Title(HistogramBase, year)
        && f.pie.title == Title(PieBase, year)
        && f.bar.title == Title(BarBase, year)
        && f.scatter == ScatterChart(Filter(ds, year), year)
        && f.histogram == HistogramChart(Filter(ds, year), year)
        && f.pie == PieChart(Filter(ds, year), year)
        && f.bar == BarChart(Filter(ds, year), year)
        && |f.scatter.points| == |Filter(ds, year)|
  {
  }

  // ---------------------------------------------------------------------
  // What each chart shows

  lemma {:induction false} SumAllOnes(rows: seq<Record>)
    ensures SumAll(rows, One) == |rows|
  {
    if |rows| > 0 { SumAllOnes(rows[..|rows| - 1]); }
  }

  /** Group totals of 1 per row: each group has at least one row and the groups cover all rows. */
  lemma CountsCoverRows(rows: seq<Record>, key: Record -> string)
    ensures var bs := Totals(rows, key, One);
      && DistinctKeys(bs)
      && (forall i :: 0 <= i < |bs| ==> bs[i].total >= 1)
      && SumTotals(bs) == |rows|
  {
    var bs := Totals(rows, key, One);
    var u := Unique(rows, key);
    forall i | 0 <= i < |bs| ensures bs[i].total >= 1 {
      assert bs[i].key == u[i] && u[i] in u;
      UniqueKeyOccurs(rows, key, u[i]);
      var j :| 0 <= j < |rows| && key(rows[j]) == bs[i].key;
      SumWherePositive(rows, key, One, j);
    }
    TotalsSum(rows, key, One);
    SumAllOnes(rows);
  }

  /** Each bar is one of the sentiment groups: its Count is the number of rows with that sentiment. */
  lemma BarsAreGroups(rows: seq<Record>, year: Option<int>)
    ensures var bars := BarChart(rows, year).bars;
      forall i :: 0 <= i < |bars| ==> bars[i].total == SumWhere(rows, SentimentOf, One, bars[i].key) >= 1
  {
    var bars := BarChart(rows, year).bars;
    var groups := Totals(rows, SentimentOf, One);
    assert multiset(bars) == multiset(groups);
    CountsCoverRows(rows, SentimentOf);
    forall i | 0 <= i < |bars|
      ensures bars[i].total == SumWhere(rows, SentimentOf, One, bars[i].key) >= 1
    {
      assert bars[i] in multiset(groups);
      var j :| 0 <= j < |groups| && groups[j] == bars[i];
    }
  }

  /** Every sentiment of the rows has its bar. */
  lemma BarsCoverSentiments(rows: seq<Record>, year: Option<int>)
    ensures var bars := BarChart(rows, year).bars;
      forall i :: 0 <= i < |rows| ==> HasKey(bars, rows[i].sentiment)
  {
    var bars := BarChart(rows, year).bars;
    var groups := Totals(rows, SentimentOf, One);
    var u := Unique(rows, SentimentOf);
    assert multiset(bars) == multiset(groups);
    forall i | 0 <= i < |rows| ensures HasKey(bars, rows[i].sentiment) {
      assert SentimentOf(rows[i]) in u;
      var j :| 0 <= j < |u| && u[j] == rows[i].sentiment;
      assert groups[j] in multiset(bars);
      var k :| 0 <= k < |bars| && bars[k] == groups[j];
    }
  }

  /**
   * The bar chart: one bar per distinct sentiment of the filtered rows, its
   * Count the number of those rows with that sentiment (so at least 1), the
   * Counts adding up to the number of rows, in non-increasing order.
   */
  lemma BarCountsSentiments(rows: seq<Record>, year: Option<int>)
    ensures var bars := BarChart(rows, year).bars;
      && DistinctKeys(bars)
      && (forall i :: 0 <= i < |bars| ==>
            bars[i].total == SumWhere(rows, SentimentOf, One, bars[i].key) >= 1)
      && (forall i :: 0 <= i < |rows| ==> HasKey(bars, rows[i].sentiment))
      && SumTotals(bars) == |rows|
      && TotalsDescending(bars)
  {
    var bars := BarChart(rows, year).bars;
    var groups := Totals(rows, SentimentOf, One);
    CountsCoverRows(rows, SentimentOf);
    assert multiset(bars) == multiset(groups);
    DistinctKeysPermutation(groups, bars);
    BarsAreGroups(rows, year);
    BarsCoverSentiments(rows, year);
  }

  /** The histogram: one bin per distinct country in first-occurrence order, counting its rows. */
  lemma HistogramCountsCountries(rows: seq<Record>, year: Option<int>)
    ensures var bins := HistogramChart(rows, year).bins;
      && |bins| == |Unique(rows, CountryOf)|
      && (forall i :: 0 <= i < |bins| ==> bins[i].key == Unique(rows, CountryOf)[i])
      && (forall i :: 0 <= i < |bins| ==>
            bins[i].total == SumWhere(rows, CountryOf, One, bins[i].key) >= 1)
      && SumTotals(bins) == |rows|
  {
    CountsCoverRows(rows, CountryOf);
  }

  /** The pie: one slice per distinct day, its value the sum of Hour over that day's rows. */
  lemma PieSumsHoursPerDay(rows: seq<Record>, year: Option<int>)
    ensures var slices := PieChart(rows, year).slices;
      && |slices| == |Unique(rows, DayOf)|
      && (forall i :: 0 <= i < |slices| ==> slices[i].key == Unique(rows, DayOf)[i])
      && (forall i :: 0 <= i < |slices| ==> slices[i].total == SumWhere(rows, DayOf, HourOf, slices[i].key))
      && SumTotals(slices) == SumAll(rows, HourOf)
  {
    TotalsSum(rows, DayOf, HourOf);
  }

  /**
   * The scatter: one point per filtered row; its palette is the prefix of
   * Set1 as long as the number of distinct sentiments (at most all of Set1);
   * the sentiments take colour slots in first-occurrence order.
   */
  lemma ScatterPointsAndPalette(rows: seq<Record>, year: Option<int>)
    ensures var s := ScatterChart(rows, year);
      && |s.points| == |rows|
      && (forall i :: 0 <= i < |rows| ==> s.points[i] == Point(rows[i].retweets, rows[i].platform, rows[i].sentiment))
      && s.palette == Set1[..|s.palette|]
      && |s.palette| == Min(|Set1|, |s.legend|)
      && Distinct(s.legend)
      && (forall i :: 0 <= i < |rows| ==> rows[i].sentiment in s.legend)
      && (forall i :: 0 <= i < |s.legend| ==> FirstIndex(rows, SentimentOf, s.legend[i]) < |rows|)
      && (forall i, j :: 0 <= i < j < |s.legend| ==>
            FirstIndex(rows, SentimentOf, s.legend[i]) < FirstIndex(rows, SentimentOf, s.legend[j]))
  {
    assert ScatterChart(rows, year).legend == Unique(rows, SentimentOf);
    UniqueInFirstOccurrenceOrder(rows, SentimentOf);
    forall i | 0 <= i < |rows| ensures rows[i].sentiment in Unique(rows, SentimentOf) {
      assert SentimentOf(rows[i]) in Unique(rows, SentimentOf);
    }
    forall i | 0 <= i < |Unique(rows, SentimentOf)|
      ensures FirstIndex(rows, SentimentOf, Unique(rows, SentimentOf)[i]) < |rows|
    {
      UniqueKeyOccurs(rows, SentimentOf, Unique(rows, SentimentOf)[i]);
    }
  }

  /** The colour plotly gives the `i`-th sentiment category: palette slots taken in turn. */
  function TraceColor(s: Scatter, i: nat): string
    requires |s.palette| > 0
  {
    s.palette[i % |s.palette|]
  }

  /** A palette cut from Set1 to the number of categories gives different categories different colours. */
  lemma CutPaletteColorsDistinct(s: Scatter, i: nat, j: nat)
    requires s.palette == Set1[..Min(|Set1|, |s.legend|)]
    requires i < j < |s.legend| <= |Set1|
    ensures |s.palette| > 0 && TraceColor(s, i) != TraceColor(s, j)
  {
    assert |s.palette| == |s.legend|;
    assert i % |s.palette| == i && j % |s.palette| == j;
    Set1Distinct();
  }

  /** With no more sentiments than Set1 has colours, different sentiments get different colours. */
  lemma SentimentColorsDistinct(rows: seq<Record>, year: Option<int>, i: nat, j: nat)
    requires i < j < |Unique(rows, SentimentOf)| <= |Set1|
    ensures var s := ScatterChart(rows, year);
      |s.palette| > 0 && TraceColor(s, i) != TraceColor(s, j)
  {
    ScatterPointsAndPalette(rows, year);
    CutPaletteColorsDistinct(ScatterChart(rows, year), i, j);
  }

  const ExampleRows: seq<Record> := [
    Record(2020, "pos", 5, "X", "US", "Mon", 3),
    Record(2020, "neg", 2, "Y", "US", "Mon", 1)]

  lemma ExampleFilter()
    ensures Filter(ExampleRows, Some(2020)) == ExampleRows
    ensures Filter(ExampleRows, Some(2019)) == []
  {
    var r1, r2 := ExampleRows[0], ExampleRows[1];
    assert ExampleRows[..1] == [r1] && [r1][..0] == [];
    assert SelectYear([r1], 2020) == [r1];
    assert SelectYear(ExampleRows, 2020) == [r1, r2];
    assert SelectYear([r1], 2019) == [];
  }

  lemma ExampleHistogramAndPie()
    ensures HistogramChart(ExampleRows, Some(2020)).bins == [Bucket("US", 2)]
    ensures PieChart(ExampleRows, Some(2020)).slices == [Bucket("Mon", 4)]
  {
    var r1 := ExampleRows[0];
    assert ExampleRows[..1] == [r1] && [r1][..0] == [];
    assert Unique([r1], CountryOf) == ["US"];
    assert Unique([r1], DayOf) == ["Mon"];
  }

  lemma ExampleBar()
    ensures BarChart(ExampleRows, Some(2020)).bars == [Bucket("neg", 1), Bucket("pos", 1)]
  {
    var r1 := ExampleRows[0];
    assert ExampleRows[..1] == [r1] && [r1][..0] == [];
    assert Unique([r1], SentimentOf) == ["pos"];
    assert "neg" != "pos";
    assert Totals(ExampleRows, SentimentOf, One) == [Bucket("pos", 1), Bucket("neg", 1)];
    ExampleSort();
  }

  lemma ExampleSort()
    ensures SortByTotalDescending(SortByKey([Bucket("pos", 1), Bucket("neg", 1)])) ==
            [Bucket("neg", 1), Bucket("pos", 1)]
  {
    assert StrLess("neg", "pos");
    assert SortByKey([Bucket("neg", 1)]) == [Bucket("neg", 1)];
    assert SortByKey([Bucket("pos", 1), Bucket("neg", 1)]) == [Bucket("neg", 1), Bucket("pos", 1)];
  }

  /**
   * Two rows of 2020 with sentiments "pos" then "neg", both from "US" on "Mon":
   * for 2020 the scatter has two points, the histogram one bin of 2, the pie
   * one slice of 3 + 1 hours, the bar chart two bars of 1 in key order; for
   * 2019 the four charts are the placeholders.
   */
  lemma TwoRowExample()
    ensures |Render(ExampleRows, Some(2020)).scatter.points| == 2
    ensures Render(ExampleRows, Some(2020)).histogram.bins == [Bucket("US", 2)]
    ensures Render(ExampleRows, Some(2020)).pie.slices == [Bucket("Mon", 4)]
    ensures Render(ExampleRows, Some(2020)).bar.bars == [Bucket("neg", 1), Bucket("pos", 1)]
    ensures Render(ExampleRows, Some(2019)) == NoDataFigures
  {
    ExampleFilter();
    ExampleHistogramAndPie();
    ExampleBar();
  }
}
