# Social-media usage dashboard — a Dafny model

The dashboard loads a table of social-media posts (Year, Sentiment, Retweets,
Platform, Country, Day, Hour), refuses to start when a required column is
missing, and on every change of the year input redraws four charts from the
rows of that year: a scatter of Retweets against Platform coloured by
Sentiment, a histogram of Country, a pie of Hour by Day and a bar chart of the
number of posts per Sentiment, sorted by count.

This project models that data logic as pure functions with proofs:

- `wrappers.dfy` — `Option` and `Result`.
- `text.dfy` (module `Text`) — Python's `str` of an integer (used in the
  titles) with a parser proving it invertible, and `', '.join` with a lemma
  that every joined item appears in the result.
- `aggregate.dfy` (module `Aggregate`) — the pandas operations the callback
  uses: `unique()` (first-occurrence order), a counting pass that groups rows
  by a key and sums a weight (`groupby().size()` with weight 1, the pie's sum
  of `Hour`), the key order `groupby` gives its groups, and
  `sort_values(ascending=False)` on the counts.
- `dashboard.dfy` (module `Dashboard`) — records, the required-column check
  and loading, the year filter with Python truthiness, the titles, the four
  chart builders and `Render`, which is `update_plots`.

`Render(ds, year)` takes the dataset and the year input as `Option<int>`. A
year is active when it is `Some(y)` with `y != 0`, as `if year` reads in
Python. With an active year only the rows of that year are kept, in order. If
no row is left, the four charts are placeholders titled "No data available for
the selected year". Otherwise each chart is built from the kept rows and titled
`"<base> (<year>)"` or `"<base>"`.

The bar data is `groupby('Sentiment')` followed by a sort on the count. The
grouping sorts its keys, so the model orders the groups by key (code-point
order of the strings) before sorting them by count, so equal counts are not
kept in first-occurrence order of the sentiments. The proved contract promises
only non-increasing counts, because pandas' default sort is not stable.

## Model

| member | source | states |
|---|---|---|
| `Dashboard.AllPresent` | main.py:13 | true exactly when every required column is among the dataset's columns |
| `Dashboard.Load` | main.py:6-14 | a missing file gives FileNotFoundError with its fixed message; a header lacking any of the seven columns gives ValueError with the schema message; a header with all seven gives the rows |
| `Dashboard.SchemaMessageNamesEveryColumn` | main.py:12-14 | each of the seven required column names occurs in the schema error message |
| `Text.Join` | main.py:14 | Python's `', '.join`; its contract is carried by `JoinContains` |
| `Text.JoinContains` | main.py:14 | every item passed to `', '.join` occurs in the joined text |
| `Dashboard.Truthy` | main.py:50 | Python truthiness of the year input (`None` and `0` are false); its consequences are stated by `FilterKeepsExactlyTheYear` |
| `Dashboard.Filter` | main.py:50 | `dataset[dataset['Year'] == year] if year else dataset`; its contract is carried by `FilterKeepsExactlyTheYear` |
| `Dashboard.SelectYear` | main.py:50 | every row kept by the year mask has that year |
| `Dashboard.SelectYearKeepsAll` | main.py:50 | every row of the year is kept as many times as the dataset holds it |
| `Dashboard.SelectYearInOrder` | main.py:50 | the kept rows are a subsequence of the dataset (original relative order) |
| `Dashboard.SelectYearSize` | main.py:50 | the number of kept rows equals the number of dataset rows with that year |
| `Dashboard.FilterKeepsExactlyTheYear` | main.py:50 | with a truthy year the filtered rows hold exactly the rows of that year (multiplicities, order, count); with no year or year 0 they are the whole dataset |
| `Dashboard.Render` | main.py:48-106 | `update_plots`: placeholders when no row survives the filter, otherwise the four charts of the filtered rows; its contract is carried by `RenderBranches`, `ScatterPointsAndPalette`, `HistogramCountsCountries`, `PieSumsHoursPerDay` and `BarCountsSentiments` |
| `Dashboard.ScatterChart` | main.py:61-71 | the scatter of the filtered rows; its contract is carried by `ScatterPointsAndPalette` and `SentimentColorsDistinct` |
| `Dashboard.HistogramChart` | main.py:74-80 | the histogram of Country; its contract is carried by `HistogramCountsCountries` |
| `Dashboard.PieChart` | main.py:83-89 | the pie of Hour by Day; its contract is carried by `PieSumsHoursPerDay` |
| `Dashboard.BarChart` | main.py:92-104 | the bar chart of sentiment counts; its contract is carried by `BarCountsSentiments`, `BarsAreGroups` and `BarsCoverSentiments` |
| `Dashboard.RenderBranches` | main.py:52-106 | no filtered rows gives four charts titled "No data available for the selected year" with no data (no points, palette or legend, bins, slices or bars); otherwise each chart is its builder's chart of the filtered rows, with one scatter point per row, and the four titles are the scatter, histogram, pie and bar titles for the year |
| `Dashboard.Title` | main.py:66 | the title starts with its base and equals the base exactly when the year is falsy; for a truthy year the base is followed by " (", the canonical decimal text of the year (no leading zero, no "-0", as `str` writes it) that reads back as the year, and ")" |
| `Dashboard.TitleDeterminesYear` | main.py:66 | two truthy years that give the same title are the same year |
| `Text.IntToString` | main.py:66 | Python's `str` of the year in the f-string title; its contract is carried by `IntToStringRoundTrip` and `IntToStringInjective` |
| `Text.IntToStringRoundTrip` | main.py:66 | the text of the year is a canonical integer text (no leading zero, no "-0") that reads back as the year, starting with '-' exactly when it is negative |
| `Text.ParseNatToString` | main.py:66 | decimal digits of a natural number read back as that number |
| `Text.NatToString` | main.py:66 | the digits of a number are non-empty, all decimal, with no leading zero |
| `Text.IntToStringInjective` | main.py:66 | different years give different texts |
| `Aggregate.Unique` | main.py:61 | `unique()` lists each value once and every row's value is listed |
| `Aggregate.UniqueKeyOccurs` | main.py:61 | every value `unique()` lists is carried by some row |
| `Aggregate.UniqueInFirstOccurrenceOrder` | main.py:61 | `unique()` lists the values in the order of their first occurrence |
| `Aggregate.FirstIndex` | main.py:61 | the position found is the first row with that value, or the end when there is none |
| `Dashboard.ScatterPointsAndPalette` | main.py:61-69 | one point per filtered row with its Retweets, Platform and Sentiment; the legend lists exactly the distinct sentiments of the rows (each carried by some row, none repeated, every row's present), so the palette, the prefix of Set1 of length min(9, legend length), has min(9, number of distinct sentiments) colours; the sentiments take colour slots in first-occurrence order |
| `Dashboard.SentimentColorsDistinct` | main.py:68 | with at most nine sentiments, different sentiments get different colours |
| `Aggregate.Totals` | main.py:74-95 | one group per distinct key in first-occurrence order, holding the sum of the weights of that key's rows |
| `Aggregate.TotalsSum` | main.py:74-95 | the group totals add up to the total weight of all rows |
| `Dashboard.HistogramCountsCountries` | main.py:74-79 | one bin per distinct Country in first-occurrence order, each counting that country's rows (at least 1), the counts adding up to the number of rows |
| `Dashboard.PieSumsHoursPerDay` | main.py:83-89 | one slice per distinct Day, its value the sum of Hour over that day's rows, the values adding up to the sum of all Hours |
| `Aggregate.SortByKey` | main.py:94 | `groupby` yields the groups rearranged (same multiset, same sum) in ascending key order |
| `Aggregate.SortByTotalDescending` | main.py:96 | `sort_values('Count', ascending=False)` rearranges the groups (same multiset, same sum) into non-increasing count order |
| `Aggregate.DistinctKeysPermutation` | main.py:94-96 | rearranging groups with distinct keys keeps the keys distinct |
| `Dashboard.BarsAreGroups` | main.py:92-95 | each bar's Count is the number of filtered rows with its Sentiment, at least 1 |
| `Dashboard.BarsCoverSentiments` | main.py:92-95 | every Sentiment among the filtered rows has a bar |
| `Dashboard.BarCountsSentiments` | main.py:92-104 | one bar per distinct Sentiment, Count equal to the number of rows with it, Counts summing to the number of rows, in non-increasing order |
| `Aggregate.StrLessTotal` | main.py:94 | the key order of `groupby` (string `<`) is total and asymmetric |
| `Aggregate.StrLessTransitive` | main.py:94 | string `<` is transitive |
| `Dashboard.TwoRowExample` | main.py:48-106 | two 2020 rows ("pos", "neg", both US on Mon with 3 and 1 hours): for 2020 two points, one bin US=2, one slice Mon=4, bars neg=1 then pos=1; for 2019 the placeholders |

## Left out

- Reading `projectk.csv` (main.py:6-9) is file I/O: the file is a parameter `Option<Table>`, `None` standing for a missing file, and a present table is taken as already parsed into records.
- The Dash application, its layout, the callback wiring and the server start (main.py:17-47, 110-111) are framework plumbing: `Render` is the callback as a function of the dataset and the year.
- Plotly figure objects, the dark template, axis labels, the blue fill, the black 1-pixel bar outline and `update_traces` (main.py:69-70, 78, 80, 88, 103) are presentation inside a library that is not part of this model; each chart is modelled as its title and the data it plots.
- The Set1 colour values are plotly's, not the dashboard's; plotly giving the i-th colour category palette slot `i mod len(palette)` (`TraceColor`) is likewise plotly behaviour, stated here as the model's assumption.
- The year input's conversion by Dash (`type='number'`, `debounce=True`) is not modelled: the year is an `Option<int>`, so fractional, NaN or non-numeric inputs are out of scope, as is pandas' numeric coercion in `Year == year`.
- `Hour` is an integer; floating-point sums of `Hour` are not modelled.
- Dashboard.BarCountsSentiments: does not promise an order among bars of equal Count, because `sort_values` uses pandas' default unstable sort; the model keeps equal Counts in key order.
- Dashboard.PieSumsHoursPerDay: the slices are in first-occurrence order of Day; the order plotly draws them in (by value) is presentation and not stated.
- Dashboard.SchemaMessageNamesEveryColumn: proves that every column name occurs in the message, which is defined as the source's f-string over `', '.join`; the full 100-character literal is not spelled out in a lemma.
