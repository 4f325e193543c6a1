# Job-listings dashboard: a verified model of its data logic

The dashboard shows job listings for data analysts as charts. Behind the
charts sits a small amount of real logic, and this project models it in
Dafny:

- a keyword classifier that gives every job title a category. It takes the
  first entry of an ordered category table that has a keyword occurring as
  a whole word in the lower-cased title; a title no keyword matches is
  "Other". The dashboard classifies with its main title table only. The
  job-level and job-domain tables feed only the category dropdown, through
  their keys. The model also runs the same generic classifier over those
  two tables, as a check of their entries; the dashboard does not;
- two salary parsers that are kept apart:
  - `map_salary_to_range` puts annual salary text into one of eight
    half-open bands, or "Other", or None;
  - `process_data_optimized` strips every non-digit from both sides of a
    `-`, averages the sides, and drops the rows whose average lies outside
    the interquartile fences (Q1 − 1.5·IQR, Q3 + 1.5·IQR, with linear
    interpolation at position (n − 1)·p of the sorted values);
- the group-and-count steps behind the charts:
  - the category bar chart and the list of unclassified titles;
  - the top-10 title chart with an "Others" row;
  - the top-6 platform pie;
  - the state choropleth ("City, XX" after two sentinel locations are
    dropped);
  - the eight-band salary histogram;
  - the per-category numbered skill tables.

Modules, one per source concern:

| module | file | models |
|---|---|---|
| `Wrappers` | wrappers.dfy | Option, Python exceptions as `Result`, Python truthiness of an optional string |
| `Text` | text.dfy | the `str` built-ins the code uses (ASCII `lower`, `in`, `split`, `replace`, `strip`, `int()`, `re.sub("[^0-9]")`) |
| `Counting` | counting.dfy | `value_counts` (its output order is a parameter), count conservation, filtering, top-N with a remainder row |
| `Classifier` | classifier.dfy | `categorize_job_title` over any ordered table, with `\b…\b` matching |
| `DataProcessing` | data_processing.dfy | the level and domain tables, `map_salary_to_range` and its eight bands |
| `ProcessData` | process_data.dfy | `process_data_optimized`: per-row averages, quartiles, fences, the filter |
| `MainApp` | main_app.dfy | the title table, the in-place `title_category` column, the two callbacks |
| `Visualizations` | visualizations.dfy | the data shaping of the five chart builders |

Modelling conventions:

- `value_counts` breaks ties in no fixed way, so every aggregation takes
  the order of its output as a parameter. `Counting.IsValueCountsOrder`
  constrains that parameter to what pandas guarantees: distinct labels,
  exactly the labels present, and non-increasing counts.
- Python exceptions are `Err(ValueError | KeyError | IndexError | TypeError)`.
- A missing cell (NaN) is `None`.
- Money is `real`, so rounding is not modelled.
- A frame the source updates in place is an `array` of records. The method
  then states every field it writes.

Where the code and its documentation disagree, the model follows the code:

- `map_salary_to_range` removes commas only. A currency sign or a second
  `-` makes `int()` or tuple unpacking raise ValueError; it does not give
  a band.
- In `process_data_optimized`, `astype(float)` of a side with no digits
  (an empty string) raises ValueError for the whole frame, not for one
  record.
- When no salary in the frame contains `-`, `split(expand=True)` has no
  column 1. `split_salaries[1]` then raises KeyError, after `lower_bound`
  has been written. This holds for a salary column of strings; a column
  whose every cell is missing is the exception listed under "Left out".

## Model

| member | source | states |
|---|---|---|
| Classifier.Categorize | main.py:52-58 | the result is "Other" or the label of some table entry |
| Classifier.FirstMatch | main.py:54-57 | the index found is inside the table |
| Classifier.FirstMatchCorrect | main.py:54-58 | the entry found has a keyword occurring as a whole word and no earlier entry has one; when none is found, no entry matches |
| Classifier.AnyKeywordCorrect | main.py:55-57 | the keyword loop of one entry succeeds exactly when one of its keywords occurs as a whole word |
| Classifier.SearchFromCorrect | main.py:56 | the left-to-right search for `\bk\b` succeeds exactly when a whole-word match starts at or after the start position |
| Classifier.CategorizeFirst | main.py:54-57 | a title matching entry j and no earlier entry gets entry j's label (table order is the tie-break) |
| Classifier.CategorizeNone | main.py:58 | a title matching no entry is "Other" |
| Classifier.CaseInsensitive | main.py:53 | a title and its lower-cased form get the same category |
| Classifier.WholeWordNeighbours | main.py:56 | the characters beside a whole-word match of a word keyword are not word characters |
| Classifier.NoWordStartsWith | main.py:56 | a keyword whose first letter begins no word of the title does not occur |
| Classifier.LetterOutside | main.py:56 | a keyword with a character the title lacks does not occur |
| Classifier.OnlyCandidates | main.py:56 | when no listed word start holds a match, the keyword does not occur |
| Text.LowerIdempotent | main.py:53 | lower-casing twice equals lower-casing once |
| Text.Lower | main.py:53 | `lower()` keeps the length and lower-cases each character |
| Text.Contains | data_processing.py:87 | the scan succeeds exactly when the substring occurs |
| Text.Split | data_processing.py:89 | `split('-')` gives one more piece than there are dashes, none holding a dash |
| Text.SplitJoin | data_processing.py:89 | joining the pieces with the separator gives back the text |
| Text.SplitTwo | data_processing.py:89 | text with exactly one separator splits into the parts before and after it |
| Text.FirstToken | data_processing.py:91 | `split()[0]` is a non-blank word at the start after blanks, or IndexError exactly for blank text |
| Text.KeepDigits | data_processing.py:56-57 | `replace("[^0-9]", "")` gives no more characters than it was given |
| Text.KeepDigitsMembers | data_processing.py:56-57 | the result is all digits, and it holds exactly the digits of the text |
| Text.KeepDigitsAppend | data_processing.py:56-57 | removing non-digits distributes over concatenation, so the digits keep their order |
| Text.KeepDigitsOfDigits | data_processing.py:56-57 | all-digit text is unchanged |
| Text.KeepDigitsOfOthers | data_processing.py:56-57 | text with no digit becomes empty |
| Text.KeepDigitsSkip | data_processing.py:56-57 | a digit-free prefix contributes nothing |
| Text.KeepDigitsTake | data_processing.py:56-57 | an all-digit prefix is kept as it is |
| Text.DigitsBetween | data_processing.py:56-57 | digit runs separated by digit-free text are joined: `$80,000` keeps `80` then `000` |
| Text.PyIntReadsDecimal | data_processing.py:90 | `int()` reads back the decimal notation of every natural number |
| Text.ForeignCharRejected | data_processing.py:90-94 | `int()` of text with a character other than digits, signs, `_` and blanks fails |
| Text.NatToDigits | data_processing.py:90 | decimal notation is all digits and denotes its number |
| Text.Strip | data_processing.py:90 | the blank-trimming `int()` does before it reads digits: the result is the slice of the text between a blank prefix and a blank suffix, with no blank at either end |
| Text.StripKeeps | data_processing.py:90 | the trimming keeps every non-blank character |
| DataProcessing.MapSalaryToRange | data_processing.py:84-114 | NaN raises TypeError; None exactly for "Not specified"; "Other" for text without "a year"; annual text gets the band of low + high, or the error its parsing raises |
| DataProcessing.BandIndex | data_processing.py:97-112 | the band's thresholds bracket the doubled average |
| DataProcessing.BandAgrees | data_processing.py:92-112 | comparing low + high with doubled thresholds picks the same label as the elif chain on the average (low + high) / 2 |
| DataProcessing.BandMonotone | data_processing.py:97-112 | a higher average never lands in a lower band |
| DataProcessing.BandEdges | data_processing.py:97-112 | exactly 50000 is "50k-75k", anything below 50000 is "<50k", 200000 and above is "200k+" |
| DataProcessing.RangeReads | data_processing.py:88-92 | "low-high rest" reads low and the first token of the high side, commas removed |
| DataProcessing.SingleReads | data_processing.py:93-94 | a dash-free figure is read from its first token, commas removed |
| DataProcessing.RangeSplit | data_processing.py:89 | one dash between dash-free parts gives exactly those two pieces |
| DataProcessing.RangeFromPieces | data_processing.py:88-92 | the range branch returns the figures read from its two pieces |
| DataProcessing.SingleFromToken | data_processing.py:93-94 | the single-figure branch returns its token's value twice |
| DataProcessing.TwoDashesRejected | data_processing.py:89 | two or more dashes make the unpacking raise ValueError |
| DataProcessing.CurrencySignRejected | data_processing.py:90 | a low side starting with "$" raises ValueError instead of giving a band |
| DataProcessing.ReadsAs | data_processing.py:90-91 | text whose comma-free form is the decimal notation of n reads as n |
| DataProcessing.RangeExample | data_processing.py:84-112 | the whole call on "80,000-100,000 a year" gives "75k-100k" |
| DataProcessing.SingleFigureExample | data_processing.py:84-100 | the whole call on "50,000 a year" gives "50k-75k" |
| DataProcessing.HourlyExample | data_processing.py:87-114 | "25 an hour" is "Other" |
| DataProcessing.SeniorLevel | data_processing.py:9-13 | the level table classifies "Senior Data Analyst" as senior, ahead of the junior entry |
| DataProcessing.GoogleAnalyticsDomain | data_processing.py:15-18 | the domain table classifies "GA4 Specialist" as Google Analytics, not BI |
| ProcessData.SideValue | data_processing.py:56-57 | a side fails with ValueError exactly when it has no digit; otherwise its value is the decimal number its digits spell, in order |
| ProcessData.LowerSide | data_processing.py:53-56 | missing for a missing salary; otherwise reads piece 0 of `split('-')`, failing with ValueError exactly when that piece has no digit |
| ProcessData.UpperSide | data_processing.py:53-57 | missing when the salary is missing or has no dash; otherwise reads piece 1 of `split('-')`, failing with ValueError exactly when that piece has no digit |
| ProcessData.ColumnOf | data_processing.py:56-57 | a column converts exactly when every row's side converts, holding each row's value; a failure is some row's error |
| ProcessData.RowMean | data_processing.py:60 | mean skipping NaN: missing only when both sides are, one side alone is the mean, two sides give their midpoint |
| ProcessData.Averages | data_processing.py:63-64 | the present averages of the frame, each from some row |
| ProcessData.AveragesCount | data_processing.py:63-64 | each value occurs among the averages as often as rows have it as avg_salary |
| ProcessData.AveragesLength | data_processing.py:63-64 | only the rows with a missing avg_salary are left out |
| ProcessData.AveragesAppend | data_processing.py:63-64 | the averages keep row order |
| ProcessData.SortValues | data_processing.py:63-64 | the values in ascending order, as many as given |
| ProcessData.SortPermutes | data_processing.py:63-64 | sorting permutes the values |
| ProcessData.SortSorted | data_processing.py:63-64 | sorting sorted values changes nothing |
| ProcessData.InsertSorted | data_processing.py:63-64 | inserting into sorted values keeps them sorted |
| ProcessData.ValueAt | data_processing.py:63-64 | linear interpolation lies between the two neighbouring sorted values |
| ProcessData.ValueAtMonotone | data_processing.py:63-64 | interpolation is monotone in the position |
| ProcessData.Quantile | data_processing.py:63-64 | a quantile lies between the minimum and the maximum |
| ProcessData.QuantileMonotone | data_processing.py:63-64 | a higher p never gives a lower quantile |
| ProcessData.Quartiles | data_processing.py:63-64 | Q1 ≤ Q3 |
| ProcessData.Fences | data_processing.py:63-67 | no fences exactly when no average is present; lower fence ≤ Q1 ≤ Q3 ≤ upper fence |
| ProcessData.OutliersRemoved | data_processing.py:68 | the frame's rows filtered, in frame order, by a present average within the fences of the frame's own averages; kept rows are frame rows within the fences, and every such row is kept |
| ProcessData.OutliersCount | data_processing.py:68 | a row within the fences is kept as many times as the frame holds it; any other row not at all |
| ProcessData.OutliersOrder | data_processing.py:68 | the survivors of the first part of a frame come ahead of those of the second |
| ProcessData.MiddleKept | data_processing.py:68 | a row whose average lies between Q1 and Q3 is kept |
| ProcessData.MissingDropped | data_processing.py:68 | a row with a missing average is dropped |
| ProcessData.RangeLowerSide | data_processing.py:53-56 | in "a-b" the lower side is the value of a |
| ProcessData.RangeUpperSide | data_processing.py:53-57 | in "a-b" the upper side is the value of b |
| ProcessData.RangeAverage | data_processing.py:53-60 | "a-b" gives sides a and b and average (a + b) / 2 |
| ProcessData.SingleFigureAverage | data_processing.py:53-60 | without a dash the upper side is missing and the average is the lower value |
| ProcessData.ProcessDataOptimized | data_processing.py:51-70 | ValueError with the frame unchanged when lower_bound fails; KeyError after writing lower_bound when no salary has a dash; ValueError after writing lower_bound when upper_bound fails; otherwise all three columns written and the rows within the fences returned |
| ProcessData.EightyThousandSide | data_processing.py:56 | a side whose digits are 80000 reads as 80000.0 |
| ProcessData.HistogramExample | data_processing.py:53-60 | "$80,000-$100,000 a year" gives sides 80000 and 100000 and average 90000 |
| ProcessData.FractionalQuantile | data_processing.py:63 | on [10, 20] the 0.25-quantile interpolates to 12.5, between the two values rather than at either |
| ProcessData.ExampleQuartiles | data_processing.py:63-64 | for [10,12,14,15,16,18,19,20,100], Q1 = 14 and Q3 = 19 |
| ProcessData.ExampleFences | data_processing.py:65-67 | the fences of that example are [6.5, 26.5] |
| ProcessData.ExampleOutlier | data_processing.py:68 | the first eight values lie within [6.5, 26.5] and 100 does not |
| MainApp.ApplyCategories | main.py:62 | every listing's title_category becomes its title's category; titles are unchanged |
| MainApp.CategoriesAreKnown | main.py:52-62 | a written category is "Other" or a key of the title table |
| MainApp.CategoryCounts | main.py:94-102 | with a selection: at most one row, holding the selected category and its full count, and none exactly when no listing has it; without a selection: one row per label of the order, holding that category and its number of listings, summing to the number of listings; always non-increasing |
| MainApp.SelectedGroup | main.py:95-100 | with a selection, the count labels are at most the selected category |
| MainApp.SelectionCounts | main.py:96 | filtering on a category keeps exactly its listings |
| MainApp.OtherTitles | main.py:117 | as many titles as listings classified "Other" |
| MainApp.OtherTitlesMembers | main.py:117 | a title is listed exactly when some "Other" listing has it |
| MainApp.OtherTitlesAppend | main.py:117-121 | the titles keep frame order |
| MainApp.ShowOtherCategoryTitles | main.py:115-123 | blank exactly before the first click; afterwards the paragraphs are exactly the "Other" titles in frame order, as many as "Other" listings |
| MainApp.AbigailSmithIsOther | main.py:13-58 | "Abigail Smith" is "Other": "bi" and "ga" sit inside a word |
| MainApp.AbigailMissesAll | main.py:13-39 | no entry of the title table matches "abigail smith" |
| MainApp.SeniorBeforeMarketing | main.py:14-21 | "Senior Marketing Analyst" matches the marketing entry too but is senior, the earlier entry |
| MainApp.AnalystTwoIsSenior | main.py:14-32 | "Data Analyst II" does not match "analyst i" (an "i" follows) and is senior, ahead of the data-analyst entry that matches too |
| Counting.ValueCountsTotal | visualizations.py:55 | the counts of a value_counts result sum to the column's length |
| Counting.ValueCountsSorted | visualizations.py:55 | value_counts rows are non-increasing with positive counts |
| Counting.CountsInOrder | main.py:100 | one row per label, holding that label's count |
| Counting.SumOfCounts | visualizations.py:84 | the counts of distinct labels sum to the number of entries carrying one of them |
| Counting.CountAmongAll | visualizations.py:55 | when every entry carries one of the labels, they cover the whole column |
| Counting.DistinctWithin | visualizations.py:54-55 | distinct labels drawn from a set are no more than the set |
| Counting.TopN | visualizations.py:83-86 | more than n rows: the first n plus one remainder row with the rest's total; otherwise unchanged; the total is kept |
| Counting.Filter | main.py:96 | kept elements satisfy the test, and every element that does is kept |
| Counting.FilterCount | main.py:96 | a kept value keeps every copy, a dropped value none |
| Counting.FilterAppend | main.py:96 | filtering keeps relative order |
| Counting.CountAppend | main.py:100 | counts over two frames add up |
| Counting.CountedIffPresent | visualizations.py:231 | a label is present exactly when its count is positive |
| Visualizations.JobTitleBars | visualizations.py:74-98 | with a selection: counts sum to the group size; more than 10 titles give exactly 11 rows, the last ("Others", listings of the titles beyond the tenth); otherwise one row per title; the first rows are (title, count) in non-increasing order; without a selection: one (group, number of its listings) row per label of the order, summing to the frame size |
| Visualizations.TitleBars | visualizations.py:77-86 | one group's bars: the first ten (title, count) rows by count, then ("Others", listings of every later title); the counts sum to the group size |
| Visualizations.ResidualCount | visualizations.py:84 | the counts beyond the cut sum to the listings with a title beyond the cut |
| Visualizations.Top | visualizations.py:53 | the first n labels of the order, or all of them when there are no more than n |
| Visualizations.TopMostFrequent | visualizations.py:53-54 | a platform that keeps its name is at least as frequent as every platform regrouped into "Others" |
| Visualizations.PlatformSlices | visualizations.py:52-55 | one slice per label of the grouped order, holding that label and its count in grouped_platform; slice counts sum to the number of listings; at most 7 slices, non-increasing, labelled by a top-6 platform or "Others" |
| Visualizations.SliceLabels | visualizations.py:53-55 | every grouped label is a top-6 platform or "Others", so there are at most seven |
| Visualizations.FewPlatforms | visualizations.py:53-54 | with 6 or fewer platforms every platform keeps its name, so no "Others" slice appears |
| Visualizations.CreatePlatformPie | visualizations.py:51-55 | grouped_platform becomes the platform or "Others"; the slices are counted from that column |
| Visualizations.LastNonSpace | visualizations.py:134 | the last non-blank position before j, with only blanks after it |
| Visualizations.ExtractStateCorrect | visualizations.py:134 | a state is extracted exactly when `,\s*([A-Z]{2})$` matches, and it is the captured pair |
| Visualizations.MatchIsFound | visualizations.py:134 | every match ends where the scan looks, and the pair before that end is returned |
| Visualizations.AustinExample | visualizations.py:134 | "Austin, TX" gives "TX" |
| Visualizations.RemoteExample | visualizations.py:134 | "Remote, Global" gives no state |
| Visualizations.SentinelsHaveNoState | visualizations.py:131-134 | neither sentinel location holds a state |
| Visualizations.MapFrame | visualizations.py:131 | the rows filtered by `~isin` of the two sentinels, in frame order; the kept locations are exactly the non-sentinel ones |
| Visualizations.MapFrameCount | visualizations.py:131 | every non-sentinel location keeps all its copies; a sentinel keeps none |
| Visualizations.States | visualizations.py:134-136 | every state value_counts sees is two upper-case letters |
| Visualizations.StatesCount | visualizations.py:134-136 | each state is seen as often as rows carry it in the state column |
| Visualizations.StatesLength | visualizations.py:134-136 | only the rows without a state are left out |
| Visualizations.StateOrder | visualizations.py:134-136 | every label of the value_counts order is a two-letter state counted from the state column |
| Visualizations.StateCounts | visualizations.py:129-140 | one row per label of the order, holding that state and the number of kept rows whose state it is; the counts plus the stateless rows make up the kept rows; two-letter labels; non-increasing |
| Counting.Present | visualizations.py:227 | `notna()` keeps the present values and only those, each present cell's value among them |
| Counting.PresentCount | visualizations.py:227 | each value is kept as often as it occurs in the column |
| Counting.PresentLength | visualizations.py:227 | exactly the missing cells are dropped |
| Counting.PresentAppend | visualizations.py:227 | keeping the present values keeps frame order |
| Visualizations.BandCounts | visualizations.py:229-231 | exactly 8 rows in band order; a band is missing exactly when no listing has it, otherwise it holds the number of listings whose salary_range it is |
| Visualizations.BandCountsTotal | visualizations.py:227-231 | the band counts plus the "Other" listings make up every listing with a range |
| Visualizations.SalaryOrderIsBands | visualizations.py:229 | the chart's band order is the bucketing's band list |
| Visualizations.CreateSalaryBarChart | visualizations.py:225-231 | the first failing salary's error is returned with the frame unchanged; otherwise every salary_range is written and the eight band rows are counted from it |
| Visualizations.SkillsFrom | visualizations.py:174 | the skill list exists exactly when every column "Top i type" does; entry j is (j + 1, that column's skill); otherwise KeyError |
| Visualizations.RowTable | visualizations.py:173-174 | succeeds exactly when the category column and all ten "Top i type" columns exist, otherwise KeyError; gives the category and the ten (i, skill) entries in order |
| Visualizations.CreateSkillTable | visualizations.py:170-222 | the loop's result is the row-by-row table fold, including its KeyError |
| Visualizations.SkillTablesKeys | visualizations.py:172-221 | the tables' keys are exactly the rows' categories |
| Visualizations.LastRowWins | visualizations.py:174-221 | a category's table holds the ten numbered skills of its last row |
| Visualizations.TablesErrStays | visualizations.py:172-174 | once a row fails, the result is that failure |
| Visualizations.TablesStep | visualizations.py:172-221 | one more complete row stores its list under its category |

## Left out

- Loading data: `load_data`, `load_skill_dataset` and the module-level `read_csv` calls are I/O.
- `parse_skills` is a wrapper around Python's literal parser, which is out of scope.
- Figure building and styling are not modelled: every `px.*` call, `update_layout` and `update_traces`, and `create_histograms`.
- The `DataTable` styling and the Dash app, callback and layout wiring are not modelled.
- layout.py is a component tree. The order of its `list(set(...))` is unspecified.
- app.py repeats the filter-and-count of main.py.
- The tie order of `value_counts` is a parameter, not a fixed rule, because pandas does not fix one.
- Float results are exact `real`s. IEEE rounding is not modelled, and NaN is modelled only as a missing value.
- Lower-casing and `\w` are ASCII only. Full Unicode case mapping and word classes are not modelled.
- Keywords are matched as literal text. None of the three tables holds a regular-expression metacharacter.
- NaN platforms, titles, categories and locations are not modelled. A platform, title or category is a plain string, and NaN locations survive the sentinel filter and give no state.
- ProcessData.ProcessDataOptimized: column dtypes are not modelled. A salary column whose every cell is empty (as `read_csv` gives it) has dtype float64, so `.str` at data_processing.py:53 raises AttributeError before anything is written. The model sees missing strings and returns the KeyError of an object column, with `lower_bound` written.
- Visualizations.JobTitleBars: `.loc[len(title_counts)]` adds the "Others" row under the label 10. The model treats that as an append. If the in-place sort moved the row labelled 10 into the first ten, pandas would overwrite that row instead; the model does not cover that.
- Visualizations.CreateSkillTable: the source iterates over a DataFrame. The model takes the rows as a sequence of column-to-value maps, so a missing column is a KeyError.
- Visualizations.CreatePlatformPie: the order of value_counts on the grouped column is a parameter, constrained like every other value_counts order.
- MainApp.AbigailSmithIsOther, MainApp.SeniorBeforeMarketing and MainApp.AnalystTwoIsSenior: stated for every title whose lower-cased form is the given text.
- DataProcessing.SeniorLevel and DataProcessing.GoogleAnalyticsDomain: stated the same way.
