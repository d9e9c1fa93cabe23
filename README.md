# Real-estate ZIP dashboard: verified model of its data and view logic

The dashboard shows real-estate metrics per ZIP code in a grid, two scatter plots, KPI cards
and a tag bar. Almost all of it is presentational wiring over a grid and a charting library.
This project models the logic underneath, in Dafny:

- **Merge and aggregate** (`DataTransforms`, `src/utils/dataTransforms.ts`):
  - the zip-to-score dictionary, built by assigning entry after entry;
  - the left outer join of the ZIP rows with the fit scores;
  - the KPI summary;
  - the chart-point selection filter;
  - the sorted list of distinct states.
- **Dashboard view state** (`App`, `src/App.tsx`):
  - the class `Dashboard` holds the state fields and their setters (remove a tag, clear,
    replace the selection, search, toggle "Selected only", change the KPI, data loaded);
  - the derived values `tableRows`, `kpis`, `filteredRows`, `tags` and `levelStats` are
    functions of that state.
- **List rules inside UI components**:
  - `FiltersBar`: state toggling, the three-column split, Clear and the button label;
  - `KpiDropdown`: the selected option with its fallback, the label search, "No results" and
    choosing an option;
  - `ChartPanel`: the selection filter `toPoints`, `hasSelection`, the key classes, the
    `KPI_OPTIONS` table and the Y-axis caption.

The helper modules model the JavaScript built-ins the code relies on:

- `Text`: `trim`, `toLowerCase`, `includes` and the decimal rendering of a number;
- `Seqs`: `filter`, and the subsequence relation used to state "order kept, nothing added";
- `Sorting`: the default `sort` of strings.

A filter is specified in two parts. First, the result is a subsequence of the input. Second,
every value occurs in the result exactly as often as in the input when it passes the test, and
otherwise not at all. Together these fix the result uniquely.

Where the design description and the code differ, the model follows the code:

- The search box matches against the single lower-cased string `zip + " " + city + " " + state`.
  It does not test zip, city and state one by one. So a query can also match across the
  separating spaces (`App.FieldMatchIsFound` proves only the field-to-haystack direction).
- Zip codes are not checked to be unique. Repeated fit-score entries for one zip resolve to
  the last one, and repeated rows are all kept.

Numbers are `real`. A `ZipRecord` keeps the four columns the logic reads as fields. All other
columns go by name into `others`, which every operation carries through unchanged.

## Model

| member | source | states |
|---|---|---|
| `DataTransforms.ScoreIndexLastWins` | src/utils/dataTransforms.ts:3-7 | the dictionary has a key for exactly the zips that have an entry, and its value is the score of the last entry for that zip |
| `DataTransforms.ScoreIndexCorrect` | src/utils/dataTransforms.ts:3-7 | the same, for every zip at once |
| `DataTransforms.LastScoreUnique` | src/utils/dataTransforms.ts:3-7 | "the score of the last entry for a zip" names one score only |
| `DataTransforms.FitScoreMap` | src/utils/dataTransforms.ts:3-7 | the loop that assigns entry after entry ends with the dictionary above: keys are exactly the zips with entries, and the last write wins |
| `DataTransforms.MergeFitScores` | src/utils/dataTransforms.ts:9-15 | same length and order as the rows; row i is carried unchanged; its score is absent iff no entry has its zip, else the last entry's score |
| `DataTransforms.CalcKpis` | src/utils/dataTransforms.ts:17-26 | the average is 0 for no rows, else the average times the row count is the left-to-right sum of rent growth; both fit-score fields are `fit_score_overall` |
| `DataTransforms.SumBounds` | src/utils/dataTransforms.ts:19 | with every rent growth in [lo, hi], n·lo ≤ sum ≤ n·hi |
| `DataTransforms.AverageWithinBounds` | src/utils/dataTransforms.ts:18-19 | the average of a non-empty row list lies between the smallest and the largest rent growth |
| `DataTransforms.SingleRowExample` | src/utils/dataTransforms.ts:9-26 | one NY row with one matching score of 90 gets score 90, and the KPIs are 5, 80, 80 |
| `DataTransforms.FilterChartPoints` | src/utils/dataTransforms.ts:28-34 | a subsequence of the points holding every point whose zip is selected, with its multiplicity, and no other point; an empty selection gives no points |
| `DataTransforms.Dedupe` | src/utils/dataTransforms.ts:37 | the `Set` of states: no repetitions, exactly the values of the input, no longer than it |
| `DataTransforms.UniqueStates` | src/utils/dataTransforms.ts:36-39 | strictly ascending, so without duplicates, and holding exactly the states of the rows |
| `DataTransforms.UniqueStatesIsTheSortedListing` | src/utils/dataTransforms.ts:36-39 | every strictly sorted listing of the rows' states equals the result |
| `Sorting.Sort` | src/utils/dataTransforms.ts:38 | the default string sort of a repetition-free list is strictly ascending and a permutation of its input |
| `Sorting.LessTransitive` | src/utils/dataTransforms.ts:38 | the default string order is transitive |
| `Sorting.LessTotal` | src/utils/dataTransforms.ts:38 | any two different strings are ordered one way or the other |
| `Sorting.StrictlySortedUnique` | src/utils/dataTransforms.ts:38 | two strictly sorted lists with the same values are equal |
| `App.TableRows` | src/App.tsx:39-42 | empty while no fit scores are loaded; afterwards one row per raw row, in order, carrying that raw row, and exactly the merge of the raw rows with the loaded scores (so each score is the zip's last entry, or none) |
| `App.Kpis` | src/App.tsx:44 | a summary exists iff fit scores are loaded; it is the KPI summary of the table rows: both score fields carry the overall score, and the average is 0 for no rows and otherwise times the row count gives the rent-growth sum |
| `App.FilteredRows` | src/App.tsx:46-58 | a subsequence of the table rows; a row is kept, with its multiplicity, iff it passes "Selected only" and either the search is blank or the lower-cased `zip city state` contains the trimmed, lower-cased search |
| `App.SelectedOnlyWithoutSelectionShowsNothing` | src/App.tsx:48-50 | "Selected only" with an empty selection shows no row for any search |
| `App.NoFilterShowsAll` | src/App.tsx:47-52 | "Selected only" off and a blank search show the table rows unchanged |
| `App.HaystackParts` | src/App.tsx:55 | the haystack is the lower-cased zip, city and state joined by single spaces |
| `App.FieldMatchIsFound` | src/App.tsx:55-56 | a search text contained in the lower-cased zip, city or state alone is found in the haystack |
| `App.Tags` | src/App.tsx:76-79 | one tag per selected zip, same order; tag i has value zip i and caption `"ZIP: " + zip i` |
| `App.TagsAfterRemove` | src/App.tsx:103 | the tags after removing a zip are the previous tags without that zip's tags, in order |
| `App.StatsOf` | src/App.tsx:60-67 | `zips` is the row count, `msas` is 0, and `states` is the number of distinct states; this equals the length of the unique-states list and is at most the row count |
| `App.Dashboard.constructor` | src/App.tsx:13-18 | the initial state: no rows, no scores, no selection, KPI `appreciation`, empty search, "Selected only" off |
| `App.Dashboard.DataLoaded` | src/App.tsx:26-28 | stores the rows and the scores; the view state is untouched; the table then has one row per loaded row |
| `App.Dashboard.RemoveTag` | src/App.tsx:103 | the zip leaves the selection entirely; the others stay in order; the tags lose exactly that zip's tags; nothing else changes |
| `App.Dashboard.ClearTags` | src/App.tsx:103 | the selection and the tags become empty; nothing else changes |
| `App.Dashboard.SetSelection` | src/App.tsx:113 | the grid's selected zips become the selection as reported; nothing else changes |
| `App.Dashboard.SetSearchText` | src/App.tsx:115 | the search text is replaced; nothing else changes |
| `App.Dashboard.ToggleSelectedOnly` | src/App.tsx:117 | "Selected only" flips; nothing else changes |
| `App.Dashboard.ChangeKpi` | src/App.tsx:106 | the chosen metric becomes the selected KPI; nothing else changes |
| `App.ToggleTwice` | src/App.tsx:117 | flipping "Selected only" twice restores the flag and the visible rows |
| `Text.Trim` | src/App.tsx:47 | the result is the slice of the input left between its leading and trailing white space: everything before and after it is white space, and it neither starts nor ends with white space |
| `Text.TrimEmptyIffBlank` | src/App.tsx:47-52 | the trimmed search is empty iff the search is only white space |
| `Text.ToLower` | src/App.tsx:55 | same length; each ASCII upper-case letter becomes its lower-case letter (code + 32); every other character kept |
| `Text.ContainsIffWindow` | src/App.tsx:56 | `includes` holds iff some window of the text equals the needle |
| `Text.ContainsWithin` | src/App.tsx:55-56 | what occurs in one part of a concatenation occurs in the whole |
| `Seqs.Filter` | src/App.tsx:54-57 | each value occurs in the result as often as in the input when it passes the test, otherwise not at all |
| `Seqs.FilterIsSubsequence` | src/App.tsx:54-57 | a filter keeps the input's order |
| `Seqs.SubsequenceTransitive` | src/App.tsx:48-57 | a subsequence of a subsequence is a subsequence |
| `Seqs.Remove` | src/App.tsx:103 | the value is gone; every other value keeps its multiplicity; a list without the value is unchanged |
| `Seqs.DistinctCardinality` | src/App.tsx:62 | a list without repetitions is as long as the set of its values |
| `FiltersBar.ToggleState` | src/components/filters/FiltersBar.tsx:28-34 | an unselected state is appended; a selected one is removed entirely, with the others kept in order; membership of the state flips |
| `FiltersBar.ToggleTwiceRestores` | src/components/filters/FiltersBar.tsx:28-34 | toggling an unselected state twice restores the selection |
| `Seqs.RemoveAppended` | src/components/filters/FiltersBar.tsx:31-32 | removing a value just appended to a list without it gives the list back |
| `FiltersBar.ClearStates` | src/components/filters/FiltersBar.tsx:85-87 | Clear hands over the empty selection whatever was selected, and the button reads "Select states" again |
| `FiltersBar.CeilDiv` | src/components/filters/FiltersBar.tsx:40 | `Math.ceil(n / d)`: the least q with q·d ≥ n |
| `FiltersBar.Slice` | src/components/filters/FiltersBar.tsx:41 | `slice` clamps both bounds to the length and is empty when they cross |
| `FiltersBar.StateColumns` | src/components/filters/FiltersBar.tsx:38-42 | exactly three columns; concatenated they give back the states; each holds at most ceil(n/3); a column is short only when every later column is empty, which fixes the split at ceil(n/3) and 2·ceil(n/3); all are empty for no states |
| `FiltersBar.ButtonLabel` | src/components/filters/FiltersBar.tsx:58 | "Select states" iff nothing is selected; otherwise the label is digits without a leading zero that read back as the count, then " selected" |
| `Text.DecimalRoundTrip` | src/components/filters/FiltersBar.tsx:58 | the rendered count reads back as the count |
| `KpiDropdown.FindByValue` | src/components/chart/KpiDropdown.tsx:20 | the index of the first option with the value, or none iff no option has it |
| `KpiDropdown.SelectedOption` | src/components/chart/KpiDropdown.tsx:20 | the first option with the value when one exists; otherwise the first option, or nothing for no options |
| `KpiDropdown.FilteredOptions` | src/components/chart/KpiDropdown.tsx:22-25 | a subsequence of the options holding exactly the options whose lower-cased label contains the lower-cased query; all options for an empty query |
| `KpiDropdown.ShowsNoResults` | src/components/chart/KpiDropdown.tsx:65 | "No results" shows iff no option's label matches the query |
| `KpiDropdown.Choose` | src/components/chart/KpiDropdown.tsx:57-60 | reports exactly the option's value and closes the panel; the query stays |
| `ChartPanel.AllKeysComplete` | src/types/data.ts:90-98 | the key list holds every chart key once |
| `ChartPanel.KeyClasses` | src/components/chart/ChartPanel.tsx:40-49 | six keys are percentages, only `median_rent` is currency, only `total_population` is a count, and no key is in two classes |
| `ChartPanel.ParseKey` | src/components/chart/ChartPanel.tsx:85 | reads a column name back to its key, or none when no key has that name |
| `ChartPanel.KeyNameRoundTrip` | src/components/chart/ChartPanel.tsx:85 | a key's name reads back as that key |
| `ChartPanel.KpiOptionValuesDistinct` | src/components/chart/ChartPanel.tsx:10-16 | no two `KPI_OPTIONS` entries share a value |
| `ChartPanel.KpiOptionsAreTheMetrics` | src/components/chart/ChartPanel.tsx:8-16 | a key has a `KPI_OPTIONS` entry iff it is a `ChartMetric`; every entry carries its `labelMap` caption, so the cast of a chosen value holds |
| `ChartPanel.YAxisName` | src/components/chart/ChartPanel.tsx:103 | the caption of the `KPI_OPTIONS` entry: the `labelMap` caption for a metric, and "" for any other key |
| `ChartPanel.ToPoints` | src/components/chart/ChartPanel.tsx:59-62 | a subsequence of the rows holding every row whose zip is selected, with its multiplicity, and no other row |
| `ChartPanel.HasSelection` | src/components/chart/ChartPanel.tsx:65-66 | the plots are drawn iff some row's zip is selected |

## Left out

- Number formatting (src/utils/format.ts and `formatValue` in ChartPanel.tsx:51-57) is left out. It wraps `Intl.NumberFormat`, `toLocaleString` and `toFixed`. Its one rule is that null or undefined show a placeholder glyph. The NaN placeholder in ChartPanel.tsx:52 is a mis-encoded dash.
- The loading effect is left out (src/services/dataService.ts, App.tsx:22-37): the `fetch` calls, the `Promise.all` join and the loading and error flags. `App.Dashboard.DataLoaded` stands for the moment both loads have resolved.
- The grid component (src/components/table/DataTable.tsx) is not part of this model. It is the configuration of a foreign grid API. `App.Dashboard.SetSelection` takes the zips it reports.
- Presentational components are not part of this model: HeaderBar, KpiCards, TagsBar, Button, Checkbox, Select, Dropdown, Tag and IconArrow. Neither are the segment list, the chart rendering, and the `open` flags that only toggle what is drawn.
- The rent-growth sum and average use exact reals, with no IEEE rounding, NaN or infinities.
- Text.ToLower: maps only ASCII `A`–`Z`. The source's `toLowerCase` applies full Unicode case mapping.
- Strings are sequences of Unicode scalar values, not UTF-16 code units. Sorting.Less therefore orders characters outside the Basic Multilingual Plane by code point, while the source's `sort` orders them by surrogate code unit.
- DataTransforms.MergeFitScores: treats the score dictionary as a plain map. In the source the dictionary is an object literal, so a zip such as `"constructor"` or `"toString"` would find an inherited property instead of `null`. ZIP codes are digit strings, so this never arises in the data.
- `new Set(...)` membership is modelled as membership in the list itself; the two agree.
