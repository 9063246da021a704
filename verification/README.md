# Weekly agent funnel — a Dafny model

This project models the core of the AskVinny weekly agent performance
dashboard (`app.py`):

- the aggregation query of `load_weekly_data`. Viewings with a person are
  bucketed into ISO 8601 Monday-start weeks. They are left-joined to
  prospects by person and grouped by (agent, week). Each group reports
  distinct viewers, distinct applicants, distinct "Current" tenants,
  `week_end` and three rounded rates, ordered by (week, agent);
- week selection: the sorted distinct week list, the session's stored
  index (the most recent week at first), and the jump that snaps a picked
  date to its Monday and to the nearest week of the dataset;
- the selected week's view: its rows, its start..end window, its top agent,
  and the recomputed "View→App (%)" column.

Representation:

- Days are integers counted from Monday 29 December 1969, so the weekday
  is `d % 7`; Monday 1 January 2024 is day 19726.
- Rates are integer tenths of a percent (`400` is 40.0%). SQL `NULL` is
  `Option.None`.
- Distinct counts are cardinalities of sets of person ids.
- The session's `selected_index` is an explicit `Session` value. Both
  `SelectNearest` and `ResolveWeek` take it in and return it updated.

Modules: `Basics` (Option), `Dates`, `Rates`, `Ordering` (string order,
sorted distinct lists, filtering), `Funnel` (the query), `FunnelProperties`,
`WeekResolver`, `WeekView`.

The query is written out clause by clause: `Cleaned`, `Matches`,
`JoinVisit`, `LeftJoin`, then grouping with `GroupPersons`,
`GroupApplicants` and `GroupTenants`. Its partner is a reference stated on
sets: `Viewers`, `AppliedPersons` and `CurrentPersons`. The `Join*` lemmas
prove that grouping the join computes exactly those sets. `Aggregate`'s
contract states the whole result against the reference.

The model follows what app.py does, including these points where the
code's behaviour is easy to misread:

- A zero denominator gives NULL (`NULLIF`), not 0. It cannot arise for the
  two rates over viewings, because every group has a viewer.
- The date input always runs. Its default is the selected week, so an
  untouched input re-selects the same week (`ResolveWeek`).
- With no weeks at all, the lookup `valid_weeks[-1]` fails with an index
  error (`IndexOutOfRange(-1)`) before any "no data" state is reached.
- A stored index is read with Python indexing: a negative index counts
  from the end.
- The date parse `TO_DATE` does not skip malformed rows; the model takes
  parsed days.

## Model

| member | source | states |
|---|---|---|
| Dates.WeekStart | app.py:62 | the bucket of a day is a Monday `s` with `s <= d < s + 7` |
| Dates.WeekStartUnique | app.py:62 | a Monday `s` with `s <= d < s + 7` is the bucket of `d`, so weeks are disjoint |
| Dates.Weekday | app.py:99 | `weekday()` is below 7 and subtracting it lands on a Monday |
| Dates.SameWeek | app.py:62 | two days share a bucket exactly when the second lies in the first's Monday-to-Sunday window |
| Rates.RoundHalfUp | app.py:74-76 | the result is within half a unit of `n / d`, a half going up |
| Rates.Rate | app.py:74-76 | NULL exactly when the denominator is 0, otherwise within half a tenth of `100 * num / den` |
| Rates.NearestUnique | app.py:74-76 | at most one integer is within half a unit, halves up, so the rounded rate is determined |
| Rates.RateAtMostFull | app.py:74-76 | a numerator not above its non-zero denominator gives at most 100.0% |
| Rates.RateExact | app.py:74-76 | an exact ratio in tenths is returned unchanged |
| Rates.RoundHalfEven | app.py:175-180 | pandas rounding: within half a unit, and an exact half goes to the even neighbour |
| Rates.HalfEvenAgreesOffTies | app.py:175-180 | away from an exact half the two roundings agree |
| Rates.HalfEvenDiffersAtTie | app.py:175-180 | at 62.5 the SQL rounding gives 63 and pandas gives 62 |
| Ordering.StrLessIsStrictTotalOrder | app.py:77 | the agent order is irreflexive, transitive and total |
| Ordering.Insert | app.py:87 | inserting into a strictly sorted list keeps it strictly sorted and adds exactly the one value |
| Ordering.SortedDistinct | app.py:87 | `sorted(unique(xs))` is strictly sorted and has exactly the values of `xs` |
| Ordering.SortedUnique | app.py:77 | two strictly sorted lists with the same values are equal, so the output order is determined |
| Ordering.Filter | app.py:114 | the filter keeps exactly the elements satisfying the condition, and no more of them than the input has |
| Ordering.FilterMultiset | app.py:114 | each kept element occurs as often as in the input and every other element is dropped, so the mask neither repeats nor loses a row |
| Ordering.FilterSorted | app.py:114 | the filter keeps a strictly sorted list strictly sorted |
| Funnel.KeyLessIsStrictTotalOrder | app.py:77 | `ORDER BY week_start, agent` is a strict total order on groups |
| Funnel.Cleaned | app.py:56-59 | the cleaned visits are exactly the viewings whose person is not NULL |
| Funnel.Matches | app.py:67 | the prospects joined to a person are exactly those with that person id |
| Funnel.JoinVisit | app.py:64-67 | a visit gives at least one joined row of its person and group; some row is applied (current) exactly when the person has an applied (current) prospect |
| Funnel.LeftJoin | app.py:66-67 | the joined rows are exactly the rows some visit contributes |
| Funnel.GroupKeys | app.py:68 | the grouping column holds exactly the groups of the joined rows |
| Funnel.JoinKeys | app.py:66-68 | the groups of the join are the groups of viewings with a person |
| Funnel.JoinPersons | app.py:63-68 | a group's distinct persons are its viewers |
| Funnel.JoinApplicants | app.py:64-68 | a group's distinct applicants are its viewers who have an applied prospect, however many prospect rows each has |
| Funnel.JoinTenants | app.py:65-68 | a group's distinct tenants are its viewers who have a "Current" prospect |
| Funnel.Aggregate | app.py:55-77 | rows strictly ascending by (week, agent); one row per observed group and none other; each row's counts are the reference sets' sizes and its rates those counts' rates |
| FunnelProperties.AggregateRowFacts | app.py:62-76 | each row is Monday-aligned with `week_end = week_start + 6`; viewings at least 1; applications and tenants at most viewings; both rates over viewings present and at most 100.0%; app→tenant NULL exactly when applications are 0 |
| FunnelProperties.AggregateWellFormed | app.py:55-77 | the output keeps the row invariant and the (week, agent) order |
| FunnelProperties.ViewingBucketed | app.py:61-68 | each viewing with a person is counted among the viewers of its agent's row whose window holds its day |
| FunnelProperties.ViewingBucketUnique | app.py:61-68 | a row of the viewing's agent whose window holds its day is the viewing's own group, so the viewing lands in one row only |
| FunnelProperties.AggregateKeysDistinct | app.py:68 | no (agent, week) group appears in two rows |
| FunnelProperties.AggregateDeterminedBySets | app.py:63-68 | the output depends only on which groups occur, who viewed in each, and who applied or is current |
| FunnelProperties.DuplicateViewingIgnored | app.py:63 | repeating a viewing row leaves the output unchanged |
| FunnelProperties.ExtraProspectIgnored | app.py:64-67 | another prospect row for a person already counted as applied or current leaves the output unchanged |
| FunnelProperties.AppToTenantCanExceedFull | app.py:75 | two current viewers of whom one applied give an app→tenant rate of 200.0% |
| FunnelProperties.TenFourTwoScenario | app.py:72-76 | 10 viewers, 4 applicants and 2 tenants give 40.0%, 50.0% and 20.0%, and the week ends six days on |
| FunnelProperties.GroupsAreObserved | app.py:68-77 | the output groups are strictly ascending and are exactly the observed groups |
| FunnelProperties.AggregateEmpty | app.py:56-68 | the output is empty exactly when no viewing has a person |
| WeekResolver.WeekStarts | app.py:87 | the `week_start` column holds exactly the rows' weeks |
| WeekResolver.WeekList | app.py:87 | the week list is strictly ascending and holds exactly the rows' weeks |
| WeekResolver.WeekAt | app.py:93 | the lookup succeeds exactly for Python-valid indices and then returns the week at that index, a negative index wrapping to `len + index`; otherwise it fails with that index |
| WeekResolver.InitialSelectionIsLatest | app.py:88-93 | the first selection is the most recent week; with no weeks it fails on index -1 |
| WeekResolver.FirstNearestUnique | app.py:102 | at most one index is the first nearest |
| WeekResolver.ArgMinFrom | app.py:102 | the scan ends on the first index of least distance from the snap |
| WeekResolver.NearestIndex | app.py:102 | `argmin` returns a least-distance index with every earlier week strictly farther |
| WeekResolver.SelectNearest | app.py:97-106 | fails exactly on no weeks and keeps the session; otherwise returns the first nearest week to the picked date's Monday, returns the snap itself when present, and stores its index |
| WeekResolver.SnapToPresentWeek | app.py:99-102 | a picked date whose Monday is a listed week selects that week's index |
| WeekResolver.SnapIdempotent | app.py:99-106 | jumping to the week just selected selects it again |
| WeekResolver.ResolveWeek | app.py:87-106 | fails exactly when the stored or initial index is out of range; otherwise stores the selected index; an untouched date input keeps the selected week and index |
| WeekResolver.WeekListMondays | app.py:87 | the weeks of well-formed rows are Mondays |
| WeekResolver.WeekListEmpty | app.py:87 | the week list is empty exactly when there are no rows |
| WeekResolver.JumpScenario | app.py:88-106 | with weeks 1, 8 and 15 January 2024 the first selection is the 15th; Wednesday the 10th snaps to the 8th, index 1 |
| WeekView.RowsOfWeek | app.py:114 | the week's rows are exactly the rows whose `week_start` is the week, each as many times as it occurs in the input |
| WeekView.ViewOf | app.py:112-120 | the view holds exactly the week's rows, each as many times as in the input; its window starts on the week and ends six days later |
| WeekView.ViewRoundTrip | app.py:114-120 | for a listed week the view is not empty, each row's start and end equal the window's, and its agents are strictly ascending |
| WeekView.TopIndex | app.py:133 | none exactly when every rate is NULL; otherwise the first row of the largest non-NULL conversion rate |
| WeekView.TopAgent | app.py:133-134 | the top agent is the agent of the first maximal row, absent only when every rate is NULL |
| WeekView.TopAgentExists | app.py:125-134 | a listed week's view has a non-NULL rate, so it has a top agent |
| WeekView.ViewToAppDisplay | app.py:175-180 | 0 when viewings are 0 (infinity and NaN); otherwise within half a tenth of `100 * applications / viewings` |
| WeekView.DisplayMatchesRate | app.py:175-180 | on a well-formed row, away from an exact half, the column equals `view_to_app_rate` |
| WeekView.DisplayDiffersAtHalf | app.py:175-180 | one applicant among sixteen viewers shows 6.2 while `view_to_app_rate` is 6.3 |

## Left out

- Page setup, styling, titles, metrics widgets, the bar chart, column renaming and the data table are rendering (app.py:12-37, 138-166, 183-200).
- The database URL, `create_engine` and `pd.read_sql` are I/O and configuration (app.py:43-47, 79). The query is modelled as a function of the two tables.
- The one-hour `st.cache_data` memoisation is a library decorator (app.py:53).
- `TO_DATE(..., 'DD/MM/YYYY')` is database library semantics (app.py:57). Days are taken already parsed, and a NULL or unparseable date is not modelled.
- The agent column is a non-NULL string. A NULL agent group is not modelled.
- Agents are ordered by code point. The database's collation for `ORDER BY agent` is not modelled.
- Rates use the exact ratio. PostgreSQL's numeric division keeps at least 16 significant digits before `ROUND`. That cannot move a ratio of realistic counts across a rounding boundary, but it is not modelled.
- ViewToAppDisplay: follows the exact ratio with half-to-even rounding, not floating point. On an exact half whose ratio is not a binary fraction, the float product may land either side, and which side is not modelled.
- Timezone stripping, `normalize` and `strftime` labels are library formatting (app.py:87, 112-113, 103, 122, 197-199).
- The average conversion rate is a floating-point mean (app.py:136).
- The `round(top_row[...], 1)` of an already rounded rate changes nothing (app.py:135).
- The streamlit rerun loop and widget state are external. `ResolveWeek` models one run, given the stored index and the date input's value.
- TopIndex: a week whose every rate is NULL gives None, whereas pandas returns NaN or raises depending on its version. Such a week cannot occur, because every row has at least one viewing (`TopAgentExists`).
