# Carbon footprint tracker — aggregation core in Dafny

This project models the data-handling core of a small carbon footprint
tracker. A user records activities (a name, one of five categories, an
amount of CO₂ in kg and a timestamp). The dashboard then shows:

- one stacked category pie chart, with today's breakdown as the inner ring and the all-time breakdown as the outer ring;
- a calendar heatmap of daily totals, where clicking a day shows its activities;
- a line chart of totals per display date.

The model covers:

- **Activities** (`activities.dfy`): the activity record and the specification
  every aggregation is proved against. `GroupBy(acts, key)` lists one group per
  distinct key, in the order each key is first seen. Each group holds the sum
  of its activities' values and the activities themselves, in input order.
  `FindIndex` models `Array.prototype.find`.
- **DataVis** (`datavis.dfy`): `updateChartData` (the today filter and the
  category reduce), `updateHeatmapData` (the day reduce into a record,
  `Object.entries`, and the maximum floored at 1) and `loadActivities`. They
  are methods of a class whose fields are the component's four state hooks.
- **Summary** (`summary.dfy`): the `lineData` reduce, which groups by the
  "MMM D" display label. The label carries no year, so activities on the same
  month and day of different years are summed into one point
  (`LineSeriesIgnoresYear`). Points keep first-seen order and are never
  sorted by date.
- **HeatMap** (`heatmap.dfy`): the cell colour index
  `min(floor(count / max * 4) + 1, 5)`, `handleDayClick` and the popup's
  Close button.
- **ActivityForm** (`activity_form.dfy`): `handleChange`, `handleSubmit` and
  the effect that saves the draft. They are methods of a class holding the
  form, the stored activity list, the stored draft and a count of
  dispatched "activityUpdated" events.

Each reduce that the source writes as a step-by-step fold (`find`, then
`+=` or `push`) is a method with a loop, and its callback is a method of its
own. Each loop is proved equal to the `GroupBy` view of its input.
`GroupBySpec` states what that view guarantees,
and the `Names`/`Values`, `Dates`/`Contents` and `Labels`/`Values` lemmas
carry it over to each chart's data.

Opaque library calls are parameters:

- `dayKey` stands for `moment(d).format("YYYY-MM-DD")`.
- `dateLabel` stands for `moment(d).format("MMM D")`.
- `today` stands for `moment().format("YYYY-MM-DD")`.
- `parseFloat` and the current ISO time are parameters of the submit.
- The browser's local storage is modelled as fields and parameters.

Carbon values are `real`.

`handleSubmit` itself rejects only empty fields (`ActivityForm.tsx:46-49`).
A carbon value text that is negative or not a number passes that check, and
the record stores whatever `parseFloat` returns. `IsComplete` checks
non-emptiness only.

## Model

| member | source | states |
|---|---|---|
| Activities.WhereCounts | carbon_footprint_tracker/src/components/DataVis.tsx:48-50 | The filter keeps exactly the activities whose key matches, each as often as in the input, and drops every other activity. |
| Activities.Keys | carbon_footprint_tracker/src/components/DataVis.tsx:53-64 | The keys of the groups a reduce creates contain no duplicates. |
| Activities.KeysOccur | carbon_footprint_tracker/src/components/DataVis.tsx:53-64 | A key gets a group if and only if some activity has that key. |
| Activities.FirstIndex | carbon_footprint_tracker/src/components/DataVis.tsx:53-64 | Gives the position of the first activity with a given key: that activity has the key and no earlier one does. |
| Activities.KeysFirstSeen | carbon_footprint_tracker/src/components/DataVis.tsx:53-64 | Groups are ordered by the position where their key first appears in the input. |
| Activities.GroupByOne | carbon_footprint_tracker/src/components/DataVis.tsx:57-62 | A single activity forms a single group holding just that activity. |
| Activities.GroupByCovers | carbon_footprint_tracker/src/components/DataVis.tsx:53-64 | Some group has a key if and only if some activity has that key. |
| Activities.GroupBySpec | carbon_footprint_tracker/src/components/DataVis.tsx:53-64 | The groups have distinct keys, one per key present, in first-seen order. Each group holds exactly its key's activities in input order, with their sum. No activities give no groups. |
| Activities.GroupBySnocExisting | carbon_footprint_tracker/src/components/DataVis.tsx:54-56 | When the next activity's key already has a group, that group's total grows by the activity's value, the activity is appended to its members, and every other group is unchanged. |
| Activities.GroupBySnocNew | carbon_footprint_tracker/src/components/DataVis.tsx:57-62 | When the next activity's key has no group yet, a new group holding just that activity is appended at the end. |
| Activities.GroupByConservesTotal | carbon_footprint_tracker/src/components/DataVis.tsx:53-64 | The group totals add up to the sum of all input values, so nothing is lost or counted twice. |
| Activities.GroupByPermutes | carbon_footprint_tracker/src/components/DataVis.tsx:87-98 | The group member lists, taken together, are a permutation of the input. |
| Activities.GroupTotalsDependOnKeysAndValues | carbon_footprint_tracker/src/components/Summary.tsx:34-54 | Two inputs with the same keys and values position by position give the same group keys and totals. |
| Activities.KeysDependOnKeys | carbon_footprint_tracker/src/components/Summary.tsx:34-54 | Two inputs with the same keys position by position give the same group keys in the same order. |
| Activities.TotalDependsOnKeysAndValues | carbon_footprint_tracker/src/components/Summary.tsx:40-48 | Two inputs with the same keys and values position by position give the same total for every key. |
| Activities.FindIndex | carbon_footprint_tracker/src/components/DataVis.tsx:54 | Returns the first index whose element satisfies the predicate, or none exactly when no element does. |
| DataVis.CategoryBreakdownSnocExisting | carbon_footprint_tracker/src/components/DataVis.tsx:69-71 | An activity whose category already has a sector adds its value to that sector and to no other. |
| DataVis.CategoryBreakdownSnocNew | carbon_footprint_tracker/src/components/DataVis.tsx:72-77 | An activity with an unseen category appends a sector holding its category and value. |
| DataVis.AddToBreakdown | carbon_footprint_tracker/src/components/DataVis.tsx:69-78 | The reduce callback, applied to the breakdown of the activities seen so far, yields the breakdown of those activities followed by the next one. |
| DataVis.GroupByCategory | carbon_footprint_tracker/src/components/DataVis.tsx:68-79 | The find-then-add-or-push reduce yields exactly the category breakdown of its input. |
| DataVis.CategoryBreakdownNames | carbon_footprint_tracker/src/components/DataVis.tsx:53-64 | The breakdown has one sector per category present and no duplicate names. A name is present exactly when some activity has that category, and sectors are in first-seen order. |
| DataVis.CategoryBreakdownValues | carbon_footprint_tracker/src/components/DataVis.tsx:53-64 | Each sector's value is the sum over its category, and the values add up to the input's total. No activities give no sectors. |
| DataVis.TodayWithinAllTime | carbon_footprint_tracker/src/components/DataVis.tsx:45-64 | The today series uses exactly the activities whose day key is today's and sums to their total. Each of its categories also has a sector in the all-time series. |
| DataVis.TodayCategoriesAppearAllTime | carbon_footprint_tracker/src/components/DataVis.tsx:53-79 | Every category in the breakdown of a sub-collection of the activities has a sector in the breakdown of all of them. |
| DataVis.Entries | carbon_footprint_tracker/src/components/DataVis.tsx:101-105 | For a record whose keys are listed once each in insertion order, gives one entry per key of the record, in that order, with no two entries sharing a date. Each entry carries its key's count and activities. |
| DataVis.RecordSize | carbon_footprint_tracker/src/components/DataVis.tsx:101-105 | A record whose keys are listed once each has exactly as many keys as the list, so `Object.entries` yields one entry per key. |
| DataVis.DayRecordHas | carbon_footprint_tracker/src/components/DataVis.tsx:87-98 | The record the reduce builds (`DayRecord`, the fold of one step per activity) has an entry for a day key if and only if some activity has that day key. |
| DataVis.DayRecordAt | carbon_footprint_tracker/src/components/DataVis.tsx:87-98 | Each entry of the record the reduce builds (`DayRecord`) holds the sum of its day's values and exactly that day's activities, in input order. |
| DataVis.DayRecordStep | carbon_footprint_tracker/src/components/DataVis.tsx:88-96 | One step extends the record and its key order: a new day key is appended to the order and its entry starts empty, and either way the activity's value is added and the activity pushed. |
| DataVis.AddToDayRecord | carbon_footprint_tracker/src/components/DataVis.tsx:88-97 | The reduce callback, applied to the record of the activities seen so far, yields the record and key order of those activities followed by the next one. |
| DataVis.RecordEntries | carbon_footprint_tracker/src/components/DataVis.tsx:101-105 | The reduce's record and key order satisfy the `Object.entries` precondition (each key listed once, exactly the record's keys), and their entries are the daily breakdown. |
| DataVis.GroupByDay | carbon_footprint_tracker/src/components/DataVis.tsx:87-105 | The record reduce followed by the conversion to entries yields exactly the daily breakdown. |
| DataVis.MaxDailyValue | carbon_footprint_tracker/src/components/DataVis.tsx:108 | The maximum is at least 1 and at least every count, and it is either 1 or one of the counts. |
| DataVis.DayBreakdownDates | carbon_footprint_tracker/src/components/DataVis.tsx:84-111 | One entry per distinct day, with no duplicate dates. A date is present exactly when some activity falls on it, and entries are in first-seen order. |
| DataVis.DayBreakdownContents | carbon_footprint_tracker/src/components/DataVis.tsx:84-111 | Each count is the sum of its day's values, and each activity list is that day's activities in input order. Counts add up to the total, and the lists together are a permutation of the input. No input gives no entries and a maximum of 1. |
| DataVis.MaxDailyValueSnoc | carbon_footprint_tracker/src/components/DataVis.tsx:108 | One more entry raises the maximum to its count when that count is larger, and otherwise leaves it unchanged. |
| DataVis.ExampleGroups | carbon_footprint_tracker/src/components/DataVis.tsx:87-98 | Two activities on one day and one on another group into two groups, the first holding both activities and their sum. |
| DataVis.DayBreakdownExample | carbon_footprint_tracker/src/components/DataVis.tsx:84-111 | Values 3 and 2 on one day and 1 on another give entries 5 and 1, with maximum 5. |
| DataVis.DataVisState.constructor | carbon_footprint_tracker/src/components/DataVis.tsx:26-29 | Starts with empty series, no heatmap entries and a maximum of 1. |
| DataVis.DataVisState.UpdateChartData | carbon_footprint_tracker/src/components/DataVis.tsx:44-82 | Sets the today series to the breakdown of today's activities and the all-time series to the breakdown of all of them. The heatmap state is left unchanged. |
| DataVis.DataVisState.UpdateHeatmapData | carbon_footprint_tracker/src/components/DataVis.tsx:84-111 | Sets the heatmap to the daily breakdown and the maximum to its floored maximum, which is at least 1. The chart state is left unchanged. |
| DataVis.DataVisState.LoadActivities | carbon_footprint_tracker/src/components/DataVis.tsx:32-37 | Reads a missing stored list as empty, then sets all four pieces of state from that list. |
| Summary.LineSeriesSnocExisting | carbon_footprint_tracker/src/components/Summary.tsx:38-42 | An activity whose label already has a point adds its value to that point only. |
| Summary.LineSeriesSnocNew | carbon_footprint_tracker/src/components/Summary.tsx:43-49 | An activity with an unseen label appends a point holding its label and value. |
| Summary.AddToLine | carbon_footprint_tracker/src/components/Summary.tsx:35-52 | The reduce callback, applied to the series of the activities seen so far, yields the series of those activities followed by the next one. |
| Summary.LineData | carbon_footprint_tracker/src/components/Summary.tsx:34-54 | The find-then-add-or-push reduce yields exactly the line series grouped by display label. |
| Summary.LineSeriesLabels | carbon_footprint_tracker/src/components/Summary.tsx:34-54 | One point per distinct label, with no duplicates. A label is present exactly when some activity has it, and points are in first-seen order, not sorted by date. |
| Summary.LineSeriesValues | carbon_footprint_tracker/src/components/Summary.tsx:34-54 | Each value is the sum over its label, and the values add up to the total. No input gives no points. |
| Summary.LineSeriesIgnoresYear | carbon_footprint_tracker/src/components/Summary.tsx:36 | The series depends on dates only through their label, so dates with the same month and day in different years merge into one point. |
| HeatMap.ScaleIndex | carbon_footprint_tracker/src/components/HeatMap.tsx:55-58 | The index is at most 5. It is at least 1 for a non-negative count and exactly 1 for a zero count. It is 5 if and only if the count is at or above the maximum. Below 5, index n covers counts from (n-1) to n quarters of the maximum. |
| HeatMap.ScaleIndexMonotone | carbon_footprint_tracker/src/components/HeatMap.tsx:55-58 | For a fixed maximum, a larger count never gets a smaller index. |
| HeatMap.ClassForValue | carbon_footprint_tracker/src/components/HeatMap.tsx:52-59 | The class is empty exactly when there is no value. Otherwise it is filled with the value's colour index `ScaleIndex(count, max)`, between 1 and 5 for a non-negative count. |
| HeatMap.SelectDay | carbon_footprint_tracker/src/components/HeatMap.tsx:31-42 | No click value selects nothing. Otherwise it selects the first entry with the clicked date, or nothing when no entry has that date. |
| HeatMap.ClickShowsThatDay | carbon_footprint_tracker/src/components/HeatMap.tsx:40-41 | On the heatmap built from the activities, clicking a date shows that day's total and exactly its activities. A date without activities shows nothing. |
| HeatMap.HeatmapScalesInRange | carbon_footprint_tracker/src/components/HeatMap.tsx:55-58 | With the computed maximum, every entry's index is at most 5, at least 1 for a non-negative count, and 5 for the entry at the maximum. |
| HeatMap.HeatMapView.constructor | carbon_footprint_tracker/src/components/HeatMap.tsx:28-29 | Starts with no selected day. |
| HeatMap.HeatMapView.HandleDayClick | carbon_footprint_tracker/src/components/HeatMap.tsx:31-42 | Sets the selection to the day the click selects, and clears it for a click without a value. |
| HeatMap.HeatMapView.Close | carbon_footprint_tracker/src/components/HeatMap.tsx:75 | Clears the selection. |
| ActivityForm.SetField | carbon_footprint_tracker/src/components/ActivityForm.tsx:38 | The named field takes the new value and the other two keep theirs. |
| ActivityForm.IsCompleteIffNoEmptyField | carbon_footprint_tracker/src/components/ActivityForm.tsx:46-49 | A submit passes validation if and only if no field is empty. |
| ActivityForm.ActivityFormState.constructor | carbon_footprint_tracker/src/components/ActivityForm.tsx:18-27 | The form starts as the saved draft if there is one, otherwise as empty fields. |
| ActivityForm.ActivityFormState.PersistDraft | carbon_footprint_tracker/src/components/ActivityForm.tsx:30-32 | The saved draft becomes the current form, and nothing else changes. |
| ActivityForm.ActivityFormState.HandleChange | carbon_footprint_tracker/src/components/ActivityForm.tsx:34-39 | Only the named field changes. The stored list, the draft and the event count are untouched. |
| ActivityForm.ActivityFormState.HandleSubmit | carbon_footprint_tracker/src/components/ActivityForm.tsx:42-78 | The submit saves if and only if no field is empty. A rejected submit changes nothing. A successful one appends exactly one record with the form's name and category, the parsed value and the given time, keeps the earlier records, resets the form, removes the draft and dispatches one update. |
| ActivityForm.SubmitCommute | carbon_footprint_tracker/src/components/ActivityForm.tsx:34-78 | Filling "Commute", "Transportation" and "2.5" on a fresh form and submitting stores exactly that one record and leaves an empty form. |

## Left out

- Rendering is not part of this model: the JSX, recharts, react-calendar-heatmap, the popup markup and the class-name strings. `CellClass` stands for the two class-name shapes.
- StackedPieChart.tsx is not part of this model. It only draws the two breakdowns as the inner and outer rings of one pie.
- mainPage.tsx is not part of this model. It keeps a dark-mode flag saved in local storage (`mainPage.tsx:9-20`). It also reads the stored activity list into the state passed to `Summary` (`mainPage.tsx:22-33`, `49`), on mount and on each dark-mode toggle only. Only DataVis listens for "activityUpdated", so the line chart is not refreshed after a submit. When `Summary`'s input is refreshed is not modelled; `LineData` is stated for whatever list it is given.
- The browser's own check on the form is not modelled. The inputs are `required` and the carbon field is a number input with `min="0"` and `step="0.1"` (`ActivityForm.tsx:83-131`). So the browser stops a submit with an empty, negative or off-step value before `handleSubmit` runs, and clears text that is not a number to "". `HandleSubmit` models `handleSubmit` alone, which sees whatever field texts it is given.
- Browser I/O is represented rather than performed. Local storage becomes fields and parameters, JSON parsing is left out, and `alert` is left out. The "activityUpdated" event listener becomes a counter on the form plus the `LoadActivities` method it would trigger.
- React's render scheduling and effect timing are left out. After a submit, the draft-saving effect runs again on the reset form and stores an empty draft. This is `PersistDraft`, a separate call, and `HandleSubmit` leaves the draft removed.
- Date formatting and the clock are parameters (`dayKey`, `dateLabel`, `today`, `now`), not moment.js or `Date`.
- Carbon values are exact reals, not IEEE-754 doubles. Rounding in repeated `+=` is not modelled. Neither is the `NaN` that `parseFloat` returns for text that is not a number.
- ScaleIndex: requires a positive maximum. The maximum the component computes is always at least 1. A JavaScript maximum of 0 or below, giving `Infinity` or `NaN` in the division, is not modelled.
- ClassForValue: requires a positive maximum, for the same reason as `ScaleIndex`.
- `Object.entries` lists integer-like keys before the others, in numeric order. `Entries` uses plain insertion order, which agrees with the source for every "YYYY-MM-DD" key, since those are never integer-like. The record is a plain `{}`, so `!acc[date]` (`DataVis.tsx:89`) would also see inherited properties such as "toString" or "__proto__" as present. `DayRecord` treats every key as absent until the reduce adds it. This agrees with the source for "YYYY-MM-DD" keys and "Invalid date", but not for a `dayKey` that returns one of those property names.
- The source's reduces mutate the found accumulator object in place. In the heatmap, the activity arrays of the entries are the same arrays the record built. The model replaces values instead, so object identity and aliasing are not captured.
- HeatMap.HeatMapView: the two props are constants of the view. A parent re-render that passes new props while a day is selected is not modelled.
- The heatmap's one-year display window (`startDate`/`endDate`) only affects which cells the calendar draws, so it is not modelled.
