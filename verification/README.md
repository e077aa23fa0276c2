# Dining punch categorisation — a Dafny model

The dining punch application takes an uploaded table of employee time punches
(`EmployeeID`, `FirstName`, `Department`, `Date`, `Time`). It sorts each punch
into a meal window: Dinner, "Launch" (the label the application writes for the
midday meal, `dinning_punch_app.py:50`) or Breakfast. It drops punches it cannot use and pivots
the rest into one row per (employee, name, department, category) and one
column per date. Each cell lists that group's punch times joined with `", "`.

This project models that processing step as pure functions and proves what it
computes:

- `Schema` — the required-column check, done before any row is looked at.
- `Clock` — times of day as whole seconds since midnight (0 to 86399). It also
  models their `HH:MM:SS` text, which is what `str` prints for a time of day
  without a fractional part.
- `MealWindows` — the classifier: three inclusive windows checked in the fixed
  order Dinner, Launch, Breakfast. `FirstMatch` is first-match over any
  priority list and serves as the reference for the classifier.
- `SeqFilter` — map-then-drop over a sequence, with the indices it keeps. Both
  filtering steps have this shape.
- `Punches` — rows, punches, classified punches, and the two drops. A row is
  dropped when its date or time did not parse, or when its time has no
  category.
- `Pivot` — the group-by into a map from row key to date to time texts, and
  the `", "` rendering of its cells. `Times` is the per-cell reference
  definition.
- `CellText` — joining with `", "` and reading a rendered cell back.
- `Pipeline` — the whole step: a `MissingColumns` error, or the rendered table.
  It also proves the end-to-end properties in terms of the uploaded rows.
- `WorkedExample` — one five-row upload, computed exactly.

Date and time parsing are not modelled. A `Row` carries what the two coerce
parses produced: the `DD-MM-YYYY` text of a parsed date, or `None`, and a parsed
time of day, or `None`.

Three details of the script that the model keeps exactly:
- The midday category is labelled `"Launch"` (`dinning_punch_app.py:50`), the
  name the instructions also use (line 17).
- The column check (lines 31-32) only asks that the five names be present.
  Extra columns and any column order are accepted, although the instructions
  (lines 9-14) describe five columns in a fixed order.
- The name column is `FirstName` in the check (line 31), in the instructions
  (line 11) and in the error text (line 33).

## Model

| member | source | states |
|---|---|---|
| Schema.AllPresent | dinning_punch_app.py:32 | the `all(...)` test holds exactly when every required name is among the columns |
| Schema.HasRequiredColumns | dinning_punch_app.py:31-33 | the check passes exactly when `EmployeeID`, `FirstName`, `Department`, `Date` and `Time` are all present, in any order and alongside any other columns |
| Pipeline.Process | dinning_punch_app.py:30-62 | the result is an error exactly when some required column is missing, and then it is the missing-columns error and no table |
| Pipeline.MissingColumnRejects | dinning_punch_app.py:31-34 | any missing required column yields the error whatever the rows are, so no row is classified or pivoted |
| MealWindows.CategorizeTime | dinning_punch_app.py:46-53 | each category is returned for exactly the times inside its own window (Dinner 19:00:00-23:30:00, "Launch" 12:00:00-15:30:00, Breakfast 05:30:00-09:50:00), whatever the order of the tests, and nothing exactly for the times inside none |
| MealWindows.CategorizeByWindows | dinning_punch_app.py:46-53 | the classifier returns category c exactly when a meal window of category c contains the time, and nothing exactly when no window does |
| MealWindows.FirstMatch | dinning_punch_app.py:46-53 | first-match over a priority list returns nothing exactly when no window contains the time; otherwise it returns the category of a containing window that no earlier window precedes |
| MealWindows.CategorizeIsFirstMatch | dinning_punch_app.py:46-53 | the if/elif chain is first-match over the list Dinner, Launch, Breakfast |
| MealWindows.MealWindowsDisjoint | dinning_punch_app.py:47-52 | the three windows are pairwise disjoint, so at most one window test can succeed |
| MealWindows.FirstMatchOfDisjoint | dinning_punch_app.py:46-53 | over disjoint windows, first-match returns c exactly when some window of category c contains the time |
| MealWindows.PriorityIrrelevant | dinning_punch_app.py:46-53 | checking the three windows in any order (any permutation) classifies every time the same way |
| MealWindows.DinnerWindowExact | dinning_punch_app.py:47-48 | a time is Dinner exactly when 19:00:00 <= t <= 23:30:00, both ends included |
| MealWindows.LaunchWindowExact | dinning_punch_app.py:49-50 | a time is "Launch" exactly when 12:00:00 <= t <= 15:30:00, both ends included |
| MealWindows.BreakfastWindowExact | dinning_punch_app.py:51-52 | a time is Breakfast exactly when 05:30:00 <= t <= 09:50:00, both ends included |
| MealWindows.NoWindowExact | dinning_punch_app.py:53 | a time gets no category exactly when it lies in none of the three windows |
| MealWindows.WindowBoundaries | dinning_punch_app.py:47-53 | each window edge is inside and one second beyond it is outside, e.g. 23:30:00 is Dinner and 23:30:01 is none; 10:00:00, 09:50:01 and 05:29:59 are none |
| MealWindows.Label | dinning_punch_app.py:48-52 | each category's text is non-empty and reads back, by `CategoryOfLabel`, as that category |
| MealWindows.LabelOfCategory | dinning_punch_app.py:48-52 | a text reads as category c exactly when it is c's label, so only "Dinner", "Launch" and "Breakfast" are category texts |
| MealWindows.LabelInjective | dinning_punch_app.py:48-52 | the category texts "Dinner", "Launch", "Breakfast" are distinct, so grouping by the text is grouping by the category |
| SeqFilter.KeptIndices | dinning_punch_app.py:40 | the kept row indices are strictly increasing and in range, and they are exactly the rows whose conversion is defined |
| SeqFilter.FilterMap | dinning_punch_app.py:56 | a drop keeps no more rows than it gets, and its k-th output is the converted value of the k-th kept row |
| SeqFilter.FilterMapThen | dinning_punch_app.py:40-56 | two drops in a row are one drop by the composed conversion |
| Punches.Parsed | dinning_punch_app.py:40 | a row survives the invalid-row drop exactly when both its date and time parsed, and keeps its own fields |
| Punches.Classify | dinning_punch_app.py:55-56 | a punch survives the uncategorised drop exactly when its time has a category, and it carries that category |
| Punches.Admit | dinning_punch_app.py:40-56 | a row reaches the pivot exactly when its date parsed, its time parsed and its time has a category |
| Punches.DropInvalid | dinning_punch_app.py:40 | the punches are, in upload order, exactly the rows whose date and time both parsed, one per such row, each with that row's identity fields, date and time |
| Punches.DropUncategorised | dinning_punch_app.py:55-56 | what is left is, in order, exactly the punches whose time has a category, each punch unchanged and carrying its time's category |
| Punches.SurvivorsAreAdmitted | dinning_punch_app.py:40-56 | dropping invalid rows and then uncategorised ones is the single drop by `Admit` |
| Punches.Survivors | dinning_punch_app.py:40-56 | the rows that reach the pivot are those `Admit` keeps, in upload order |
| Punches.SurvivorsExactly | dinning_punch_app.py:40-56 | the survivors are, in original order, exactly the rows with a parsed date, a parsed time and a category, each with its own fields and its time's category; there are no more survivors than rows |
| Pivot.Insert | dinning_punch_app.py:59-62 | adding a punch adds its key to the rows and never creates an empty row or an empty cell |
| Pivot.InsertLookup | dinning_punch_app.py:62 | adding a punch appends its time text to its own (key, date) cell and leaves every other cell unchanged |
| Pivot.PivotTable | dinning_punch_app.py:59-62 | the pivot has no empty row and no empty cell |
| Pivot.Times | dinning_punch_app.py:62 | the reference cell lists, in input order, the time texts of exactly the punches with that key and date |
| Pivot.PivotCells | dinning_punch_app.py:59-62 | every (key, date) cell of the pivot is its reference list, and an absent cell matches an empty one |
| Pivot.TimesNonEmpty | dinning_punch_app.py:59-62 | a reference cell is non-empty exactly when some punch has that key and date |
| Pivot.PivotRow | dinning_punch_app.py:59 | the pivot has a row for a key exactly when some punch carries that key |
| Pivot.PivotCell | dinning_punch_app.py:59-62 | within a row, a cell for a date exists exactly when some punch has that key and date, and the cell is its non-empty reference list |
| Pivot.PivotCoverage | dinning_punch_app.py:59-62 | one row per key that occurs and no other; one non-empty cell per (key, date) that occurs and no other; each cell equals its reference list |
| Pivot.Render | dinning_punch_app.py:62 | the displayed table has exactly the rows and, per row, exactly the date columns of the pivot |
| Pivot.RenderedCells | dinning_punch_app.py:62 | a displayed cell is its group's time texts, in input order and with repeats, joined with ", ", and it reads back into exactly those texts |
| CellText.Join | dinning_punch_app.py:62 | a non-empty join starts with its first entry, and its length is the entries' total length plus one separator between each pair of neighbours |
| CellText.SplitCell | dinning_punch_app.py:62 | what reads as a cell is a non-empty list of 8-character entries; text without ", " between its 8-character entries reads as nothing |
| CellText.SplitJoin | dinning_punch_app.py:62 | joining `HH:MM:SS` texts with ", " loses nothing: the text reads back as every entry in order, and its length is 10n-2 for n entries |
| CellText.JoinSplit | dinning_punch_app.py:62 | text that reads as a cell is exactly the ", "-join of what it reads as, so a cell's text and its entries determine each other |
| Clock.FormatTime | dinning_punch_app.py:62 | a time's text is 8 characters, with colons at positions 2 and 5 and digits elsewhere |
| Clock.ReadFormatTime | dinning_punch_app.py:62 | reading a time's `HH:MM:SS` text gives the time back |
| Clock.FormatTimeInjective | dinning_punch_app.py:62 | distinct times have distinct texts, so a cell's entries determine the punch times |
| Pipeline.SurvivorKeys | dinning_punch_app.py:40-59 | a key labels some survivor exactly when some uploaded row reaches the pivot with that key |
| Pipeline.SurvivorTimes | dinning_punch_app.py:40-62 | the reference cell over the survivors is the cell computed directly over the uploaded rows |
| Pipeline.RowCellOfRow | dinning_punch_app.py:40-62 | a row contributes to a (key, date) cell exactly when it reaches the pivot with that key and date, and it contributes its time's text |
| Pipeline.RowCellNonEmpty | dinning_punch_app.py:40-62 | a row-level cell is non-empty exactly when some uploaded row reaches the pivot with that key and date |
| Pipeline.ProcessOutput | dinning_punch_app.py:31-62 | with all columns present, the output has a row for exactly the keys of rows that reach the pivot, and a cell for exactly their (key, date) pairs; each cell is those rows' times in upload order joined with ", ", and reads back into them |
| Pipeline.RowCellSelects | dinning_punch_app.py:40-62 | a cell's entries are, in upload order and one per row, the time texts of exactly the rows that reach the pivot with that key and date |
| WorkedExample.ExampleDropInvalid | dinning_punch_app.py:40 | in the example, the row whose date did not parse is dropped and the others keep their order |
| WorkedExample.ExampleDropUncategorised | dinning_punch_app.py:55-56 | in the example, the 10:00:00 punch is dropped and the others keep their order |
| WorkedExample.ExamplePivot | dinning_punch_app.py:59-62 | in the example, both dinner times share one cell in upload order, and the midday time has its own "Launch" row |
| WorkedExample.ExampleOutput | dinning_punch_app.py:31-62 | the example upload yields exactly a Dinner row with "19:15:00, 19:45:00" under 01-01-2024 and a "Launch" row with "13:00:00" under 02-01-2024 |

## Left out

- The Streamlit user interface is not modelled: the title, instructions, file
  uploader, preview table, download button and error display are presentation only.
- Reading the CSV upload and writing the output file under its fixed name are
  not modelled. They are file I/O.
- Parsing the `Date` cell with day-first inference and the `Time` cell with
  `%H:%M:%S` is not modelled, because both are library behaviour. A `Row` holds
  their outcomes: the parsed value, or `None` when the coerce parse failed.
- The `DD-MM-YYYY` re-rendering of dates is not modelled. A date is the opaque
  text that rendering produced.
- Pipeline.ProcessOutput: key columns are modelled as strings that are always
  present. `pivot_table` groups with missing keys dropped, so a row whose
  `EmployeeID`, `FirstName` or `Department` cell is empty passes both drops yet
  reaches no output row. The model's claim of a row for every admitted key
  holds only for uploads whose key cells are all filled.
- The ordering inside `pivot_table` is not modelled: neither the order of the
  index rows nor the order of the date columns. The pivot is a map, and no
  ordering of keys or dates is claimed.
- The NaN that `pivot_table` puts in cells for absent (key, date) pairs is not
  modelled. Such cells are absent from the map.
- Column-name cleanup after the pivot is not modelled.
- What `pivot_table` does when no row survives is not modelled. The model
  yields an empty table.
- The top-level `except Exception` handler is not modelled. Nothing in the
  modelled step raises once the columns are present.
- Category labels: the pivot key holds the `Category` value rather than its
  text. `MealWindows.LabelInjective` shows that the two group the same way.
