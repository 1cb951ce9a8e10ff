# Disclosure tracker — a Dafny model of its record logic

The disclosure tracker is a single Streamlit screen over one SQLite table,
`tasks`. Staff add "disclosure task" records, list them through three
optional filters, and edit a record found by its numeric id. This project
models the logic under that screen and proves its properties:

- **The composite `type` column** (`TaskType`). A category and a free-text
  reason are stored as `"Others - " + reason` when the category is "Others",
  and as the bare category otherwise. The edit screen splits the stored
  value on the first `" - "`. `Strings` supplies first-occurrence search and
  ASCII case folding.
- **The list filter chain** (`TaskFilters`). The analyst filter is a
  case-insensitive substring match that never keeps a NULL analyst. The
  supervisor and status filters test equality. `""` or `"All"` switches a
  filter off. Each step is a boolean-mask `Select` over the loaded rows.
- **The `tasks` table** (`Store`). `TaskTable` is a class holding a map from id
  to row and the AUTOINCREMENT counter. Its methods are `Insert`, `Get`,
  `Update` and `LoadAll`, the last one scanning rows in id order.
- **The add and edit flows** (`Flows`). `NewTask` builds the row the add form
  inserts. `ParseId` models `int()` on the id text. `Prefill` and `Submit`
  model the edit form. `Classify` gives the outcome of one evaluation of the
  edit screen: idle, invalid id, not found, form shown or updated.
  `RunEdit` runs that outcome against a `TaskTable`. `AddFilterEdit` is the
  add → filter → edit scenario, with its result proved.

A stored category, supervisor or status missing from its choice list does
not crash the edit screen. The `.index(...)` lookup (app.py:130, 145, 151)
raises `ValueError` inside the same `try` as `int(...)`, and app.py:191-192
then shows the invalid-id message "Please enter a valid numeric Task ID!".
`Flows.LegacyValueReportsInvalidId` states this.

## Model

| member | source | states |
|---|---|---|
| `Strings.IndexOfFrom` | app.py:124 | the result is a position where the pattern occurs, with no occurrence between the start and it; None means the pattern occurs nowhere from the start on |
| `Strings.ContainsIff` | app.py:124 | Python's `sep in s` holds iff the pattern occurs at some position of `s` |
| `Strings.FirstMatch` | app.py:124 | a matching position with no match before it is exactly what the first-occurrence search returns |
| `Strings.ContainsIgnoringCaseIsCaseBlind` | app.py:91 | case-insensitive containment is unchanged when either the text or the pattern is lower-cased first |
| `Strings.ContainsIgnoringCaseIff` | app.py:91 | case-insensitive containment holds iff at some position every pattern character equals the text character after ASCII folding |
| `TaskType.Compose` | app.py:47 | the stored type is "Others - " + reason for "Others" and the bare category otherwise; its meaning is given by `SplitCompose` and `RecomposeIff` |
| `TaskType.Split` | app.py:124 | splits the stored type on the first " - ", or gives (value, "") without one; its meaning is given by `SplitJoin` and `SplitCompose` |
| `TaskType.SplitJoin` | app.py:124 | with a separator, category + " - " + reason is the stored value; without one, the category is the whole value and the reason is ""; the category part never contains " - " |
| `TaskType.OthersSeparatorFirst` | app.py:47 | in "Others - r" the first " - " is the one composing put after "Others", whatever r holds |
| `TaskType.CategoryHasNoSeparator` | app.py:41 | none of Pro, RFI, MLA, CV, Others contains " - " |
| `TaskType.SplitCompose` | app.py:47 | for a category from the list, splitting the composed value gives back (category, reason) for "Others" and (category, "") otherwise, including an empty reason and a reason containing " - " |
| `TaskType.RecomposeIff` | app.py:137 | composing the split parts reproduces the stored value iff the separator is present exactly when the category is "Others" |
| `TaskFilters.AnalystMatches` | app.py:91 | a NULL analyst never matches; otherwise ASCII case-insensitive containment of the filter text, characterised by `Strings.ContainsIgnoringCaseIff` |
| `TaskFilters.ApplyStep` | app.py:90-95 | one `if filter: select` step; its meaning is given by `StepIsSelect` |
| `TaskFilters.ApplyFilters` | app.py:89-95 | the three steps in the screen's order; its meaning is given by `FiltersSelectAdmitted` |
| `TaskFilters.Select` | app.py:91 | a row is kept iff it is in the input and passes the mask, and the kept rows are an order-preserving subsequence of the input |
| `TaskFilters.SelectExt` | app.py:91 | selection depends only on each row's mask value |
| `TaskFilters.SelectKeepsAll` | app.py:89 | a mask every row passes keeps the rows unchanged |
| `TaskFilters.SelectFuse` | app.py:90-95 | two masks applied in turn equal one selection by their conjunction |
| `TaskFilters.SelectCommute` | app.py:90-95 | two masks give the same rows in either order |
| `TaskFilters.SelectIdempotent` | app.py:90-95 | applying a mask twice equals applying it once |
| `TaskFilters.StepIsSelect` | app.py:90-95 | each filter step, on or off, selects exactly the rows for which the step is off or the row passes it |
| `TaskFilters.InOrderIsSelect` | app.py:90-95 | running steps in any order selects exactly the rows that pass all of them |
| `TaskFilters.AnyOrderSameResult` | app.py:90-95 | two step orders naming the same steps give the same rows |
| `TaskFilters.FiltersSelectAdmitted` | app.py:89-95 | the chain's result is an order-preserving subsequence of the loaded rows and holds a row iff it is loaded and passes every active filter |
| `TaskFilters.FiltersCommute` | app.py:90-95 | any order that contains all three filters gives the same rows as the screen's order |
| `TaskFilters.FiltersIdempotent` | app.py:89-95 | filtering the filtered rows again changes nothing |
| `TaskFilters.FiltersOffKeepAll` | app.py:89-95 | analyst "", supervisor "All" and status "All" return the loaded rows unchanged |
| `TaskFilters.NullAnalystNeverKept` | app.py:91 | with a non-empty analyst filter, no row with a NULL analyst is kept |
| `TaskFilters.AnalystFilterIgnoresCase` | app.py:91 | "lee" matches the analyst "Lee Tan", and "Lee" matches "LEE TAN" |
| `Store.Listing` | app.py:81 | the rows below an id bound in increasing id order; its meaning is given by `ListingIsTable` |
| `Store.ListingIsTable` | app.py:81 | the scan lists ids in ascending order, every listed row is stored with those columns, and every stored id below the bound is listed |
| `Store.TaskTable.constructor` | app.py:15-29 | a new table is empty and its first id will be 1 |
| `Store.TaskTable.Insert` | app.py:68-72 | the returned id was absent and is larger than every existing id; the new row maps to exactly the inserted fields; all other rows are unchanged; the counter advances |
| `Store.TaskTable.Get` | app.py:117 | a row is returned iff its id is stored, and it is the stored row |
| `Store.TaskTable.Update` | app.py:175-184 | an existing id gets all ten columns replaced and every other row is unchanged; an absent id leaves the table unchanged |
| `Store.TaskTable.LoadAll` | app.py:81 | every stored row appears once, with its columns, in ascending id order |
| `Store.InsertThenGet` | app.py:68-72 | reading back the id an insert returned gives exactly the inserted row, and earlier rows are kept |
| `Flows.NewTask` | app.py:57-71 | the row the add form inserts: composed type, analyst as text, NULL date iff N/A ticked; its meaning is given by `AddStoresDateOrNull` and `AddedTaskOpensForEditing` |
| `Flows.AddTask` | app.py:67-72 | the add form inserts one new row built from its fields under a fresh id larger than every existing id, advances the counter and leaves every other row unchanged |
| `Flows.AddStoresDateOrNull` | app.py:57-61 | the stored date is NULL iff N/A was ticked, and otherwise it is the picked date |
| `Flows.ParseId` | app.py:116 | an id is produced iff the text is an optional sign followed by one or more digits |
| `Flows.DecimalDigits` | app.py:116 | the decimal rendering of an id is a non-empty digit string whose value is the id |
| `Flows.ParseDecimal` | app.py:116 | parsing the decimal rendering of an id, or of its negation, gives that number back |
| `Flows.Prefill` | app.py:124-171 | the edit form's initial values, or None where `.index` raises; its meaning is given by `AddedTaskOpensForEditing` and `LegacyValueReportsInvalidId` |
| `Flows.Submit` | app.py:137-183 | the row "Update Task" writes, with a NULL date only when the N/A box was offered and left ticked; its meaning is given by `UnchangedSubmitKeepsRow` and `Classify` |
| `Flows.Classify` | app.py:113-192 | empty text is idle; a non-numeric text is the invalid-id error; not-found, a shown form and an update all belong to the id parsed from the typed text; not-found means that id is absent; a shown form is the pre-fill of that id's row and ticks N/A iff its stored date is NULL; an update needs a stored id and a pressed button, writes `Submit` of that row's pre-fill and the form's values, and keeps a non-NULL date non-NULL |
| `Flows.RunEdit` | app.py:113-192 | the outcome is that of `Classify`; only the updated outcome writes, replacing just that row; every other outcome leaves the table unchanged |
| `Flows.AbsentIdIsNotFound` | app.py:188-189 | a numeric id with no stored row always gives the not-found outcome |
| `Flows.StoredIdOpensForm` | app.py:119-184 | a stored id whose row pre-fills gives the shown form without a submit, and with a submit the update writing `Submit` of that form |
| `Flows.LegacyValueReportsInvalidId` | app.py:127-153 | a stored category, supervisor or status missing from its choice list gives the invalid-id error |
| `Flows.AddedTaskOpensForEditing` | app.py:119-165 | a row the add form wrote opens for editing under its id, with category, reason, analyst, supervisor and status as entered, and N/A ticked iff it was chosen |
| `Flows.UnchangedSubmitKeepsRow` | app.py:137-183 | submitting the pre-filled form unchanged writes back the row it was loaded from, for a row with a non-NULL analyst whose type re-composes from its split parts (every row the forms write; a stored "Others" would come back as "Others - " and "Pro - x" as "Pro") |
| `Flows.AddFilterEdit` | app.py:67-184 | a "Pro" task with no date added for LHH is listed by the supervisor filter, and after its status is edited to "Completed" the stored row differs from the added one only in its status |

## Left out

- Streamlit rendering is not modelled: tabs, headers, widget keys, `st.success`/`st.warning`/`st.error`, `time.sleep` and `st.rerun` (app.py:8, 33, 185-187). The outcome of a screen evaluation is the `EditOutcome` value. The "no matches" notice is the empty filter result.
- SQLite itself is not modelled: connection, commit, close and the SQL text (app.py:11-12, 30, 72, 184, 196). The table is the in-memory `TaskTable`. A table that already exists on disk is any `TaskTable` that satisfies `Valid()`.
- The AUTOINCREMENT ceiling is not modelled. SQLite refuses an insert once the id would pass 2^63-1; `Insert` has no such limit.
- pandas DataFrame mechanics are not modelled (`read_sql_query`, `set_index`, `st.dataframe`). A loaded table is a `seq<Row>` in id order.
- TaskFilters.AnalystMatches reads the filter text literally. pandas treats it as a regular expression, so the model differs when the text contains regex metacharacters. Case folding covers ASCII letters only, not Unicode.
- Flows.ParseId accepts an optional sign followed by ASCII digits only. Python's `int()` also accepts surrounding whitespace, underscores between digits and non-ASCII digits.
- Dates are opaque values. `strptime`, `date_input` and `datetime.now` are not modelled. The current date is a parameter (`today`), and the date picker's final value is a field of `FormInput`. A malformed stored date would also raise `ValueError` at app.py:160; the model does not represent malformed dates.
- Only `analyst` is nullable among the text columns. The code distinguishes NULL only there (`na=False`). A NULL `type` would raise an uncaught `TypeError` at app.py:124, which is not modelled.
- Flows.Submit writes the analyst text box as text. How the text box shows a NULL pre-fill is widget behaviour and is not modelled. For that reason Flows.UnchangedSubmitKeepsRow requires a non-NULL analyst.
- Concurrent sessions and last-writer-wins races between lookup and update are not modelled. One `RunEdit` runs against one table state.
