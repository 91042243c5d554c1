# Guest list manager: a verified model of its core

This project models the data logic of a single-page guest list manager.
A user keeps several guest lists. Each list has configurable columns, guest
records keyed by column id, a set of status tags, tasks and task categories.
The model covers the code that changes or derives that data:

- **Spreadsheet import** (`processImportedData` and its helpers in `src/App.tsx`):
  - locating the header row (`findHeaderRow`);
  - sampling up to ten rows below it to tag every column with a data type
    (`getDataType`);
  - classifying columns as status, checkbox or text (`determineColumnType`);
  - building the new column schema and the header-to-column-id map;
  - turning every data row into a guest record;
  - merging the result into the open list, or refusing the import.
- **Export** (`exportToExcel`): one row per guest over the visible columns.
  Checkboxes become "Yes"/"No" and falsy values become empty cells.
- **Other list handlers**:
  - `copyColumnData`;
  - `createList` with its six default columns;
  - the delete, update and add-column handlers of the application state.
- **Guest table** (`src/components/GuestTable.tsx`):
  - adding, editing and deleting guests;
  - toggling and removing columns, and drag-and-drop column reordering;
  - the column filter bar, the global search with column filters;
  - the per-column summaries and the visible-column ordering.
- **Task panel** (`src/components/ListPanel.tsx`): adding, toggling and
  deleting tasks, adding categories, and filtering tasks by category.

## How the model is built

The source is a set of React components whose state lives in hooks. The
model maps each kind of code to a Dafny form:

- **Application state.** The saved lists and the open list become the
  class `App.Store`. Its methods modify those two fields and state the new
  state.
- **Handlers.** Handlers that only build an updated list for
  `onUpdateList` are pure functions over `GuestList` values. Each one has
  lemmas that state what changes and what does not.
- **Loops.** The import pipeline is loop-heavy. Each loop is a method
  proved equal to a recursive specification function:
  - `FindHeaderRow` against `LocateHeader`;
  - `DetermineColumnType` against `ColumnKindOf`;
  - `SampleColumns` against `Samples`/`TagOf`;
  - `BuildSchema` against `ImportSchema`/`ColumnMap`;
  - `MaterializeRows` against `ImportedGuests`.

  The import lemmas are then proved about those functions.
- **Drag reorder.** It works in place on a copied array and keeps that form.
- **Component state.** The filters of the guest table and the pending task
  text and category of the task panel are component state. They are the
  classes `GuestTable.FilterBar` and `ListPanel.TaskPanel`.

**JavaScript values.** A guest record is a map from property name to
`Value`: a string, an integer, a non-integral number carried by its
decimal text, or a boolean. `String(v)`, truthiness and property lookup
are written out in module `Types`.

**Parameters for what the model cannot compute:**

- `Date.parse`, the ISO date conversion of `copyColumnData`, and the date
  and number comparisons of the column filters;
- the clock and random ids: `Date.now()` text for column ids, generated guest
  ids, list and task ids;
- the answer of the category prompt.

## Model

| member | source | states |
|---|---|---|
| Sheet.FirstRowWhereIsFirst | src/App.tsx:102-137 | a downward row scan returns the first row in range that satisfies the test, and none only when no row in range does |
| HeaderLocator.NameCellFromIsSome | src/App.tsx:106-118 | the first pass finds a "name" cell exactly when some cell of the row holds "name", ignoring case and surrounding spaces |
| HeaderLocator.HeaderIsRowLabels | src/App.tsx:98-176 | the located headers are the labels of the chosen row, one per column of the range |
| HeaderLocator.HeaderPrefersNameRow | src/App.tsx:101-137 | if a row up to absolute row 10 holds "name", the header row is the earliest such row |
| HeaderLocator.HeaderFallsBackToLabelRow | src/App.tsx:139-160 | with no "name" row, the header row is the earliest row up to absolute row 3 with more than one label that is not a placeholder |
| HeaderLocator.HeaderFallsBackToFirstRow | src/App.tsx:162-175 | with neither kind of row, the first row of the range is used |
| HeaderLocator.EmptyHeaderCellIsPlaceholder | src/App.tsx:129-132 | an empty header cell at column c is labelled `Column <c - s.c + 1>` |
| HeaderLocator.RowHasName | src/App.tsx:106-118 | the cell loop returns true exactly when the row holds a "name" cell |
| HeaderLocator.CollectRowLabels | src/App.tsx:123-133 | the collecting loop yields exactly the row's labels |
| HeaderLocator.FindHeaderRow | src/App.tsx:98-176 | the three scans return exactly the headers and row index of the specified cascade |
| Classify.GetDataType | src/App.tsx:178-190 | null exactly for a missing value; boolean, integer and float by kind of value; a string is a date exactly when it parses and contains '-', otherwise a string; never mixed |
| Classify.TallyPartitionsPresent | src/App.tsx:212-234 | every present sample is counted exactly once, as boolean-like or not; missing samples are never counted |
| Classify.ColumnKindCases | src/App.tsx:192-241 | status exactly when the lower-cased header contains "status"; otherwise checkbox exactly for a checkbox header name or when boolean-like samples are more than twice the others; text in every other case |
| Classify.DetermineColumnType | src/App.tsx:192-241 | the counting loop returns the kind the classification rules give |
| Classify.MajorityVoteExample | src/App.tsx:236-238 | samples yes, no, yes, x under header "RSVP" make a checkbox column |
| Sampling.TagOfMeaning | src/App.tsx:324-332 | a column's tag is absent without samples; it is the first sample's type when all samples share it, and mixed as soon as one differs |
| Sampling.ColumnTagIsNeverNull | src/App.tsx:352 | the data type recorded on a column is never the null type |
| Sampling.TagOfSnoc | src/App.tsx:327-332 | one more sample merges its type into the running tag |
| Sampling.SampleCell | src/App.tsx:313-333 | one cell appends its present value to its header's samples and keeps every header's tag equal to the tag of its samples |
| Sampling.SampleRow | src/App.tsx:310-334 | one row appends the row's samples for every header and keeps the tags in agreement |
| Sampling.SampleColumns | src/App.tsx:306-335 | the sampling loops leave every header with exactly its samples from the ten rows below the header row, and with the tag of those samples |
| Schema.ColumnIdInjective | src/App.tsx:341 | column ids made with the same stamp are equal only for the same header index |
| Schema.LastWithKeyMeaning | src/App.tsx:342 | the header chosen for a key is the last one filed under it, and none exactly when no header is |
| Schema.ColumnMapLastWins | src/App.tsx:337-342 | a key is in the column map exactly when the search for the last real header filed under it succeeds, and the key maps to the id made from that header's index |
| Schema.HeaderColumnsShape | src/App.tsx:337-354 | every made column is the column made for one of the headers that is neither blank nor a placeholder |
| Schema.HeaderColumnsOrdered | src/App.tsx:341-350 | the made columns' orders are header indices, strictly increasing, and each id is made from its order |
| Schema.HeaderColumnsComplete | src/App.tsx:337-339 | every header that is neither blank nor a placeholder gets its column |
| Schema.HeaderColumnsCount | src/App.tsx:339 | at most one column per header, and exactly one per header when no header is skipped |
| Schema.ImportSchemaIdsDistinct | src/App.tsx:341-365 | no two columns of the imported schema share an id |
| Schema.ImportSchemaHasStatus | src/App.tsx:356-365 | the imported schema always has a status column |
| Schema.ImportSchemaVisible | src/App.tsx:351-363 | every imported column is visible |
| Schema.StatusOrderCountsMadeColumns | src/App.tsx:356-365 | the added status column is last with order equal to the number of made columns; once a header is skipped, that order can equal an imported column's order |
| Schema.ColumnMapTargetsSchema | src/App.tsx:383-387 | every id in the column map is the id of the column made for the last header under that key |
| Schema.BuildSchema | src/App.tsx:337-365 | the schema loop returns exactly the specified columns and column map |
| Rows.FindById | src/App.tsx:386 | the column found carries the id and is in the schema; none exactly when no column has the id |
| Rows.FindByIdUnique | src/App.tsx:386 | with distinct ids, the column found for an id is the one carrying it |
| Rows.RowDraftHasData | src/App.tsx:375-408 | a row produces a guest exactly when one of its cells lands in a column with a non-empty value |
| Rows.RowDraftIsSteps | src/App.tsx:370-407 | a row's record is the fresh record (generated id, status "Pending") after the cells' writes, applied left to right |
| Rows.RowDraftStatus | src/App.tsx:370-403 | the status is "Pending" unless a cell of a status column is filled, and then the text of the last such cell |
| Rows.RowDraftField | src/App.tsx:370-407 | any other property is present exactly when it is the id or a non-status column with that id has a filled cell; it holds the last such cell's value (a boolean read from it for a checkbox column), the id otherwise the generated one |
| Rows.RowDraftWellFormed | src/App.tsx:370-408 | a row's record carries the generated id and a string status, other properties only under mapped column ids, and a boolean under every checkbox column it fills |
| Rows.ImportedGuestsWellFormed | src/App.tsx:369-414 | every imported guest record is well formed |
| Rows.ImportedGuestsCount | src/App.tsx:369-414 | at most one guest per row below the header, and none exactly when no row has data |
| Rows.FillCell | src/App.tsx:378-407 | one cell is written into the record, by the kind of its column, exactly when it has a target; otherwise record and flag are unchanged |
| Rows.FillRow | src/App.tsx:377-409 | the cell loop builds exactly the specified record and data flag of the row |
| Rows.MaterializeRows | src/App.tsx:367-414 | the row loop returns exactly the specified guests, in row order |
| Import.DedupMeaning | src/App.tsx:425-428 | the merged tags hold every input tag once and nothing else |
| Import.DedupOfDistinct | src/App.tsx:425-428 | tags without duplicates pass through deduplication unchanged |
| Import.DedupAppend | src/App.tsx:425-428 | the old tags, deduplicated, stay a prefix of the merged tags |
| Import.StatusesNonEmpty | src/App.tsx:427 | no empty status becomes a tag |
| Import.ColumnMapAvoidsReservedKeys | src/App.tsx:341-342 | no column id in the map is `id` or `status`, so imported cells never overwrite a guest's id or status field |
| Import.ImportNeedsColumns | src/App.tsx:295-300 | the import is refused for missing headers exactly when the sheet range has no columns |
| Import.InheritedHeaderFails | src/App.tsx:318-344 | the import ends in the catch-all refusal exactly when headers are found and one of them, trimmed, names a property every object inherits: its sample bucket is not an array, so the push or the classifier's loop throws |
| Import.ImportNeedsGuests | src/App.tsx:416-419 | once headers are found, an inherited-property header makes the import fail; otherwise it is refused exactly when no row below the header has data |
| Import.ImportSuccess | src/App.tsx:421-429 | a successful import keeps the list's id, name, tasks and categories and brings distinct column ids, a status column, one to (rows below header) well-formed guests, and deduplicated tags that start with the old ones |
| App.NewListSchema | src/App.tsx:46-62 | a new list's columns have distinct ids, are all shown, have order equal to position, and `status` is the one status column |
| App.ReplaceByIdFrame | src/App.tsx:568-571 | replacing keeps the lists' number and order and swaps in the update exactly for the lists with its id |
| App.WithoutIdMeaning | src/App.tsx:562-567 | deleting drops exactly the lists with that id, keeps the rest in order, and changes nothing when no list has it |
| App.Store.CreateList | src/App.tsx:46-66 | the new list is appended and becomes the open list |
| App.Store.UpdateList | src/App.tsx:568-571 | the edited list becomes the open list and replaces its entry |
| App.Store.DeleteList | src/App.tsx:562-567 | the list is removed, and closed when it was open |
| App.Store.AddColumn | src/App.tsx:586-596 | with an open list, the column is appended with order equal to the earlier column count, here and in the saved lists; without one nothing changes |
| App.Store.CopyColumnData | src/App.tsx:243-286 | with an open list, its guests become the copied guests, here and in the saved lists; without one nothing changes |
| App.ImportSheet | src/App.tsx:296-414 | the steps inside the handler's try (header row, samples, schema, guest rows and the refusals between them) yield exactly the specified import outcome |
| App.Store.ProcessImportedData | src/App.tsx:288-438 | without an open list the result is a refusal; a refused import changes nothing; a successful one replaces the open list and its saved entry by the imported list and reports the guest count |
| ColumnCopy.CopiedValueKinds | src/App.tsx:253-270 | numbers and booleans are copied as they are, date strings as their ISO form, other strings unchanged |
| ColumnCopy.CopyColumnFrame | src/App.tsx:246-276 | the guest count and order are kept; a guest without a source value is untouched; otherwise only the target field is set |
| Export.ExportCellCases | src/App.tsx:77-83 | a checkbox cell is "Yes" exactly for a truthy value, else "No"; any other cell is its value when truthy, else empty |
| Export.ExportBlanksFalsyValues | src/App.tsx:81 | a stored 0 or false in a non-checkbox column is exported as an empty cell |
| Export.ExportRowKeys | src/App.tsx:76-84 | a row has a key for exactly the names of the exported columns |
| Export.ExportRowLastWins | src/App.tsx:77-83 | under a name shared by several columns the row holds the cell of the last one |
| Export.ExportRowsMeaning | src/App.tsx:68-85 | with an open list, one row per guest, keyed by the names of the shown columns |
| Export.ExportRowsCells | src/App.tsx:76-84 | row i is guest i's: under the name of a visible column not shared by a later visible column it holds that guest's exported cell of that column |
| Visibility.ShownMeaning | src/components/GuestTable.tsx:174-175 | the shown columns are exactly those whose flag is not false, each exactly as often as in the list |
| Visibility.InsertByOrderSorted | src/components/GuestTable.tsx:176 | inserting by order key keeps a sorted sequence sorted |
| Visibility.InsertByOrderCounts | src/components/GuestTable.tsx:176 | inserting adds exactly that column |
| Visibility.SortByOrderMeaning | src/components/GuestTable.tsx:176 | the sort yields the same columns, ordered by order key |
| Visibility.VisibleColumnsMeaning | src/components/GuestTable.tsx:174-176 | the visible columns are exactly the shown ones, each as often as in the list, sorted by order key |
| GuestTable.AddGuestFrame | src/components/GuestTable.tsx:39-45 | adding appends one guest carrying the fresh id and the given fields, and changes nothing else |
| GuestTable.UpdateGuestFrame | src/components/GuestTable.tsx:47-53 | updating replaces exactly the guests with the edited guest's id and keeps count and order |
| GuestTable.DeleteGuestFrame | src/components/GuestTable.tsx:55-61 | deleting removes exactly the guests with that id and keeps the others in order |
| GuestTable.ToggleColumnVisibilityFrame | src/components/GuestTable.tsx:63-70 | toggling flips the flag of the columns with that id, a missing flag becoming true; other columns are unchanged |
| GuestTable.ToggleTwice | src/components/GuestTable.tsx:63-70 | toggling twice restores the list when the targeted columns have a flag |
| GuestTable.RemoveColumnFrame | src/components/GuestTable.tsx:72-77 | removing drops exactly the columns with that id, keeps the others in order and changes nothing else |
| GuestTable.RemoveColumnKeepsStatus | src/components/GuestTable.tsx:72-77 | with distinct ids, removing a column whose delete button is offered keeps a status column exactly when there was one |
| GuestTable.MovedMeaning | src/components/GuestTable.tsx:82-84 | the dragged column lands at the destination, none is lost or duplicated, and the others keep their relative order |
| GuestTable.RenumberedMeaning | src/components/GuestTable.tsx:86-89 | after a drag every column's order is its position and nothing else of it changes |
| GuestTable.ShiftsMove | src/components/GuestTable.tsx:82-84 | taking the dragged column out, opening a gap at the destination and putting it there is the move |
| GuestTable.ShiftLeft | src/components/GuestTable.tsx:83 | the array loses the element at the source, the later ones moving one place forward |
| GuestTable.ShiftRight | src/components/GuestTable.tsx:84 | the array gets a gap at the destination, the elements from there on moving one place back |
| GuestTable.HandleDragEnd | src/components/GuestTable.tsx:79-95 | without a destination no update is made; otherwise the update holds the moved and renumbered columns |
| GuestTable.WithoutIndexMeaning | src/components/GuestTable.tsx:107-109 | removing drops exactly the filter at that position; a position without a filter removes nothing |
| GuestTable.FilterBar.AddFilter | src/components/GuestTable.tsx:97-99 | appends an empty filter on the column, by date for date columns and by text otherwise |
| GuestTable.FilterBar.UpdateFilter | src/components/GuestTable.tsx:101-105 | sets the text of exactly the filter at that position; at a position with no filter the handler throws, reported as not ok, and the filters are unchanged |
| GuestTable.FilterBar.RemoveFilter | src/components/GuestTable.tsx:107-109 | the filter at that position is removed, the others kept in order |
| GuestTable.FilteredGuestsMeaning | src/components/GuestTable.tsx:137-172 | the shown guests are an ordered selection of the guests: exactly those matching the search and every filter; all guests with no search and no filters; never one whose filtered field is missing or falsy |
| GuestTable.CountTruthy | src/components/GuestTable.tsx:130 | the checked count never exceeds the number of guests |
| GuestTable.CountTruthyAll | src/components/GuestTable.tsx:130 | all guests are checked exactly when each has a truthy value |
| GuestTable.ColumnSummaryMeaning | src/components/GuestTable.tsx:119-135 | no summary exactly when there are no guests; a checkbox summary counts checked guests out of all; other summaries count every guest |
| ListPanel.FilteredTasksMeaning | src/components/ListPanel.tsx:80-82 | no tasks without a list; otherwise an ordered selection, exactly the tasks of the selected category, and every task under "All Categories" |
| ListPanel.ToggleTaskFrame | src/components/ListPanel.tsx:51-59 | toggling flips the completion of exactly the tasks with that id and changes nothing else |
| ListPanel.ToggleTaskTwice | src/components/ListPanel.tsx:51-59 | toggling a task twice restores the list |
| ListPanel.DeleteTaskFrame | src/components/ListPanel.tsx:61-67 | deleting removes exactly the tasks with that id and keeps the others in order |
| ListPanel.TaskPanel.AddTask | src/components/ListPanel.tsx:33-49 | with a list and a non-blank entry, appends an open task named by the trimmed entry under the selected category or "General", and clears the entry; otherwise nothing happens |
| ListPanel.AddedTaskIsShown | src/components/ListPanel.tsx:41 | a task added under the current selection is shown under it, after the tasks shown before |
| ListPanel.TaskPanel.AddCategory | src/components/ListPanel.tsx:69-78 | a dismissed or empty answer, or no list, changes nothing; otherwise the category is appended (to none when the list has none) and selected |

## Left out

- Reading the file is not modelled: the reader, the workbook parser, the PDF
  worker, the async file handler and its `isImporting` guard.
- Writing the export file is not modelled. Export rows are maps from
  column name to value, so the key order that the sheet writer gives the
  output columns is not represented.
- Persistence in `localStorage`, the theme, and all rendering, modals and
  toast messages are not modelled. Of the catch-all error handlers around
  the import and export, only the import's is modelled, and only for the
  exception an inherited-property header raises (`ProcessingFailed`);
  exceptions from the workbook parser or the sheet writer are not.
- Date parsing and conversion, and the date and number equality of column
  filters, are parameters.
- Ids from the clock and from `Math.random` are parameters.
- `Text.Lower` and `Text.Trim` model `toLowerCase` and `trim` for ASCII
  letters and the common white-space characters, not all of Unicode.
- Classify.GetDataType: a JavaScript value of another type (an object or
  `undefined` stored in a cell) is not represented, because `Value` only
  has strings, numbers and booleans.
- Sampling.SampleColumns: sample buckets are keyed by plain header text, so
  for a header naming a property every JavaScript object inherits (such as
  `constructor`) the model samples normally, where the source throws. The
  import as a whole is still refused in that case (Import.ImportAt), so
  only the intermediate samples differ.
- GuestTable.ColumnSummary: the sum of a number column is not modelled,
  because it needs JavaScript number conversion and floating-point
  addition. Only the count is stated.
- GuestTable.HandleDragEnd: the source and destination indices come from
  the drag library and are required to lie inside the column list.
- Visibility.SortByOrderMeaning: the sort is modelled as stable, but
  stability is not stated as a property.
- Schema.ColumnId: one `Date.now()` text serves every header of an import,
  while the source reads the clock again for each header. Ids that the
  source would make with different stamps are not modelled, and
  Schema.ColumnIdInjective and Schema.ImportSchemaIdsDistinct rely on the
  shared stamp.
- Schema.StatusOrderCountsMadeColumns: the order of the added status column
  is modelled as the source computes it: the number of columns made, not
  the header count. When a header is skipped, it can therefore tie with an
  imported column's order.
- The list selection, panel open and close, and theme toggles only set a
  component's state. They are not modelled.
