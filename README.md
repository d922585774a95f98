# Personnel dashboard — a Dafny model

This project models the core of a small personnel dashboard. The
backend is a Python service that imports division CSV exports into a
relational database. The frontend is a React application that lists,
edits, deletes and uploads employee records. This project covers the following parts.

**Frontend** (`frontend/src/`)

- `EmployeesData` (`hooks/useEmployeesData.js`): the employee and
  catalog stores, and the join that resolves each foreign key to a name.
- `EmployeeTable` (`components/EmployeeTable.jsx`): the select-all box,
  row toggling and the cells shown for each row.
- `Dashboard` (`routes/EmployeeDashboard.jsx`): the selection state, the
  search filter, and the delete-selected flow with its confirm, delete
  batch, refetch and re-enrich steps.
- `Responses`: the outcomes of the HTTP calls, given to the model as
  values.
- `EmployeeForm` (`components/EmployeeForm.jsx`): field state, the
  changes made by each field, and the submit flow. That flow covers the
  payload built with its `Number` coercions, create versus update, and
  the error message shown.
- `UploadEmployees` (`routes/UploadEmployees.jsx`): file selection,
  upload and the message shown.

**Backend** (`backend/`)

- `Text`, `Seqs`, `Calendar`: string and sequence helpers. These include
  Python's `strip`, `lower` and `replace`, and JavaScript's `trim`,
  `toLowerCase` and `includes`, each written out with its own whitespace
  set. `Calendar` holds the Gregorian dates that `strptime('%Y%m%d')`
  accepts.
- `Records` and `Tables`: dynamically typed values, records as
  dictionaries, and the ORM tables (`models.py`). `Tables.Database` is the
  in-memory class standing for the database session.
- `Schemas` (`schemas.py`): the pydantic schema with its field
  validators.
- `Utils` (`utils.py`): `clean_contact_number`, the error-entry grouping
  and the summary, and `seed_db`, the seeding of the catalog tables.
- `DbOps` (`db_ops.py`): `resolve_fk` and `add_employees_from_records`
  against `Tables.Database`.
- `Parsers` (`parsers.py`): transforms, row parsing with its error
  entries, and `parse_csv`.
- `Ingest` (`ingest.py`): the division and file discovery, the date
  ordering of files, and the whole import run with its printed events.

A class models each entity whose fields the source updates in place:
the React state of each component, the database session and the batch
counters. Pure code becomes functions, and each is tied to an
independent specification by lemmas. Each loop becomes a method whose
postcondition relates its result or new state to a specification
function.

## Design decisions

- Lookups inside `add_employees` see only the rows that were stored
  before the call. The new `Employee` objects are collected in `objects`
  and handed to `db.add_all(objects)` only after the loop ends
  (`backend/db_ops.py:66-67`). If two new records in one batch share a
  name, both are counted as created. The commit then fails on
  the `('first_name', 'surname')` unique constraint
  (`backend/models.py:67`) and stores nothing. The model returns
  `UniqueViolation` and leaves the database unchanged.
- `seed_db` adds each missing catalog value with `db.add` as it goes, but
  the session is created with `autoflush=False` (`backend/db.py:8`), so
  its later queries do not see those pending rows
  (`backend/utils.py:24-34`). A missing value configured twice is added
  twice and the commit fails; `Utils.SeedDb` calls this `SeedFailed`.
- The engine is SQLite (`backend/db.py:7` passes `check_same_thread`).
  A catalog's `name` column has TEXT affinity and a bound parameter has
  none, so `filter_by(name=3)` compares the text `'3'` with the names.
  `DbOps.SqlText` gives the text each kind of cell is compared as.
- A record that already has a `division_id` or `last_updated` key makes
  `CreateEmployee(**record, division_id=…, last_updated=…)`
  (`backend/db_ops.py:44`) raise `TypeError`.
  The model calls this outcome `DuplicateKeyword`.
- The pydantic `pattern` constraint is an unanchored search. Regular
  expressions themselves are a `Matcher` parameter.
- The file-name pattern `_(\d{8})\.csv$` (`backend/ingest.py:16`) matches
  decimal digits of any script. `strptime(digits, '%Y%m%d')`
  (`backend/ingest.py:20`) reads `%Y` as four decimal digits of any
  script, but `%m` and `%d` match ASCII digits, except that the second
  day digit may be any decimal digit after a `1` or `2`. So
  `x_2023٠١٠١.csv` raises `ValueError` at `backend/ingest.py:46` and
  stops the run, while `x_٢٠٢٣0101.csv` is dated 2023-01-01.
  `Ingest.StrptimeDate` models this; on ASCII digits it succeeds exactly
  when they form a valid Gregorian date.
- An exception that escapes the import run ends it: a file name that is
  not a date, a failing `add_employees`, or a seeding clash. The model
  records each of these in the run's `abort` field.
- `ingest.py:58` rebinds `errors` to the summary that
  `add_employees_from_records` returns, so the errors `parse_csv`
  reported for the file are never printed. The model keeps that
  behaviour.
- Integer fields read text as pydantic's lax mode does. Surrounding
  whitespace is stripped, a sign is allowed, and so is a point followed
  only by zeros. Text that reads as an integer below 1 fails `ge=1`, not
  integer parsing.
- The date field accepts a `Timestamp` at midnight, an ISO date text,
  and an ISO date text followed by a separator (`T`, `t`, `_` or a
  space) and a time `HH:MM` or `HH:MM:SS` at midnight. Such text with
  any other time fails as an inexact date.

## Behaviour of the code worth knowing

- The header checkbox compares the number of selected ids with the
  number of rows on show, and nothing else
  (`frontend/src/components/EmployeeTable.jsx:11`). The lemma
  `EmployeeTable.AllSelectedIgnoresMembership` gives a state in which
  the box shows as checked although some row on show is not selected.
- Deleting the selected employees never inspects the status codes of
  the delete responses. The selection is cleared only when the whole
  delete-and-refetch sequence succeeds, because `setSelectedIds([])`
  sits inside the `try` (`frontend/src/routes/EmployeeDashboard.jsx:99`).
  A failure leaves the selection as it was.

## Model

| member | source | states |
|---|---|---|
| EmployeesData.LookupNameSpec | frontend/src/hooks/useEmployeesData.js:37-46 | a resolved name is that of the last catalog entry with the foreign key, and no name is resolved exactly when no entry has the key |
| EmployeesData.EnrichAll | frontend/src/hooks/useEmployeesData.js:41-48 | one enriched record per fetched employee, in order, each the join of the employee at the same position |
| EmployeesData.EnrichAllSpec | frontend/src/hooks/useEmployeesData.js:41-48 | the enriched record keeps the raw employee, takes division and salary band from the raw identifiers, and each of rank, position and department is missing exactly when the catalog lacks the key |
| EmployeesData.EnrichAllAppend | frontend/src/hooks/useEmployeesData.js:41-48 | enrichment works employee by employee: it distributes over concatenation |
| EmployeesData.EmployeesStore.constructor | frontend/src/hooks/useEmployeesData.js:11-19 | the hook starts with no employees, empty catalogs and the loading flag set |
| EmployeesData.EmployeesStore.FetchData | frontend/src/hooks/useEmployeesData.js:22-56 | on success employees and catalogs are replaced by the enriched fetch; on failure both are kept; loading ends false in both cases |
| EmployeeTable.Ids | frontend/src/components/EmployeeTable.jsx:22 | the identifiers of the visible employees, one per employee, in order |
| EmployeeTable.ToggledSpec | frontend/src/components/EmployeeTable.jsx:5-9 | checking appends the id; unchecking removes every occurrence of it and keeps every other id with its multiplicity |
| EmployeeTable.UntoggleAbsent | frontend/src/components/EmployeeTable.jsx:7 | unchecking an id that is not selected leaves the selection unchanged |
| EmployeeTable.WithoutKeepsOrder | frontend/src/components/EmployeeTable.jsx:7 | unchecking distributes over concatenation and drops exactly the matching ids, so the rest keep their order |
| EmployeeTable.HeaderSelectionSpec | frontend/src/components/EmployeeTable.jsx:22 | checking the header selects one id per visible employee, and an id is then checked iff some visible employee has it; unchecking empties the selection |
| EmployeeTable.HeaderRoundTrip | frontend/src/components/EmployeeTable.jsx:11-22 | after the header is checked it shows checked iff some employee is visible; after it is unchecked it shows unchecked |
| EmployeeTable.AllSelectedIgnoresMembership | frontend/src/components/EmployeeTable.jsx:11-57 | the header compares lengths only: it can show checked while a visible row is unchecked |
| EmployeeTable.AllSelectedMeansEveryRowChecked | frontend/src/components/EmployeeTable.jsx:11-57 | when neither list repeats an id and only visible ids are selected, a checked header means every visible row is checked |
| Dashboard.SearchFields | frontend/src/routes/EmployeeDashboard.jsx:41-50 | the text search looks at exactly eight values |
| Dashboard.FilteredIsOrderedSubsequence | frontend/src/routes/EmployeeDashboard.jsx:33-63 | the filtered list holds exactly the employees that match the search and all five filters, in their original order |
| Dashboard.FilteredMembership | frontend/src/routes/EmployeeDashboard.jsx:38-62 | an employee is shown iff it was fetched and matches both the search and the filters |
| Dashboard.NoFiltersMatchAll | frontend/src/routes/EmployeeDashboard.jsx:23-29 | with every dropdown on "All" the filters reject nobody |
| Dashboard.EmptyQueryMatchesAll | frontend/src/routes/EmployeeDashboard.jsx:34-52 | a query that trims to nothing matches every employee |
| Dashboard.IdSearchExact | frontend/src/routes/EmployeeDashboard.jsx:34-40 | "#n" matches the employee with id n and no other |
| Dashboard.HashAloneMatchesNobody | frontend/src/routes/EmployeeDashboard.jsx:34-40 | a lone "#" is an id search for empty text and matches nobody |
| Dashboard.TextSearchIgnoresCase | frontend/src/routes/EmployeeDashboard.jsx:36-52 | a text query matches when its lower-cased form occurs in the lower-cased department name |
| Dashboard.EngineeringExample | frontend/src/routes/EmployeeDashboard.jsx:36-52 | "eng" finds an employee of the Engineering department |
| Dashboard.MissingNameIsSearchable | frontend/src/routes/EmployeeDashboard.jsx:44-51 | an employee whose rank has no catalog entry is found by the text "undefined" |
| Dashboard.DashboardPage.constructor | frontend/src/routes/EmployeeDashboard.jsx:22-31 | the page starts with an empty query, all filters on "All" and nothing selected |
| Dashboard.DashboardPage.ToggleCheckbox | frontend/src/components/EmployeeTable.jsx:5-9 | a row checkbox applies the toggle updater to the selection and changes nothing else |
| Dashboard.DashboardPage.HeaderChange | frontend/src/components/EmployeeTable.jsx:22 | the header checkbox selects the visible (filtered) employees or clears the selection |
| Dashboard.DashboardPage.DeleteSelected | frontend/src/routes/EmployeeDashboard.jsx:68-106 | if not confirmed, nothing changes; if confirmed, a DELETE goes out for every selected id; on full success the list is re-enriched against the old catalogs and the selection cleared; otherwise the list and selection are kept and the alert is shown; catalogs are never touched |
| Responses.ObjectListTextLength | frontend/src/components/EmployeeForm.jsx:120 | an array of n objects renders as empty for n = 0, and otherwise as 16n - 1 characters |
| Responses.ErrorText | frontend/src/components/EmployeeForm.jsx:120 | the message built from a detail array has the length of its string rendering |
| Responses.ErrorTextCases | frontend/src/components/EmployeeForm.jsx:120 | the error message is the server's text when non-empty, the fallback when the detail is absent or empty, and is empty only for an empty array or an empty fallback |
| Responses.FieldKey | frontend/src/components/EmployeeForm.jsx:115-116 | a detail entry names a field only through a truthy second `loc` item, so a field key is never empty |
| EmployeeForm.InitialFormSpec | frontend/src/components/EmployeeForm.jsx:11-22 | initial data overrides the defaults key by key, every other default key is the empty string, and no other key appears |
| EmployeeForm.RequiredKeysDistinct | frontend/src/components/EmployeeForm.jsx:65-75 | the nine required fields have distinct keys |
| EmployeeForm.RequiredErrorsAt | frontend/src/components/EmployeeForm.jsx:77-82 | with distinct keys, a required field has an error iff its value is falsy, and the error is that field's own message |
| EmployeeForm.RequiredErrorsOnly | frontend/src/components/EmployeeForm.jsx:77-82 | every error belongs to a listed field whose value is falsy |
| EmployeeForm.MissingFieldErrors | frontend/src/components/EmployeeForm.jsx:77-82 | the loop builds exactly the missing-field map of the nine required fields |
| EmployeeForm.MissingFieldsSpec | frontend/src/components/EmployeeForm.jsx:65-82 | of the nine required fields, exactly the falsy ones are reported, each with its own message, and nothing else is reported |
| EmployeeForm.BlankFormMissesEverything | frontend/src/components/EmployeeForm.jsx:11-22 | an untouched create form reports all nine fields |
| EmployeeForm.ToNumberOfDecimal | frontend/src/components/EmployeeForm.jsx:92-96 | the decimal text of an id converts back to that id |
| EmployeeForm.ParsedFormSpec | frontend/src/components/EmployeeForm.jsx:90-97 | the five id fields are converted, every other field is sent unchanged, and no field is dropped |
| EmployeeForm.BuildRequest | frontend/src/components/EmployeeForm.jsx:99-107 | an edit sends PUT to the employee's own path; a create sends POST to the collection; the body is the parsed form |
| EmployeeForm.EditPathsDistinct | frontend/src/components/EmployeeForm.jsx:100 | editing two employees with different ids sends to different paths |
| EmployeeForm.FieldErrorsKeys | frontend/src/components/EmployeeForm.jsx:113-117 | a field has a message iff some detail entry names it |
| EmployeeForm.FieldErrorsLastWins | frontend/src/components/EmployeeForm.jsx:113-117 | a field's message is the one from the last entry naming it |
| EmployeeForm.FieldErrorsFrom | frontend/src/components/EmployeeForm.jsx:113-117 | the loop builds exactly the field-error map of the detail entries, with no empty key |
| EmployeeForm.EmployeeFormPage.constructor | frontend/src/components/EmployeeForm.jsx:11-28 | the form starts from the merged initial data, with no errors, empty options and options loading |
| EmployeeForm.EmployeeFormPage.FetchOptions | frontend/src/components/EmployeeForm.jsx:30-51 | the options are replaced on success and kept on failure; option loading ends; nothing else changes |
| EmployeeForm.EmployeeFormPage.HandleChange | frontend/src/components/EmployeeForm.jsx:53-57 | the edited field takes the new text and only its error is cleared |
| EmployeeForm.EmployeeFormPage.HandleSubmit | frontend/src/components/EmployeeForm.jsx:59-130 | missing fields stop the submit and show their messages; otherwise the built request is sent; then success navigates home, a 422 with a detail array shows the field map, and any other failure shows the thrown message; loading ends false in every case |
| UploadEmployees.FailureTextCases | frontend/src/routes/UploadEmployees.jsx:53-61 | a failed upload always shows a message: the server's non-empty text, 'Upload failed' when there is no detail, and the generic text exactly when the thrown message would be empty (or is the generic text itself) |
| UploadEmployees.UploadPage.constructor | frontend/src/routes/UploadEmployees.jsx:8-12 | the page starts with no file, no division, no options, no error and not loading |
| UploadEmployees.UploadPage.LoadDivisions | frontend/src/routes/UploadEmployees.jsx:14-22 | the options are replaced on success; on failure the load error is shown |
| UploadEmployees.UploadPage.SelectDivision | frontend/src/routes/UploadEmployees.jsx:75 | choosing a division sets it and nothing else |
| UploadEmployees.UploadPage.HandleFileChange | frontend/src/routes/UploadEmployees.jsx:24-33 | a non-CSV file is refused with its message and the file cleared; otherwise the error is cleared and the picked file, or none, is kept |
| UploadEmployees.UploadPage.HandleSubmit | frontend/src/routes/UploadEmployees.jsx:35-64 | with no file, or no division, the submit stops with that gate's message; otherwise the file and division are posted, success navigates home, and failure shows its message; loading ends false |
| Text.TrimIsSlice | backend/utils.py:39 | stripping only cuts characters from the two ends: the result is a slice of the input |
| Text.TrimThenRemove | backend/utils.py:39 | when the only whitespace is the removed character, stripping first changes nothing |
| Text.RemoveAll | backend/utils.py:39 | `replace(c, "")` leaves no occurrence of `c`, adds no character and never lengthens the string |
| Text.Lower | frontend/src/routes/EmployeeDashboard.jsx:36 | lowercasing keeps the length and maps each character on its own, changing only the ASCII capitals |
| Text.LowerNoUpper | frontend/src/routes/EmployeeDashboard.jsx:36 | a string with no capital letter is its own lowercase |
| Text.NatToStringInjective | frontend/src/routes/EmployeeDashboard.jsx:38-40 | two different identifiers never render as the same decimal text, so an id search can match only one id |
| Text.RemoveAllKeepsOthers | backend/utils.py:39 | `replace(c, "")` keeps every other character in order and with its multiplicity |
| Text.RemoveFirst | frontend/src/routes/EmployeeDashboard.jsx:36 | a one-character string pattern removes nothing when the character is absent, and otherwise shortens the text by one |
| Text.FirstIndex | frontend/src/routes/EmployeeDashboard.jsx:36 | the position found holds the character, and no earlier position does |
| Text.RemoveFirstSplices | frontend/src/routes/EmployeeDashboard.jsx:36 | the character removed is the first occurrence: the text before it and the text after it are kept as they were |
| Text.IntToStringInjective | frontend/src/routes/EmployeeDashboard.jsx:40 | different integers render as different decimal texts |
| Text.ParseNatToString | frontend/src/components/EmployeeForm.jsx:92-96 | reading back the decimal text of a natural number gives the number |
| Seqs.FilterMembership | frontend/src/components/EmployeeTable.jsx:7 | `filter` keeps an element iff it occurs in the input and passes the test |
| Seqs.FilterAppend | frontend/src/components/EmployeeTable.jsx:7 | `filter` distributes over concatenation |
| Seqs.FilterMultiset | frontend/src/components/EmployeeTable.jsx:7 | a kept element keeps its multiplicity |
| Calendar.DaysInMonth | backend/ingest.py:20 | every month has 28 to 31 days |
| Calendar.LessEqTotalOrder | backend/db_ops.py:52 | the comparison of `last_updated` values is a total order |
| Calendar.MidnightOrder | backend/ingest.py:47 | comparing the midnights of file dates is comparing the dates |
| Tables.NextId | backend/models.py:17 | an inserted catalog or employee row gets a positive key larger than every existing key |
| Tables.Database.constructor | backend/models.py:7-68 | the database starts with all six tables empty |
| Records.PyStrCases | backend/parsers.py:60 | `str` of a text is the text itself, and of any other value is non-empty |
| Records.GetIsEntry | backend/parsers.py:100 | in a dictionary without repeated keys, `get` finds a value iff the entry is present |
| Records.SetSpec | backend/parsers.py:104 | after `d[k] = v`, `k` reads `v`, every other key reads as before, and no key is repeated |
| Records.DelSpec | backend/parsers.py:117 | after `del d[k]`, `k` is gone, every other key reads as before, and no key is repeated |
| Records.UpdateWellFormed | backend/parsers.py:102 | `update` keeps a dictionary free of repeated keys |
| Schemas.IssuesOf | backend/schemas.py:20-29 | a field contributes at most one issue, and none iff its check passes |
| Schemas.StrField | backend/schemas.py:21-22 | a text field passes iff it is present, is a string and, when `min_length=1`, is non-empty; the value is kept verbatim |
| Schemas.IntOf | backend/schemas.py:23-27 | an integer converts to itself; text converts exactly when pydantic's lax reading gives an integer, and then to that integer; any failure is reported against the field |
| Schemas.StripDecimalZeros | backend/schemas.py:23-27 | the decimal zeros are stripped exactly when the text has a point followed only by zeros, leaving the text before that point |
| Schemas.LaxIntTextOfDecimal | backend/schemas.py:23-27 | an integer's decimal text reads back as that integer, also with a space on each side or followed by `.0` |
| Schemas.LaxIntExamples | backend/schemas.py:24 | `" 5"`, `"+5"` and `"5.0"` read as 5, and `"5.5"` does not read as an integer |
| Schemas.TextIntFieldSpec | backend/schemas.py:23-27 | an id given as text passes iff it reads as an integer of at least 1, and then is that integer; unreadable text fails as `int_parsing`, and readable text below 1 fails as `greater_than_equal` |
| Schemas.NegativeTextFailsBound | backend/schemas.py:24 | `"-3"` fails the bound `ge=1` rather than integer parsing |
| Schemas.PositiveIntField | backend/schemas.py:23-27 | a passing identifier is at least 1; an integer passes iff it is at least 1; an absent field fails |
| Schemas.ContactField | backend/schemas.py:28 | a contact number passes iff it is a string in which the pattern occurs (unanchored search), `\d` being any Unicode decimal digit |
| Schemas.DecimalDigitCases | backend/schemas.py:28 | `\d` accepts the ASCII and the Arabic-Indic digits, which `int` reads as their usual values, and refuses the ASCII letters and `+` |
| Schemas.ContactFieldExamples | backend/schemas.py:28 | `+` followed by an Arabic-Indic digit passes the pattern, and `0a` does not |
| Schemas.DateField | backend/schemas.py:29 | a timestamp passes iff it is at midnight, and then gives its date; a text passes iff it is an ISO date or an ISO datetime at midnight |
| Schemas.DateTimeTextSpec | backend/schemas.py:29 | a date text followed by a separator and a time gives that date when the time is midnight, and otherwise fails as an inexact date |
| Schemas.FieldIssues | backend/schemas.py:20-29 | at most nine issues, one per checked field |
| Schemas.NoIssuesMeansAllPass | backend/schemas.py:20-29 | no issue is reported iff every field check, the division's included, passes |
| Schemas.ValidEmployeeConstraints | backend/schemas.py:20-30 | a validated employee has non-empty names, identifiers of at least 1, a contact number with the pattern, the given division and ingestion time, and its text fields verbatim |
| Schemas.ValidationFailureSpec | backend/schemas.py:20-29 | validation fails iff some field check fails, and then it reports between one and nine issues |
| Schemas.EmptyFirstNameRejected | backend/schemas.py:21 | an empty first name is reported as too short against `first_name` |
| Schemas.ContactWithoutPatternRejected | backend/schemas.py:28 | a contact number in which no '+' or '0' is followed by a decimal digit is refused |
| Schemas.ValidateIdModel | backend/schemas.py:5-18 | a validated division or salary-band id is at least 1 |
| Schemas.ValidateNameModel | backend/schemas.py:8-15 | a catalog name validates iff it is present as a string |
| Schemas.CatalogConstraints | backend/schemas.py:5-18 | an empty catalog name is accepted; id 0 and a missing id are refused |
| Utils.CleanContactNumber | backend/utils.py:37-40 | the cleaned number has no space and no hyphen and is no longer than the input |
| Utils.CleanIsRemoval | backend/utils.py:39 | when the only whitespace is ' ', cleaning removes exactly the spaces and hyphens |
| Utils.CleanKeepsCharacters | backend/utils.py:39 | every character of the cleaned number occurs in the input |
| Utils.CleanIdempotent | backend/utils.py:37-40 | cleaning twice is cleaning once, for inputs whose only whitespace is ' ' |
| Utils.KeyRows | backend/utils.py:46-47 | one (field, message) key and row per error, in input order |
| Utils.Take | backend/utils.py:50-51 | the first n rows, or all of them when there are fewer, as a prefix |
| Utils.Summarize | backend/utils.py:53-61 | one summary per distinct key |
| Utils.GroupKeysSpec | backend/utils.py:44-48 | a key is a group iff its count is positive |
| Utils.CountOfSpec | backend/utils.py:49 | a key's count is positive iff some error has that key |
| Utils.GroupKeysDistinct | backend/utils.py:44-48 | no two groups share a key |
| Utils.GroupKeysFirstOccurrence | backend/utils.py:44-60 | groups come in order of first occurrence |
| Utils.RowsOfLength | backend/utils.py:49-51 | a key has as many rows as its count |
| Utils.SummaryCounts | backend/utils.py:46-57 | each summary's count is the number of errors with its key, and is positive |
| Utils.SummaryKeysDistinct | backend/utils.py:53-61 | no two summaries share a (field, error) key |
| Utils.SummaryOrder | backend/utils.py:53-61 | summaries follow the order in which their keys first occur |
| Utils.SummaryCoversErrors | backend/utils.py:46-61 | every error's key has a summary |
| Utils.SampleRowsSpec | backend/utils.py:50-51 | a summary's sample rows are the rows of its first min(count, max_samples) errors, in order |
| Utils.CountsSumToTotal | backend/utils.py:46-49 | the group counts add up to the number of errors processed |
| Utils.SummaryCountsSum | backend/utils.py:42-61 | the counts of the summaries add up to the number of errors |
| Utils.TakeAppend | backend/utils.py:50-51 | appending a row extends the samples only while they are fewer than the maximum |
| Utils.GroupedStep | backend/utils.py:47-51 | one iteration keeps the grouping invariant: keys in insertion order, exact counts, first samples |
| Utils.GroupedEmpty | backend/utils.py:44 | the empty `defaultdict` has grouped no error |
| Utils.GroupOne | backend/utils.py:47-51 | one iteration of the loop on an error keeps the grouping invariant |
| Utils.GroupErrors | backend/utils.py:44-51 | the loop leaves each key's exact count and first samples, with the keys in insertion order |
| Utils.SummarizeErrors | backend/utils.py:42-61 | the method returns exactly the summaries `Summarize` defines |
| Utils.AppendNamed | backend/utils.py:34 | the inserted rows follow the existing ones, carry the configured names in order, and leave the existing rows in place |
| Utils.AbsentValues | backend/utils.py:24-30 | the values to add are the configured values that no existing row has, in configuration order |
| Utils.SeedValueSpec | backend/utils.py:23-34 | a configured value is added iff no row has it, and afterwards every configured value is present |
| Utils.SeedDb | backend/utils.py:14-35 | employees are untouched; the seed fails iff a missing value is configured twice, and then nothing is stored; otherwise each catalog gains exactly its missing values, in order |
| DbOps.SqlText | backend/db_ops.py:10 | a text is compared as itself, an integer as its decimal text, a bool as `1` or `0`; NaN, `None` and a timestamp match no name |
| DbOps.FirstNamed | backend/db_ops.py:10 | the first row, in table order, whose name equals the value's compared text, or none |
| DbOps.ResolveFkSpec | backend/db_ops.py:8-13 | a key is found iff some row's name is the value's compared text, and with unique names it is that row's key; otherwise the error names the model and the value |
| DbOps.NumericNameFound | backend/db_ops.py:8-13 | an integer cell 3 resolves to the row named `3`, and `True` to the row named `1` |
| DbOps.FindEmployee | backend/db_ops.py:46-49 | the first stored row with both names, or none when no row has them |
| DbOps.ColumnsDifferSpec | backend/db_ops.py:53 | a row differs outside `last_updated` iff it differs once the two `last_updated` values are made equal |
| DbOps.IssueEntries | backend/db_ops.py:63-64 | one error entry per validation issue, carrying the record's row, the field, the message and the type |
| DbOps.AppendEmployees | backend/db_ops.py:66-67 | the new rows follow the stored rows, in order, each keyed above every row before it |
| DbOps.ValidationsStamped | backend/db_ops.py:44 | every successful validation carries the division and the ingestion time |
| DbOps.LoopErrPersists | backend/db_ops.py:42-64 | once a record has raised, the loop stays raised |
| DbOps.LoopInvariant | backend/db_ops.py:42-64 | the loop keeps stored keys and names, changes a stored row only when it is not newer than the file and then stamps it, adds only fresh rows, and counts at most one change per record |
| DbOps.LoopErrors | backend/db_ops.py:63-64 | every collected error is an issue of an earlier record that failed validation |
| DbOps.FailedEntriesMembers | backend/db_ops.py:63-64 | an entry is among the failed records' entries iff it is one of the issues of a record that failed validation, and the entries come in record order |
| DbOps.LatestNamed | backend/db_ops.py:51-57 | overwriting a stored row with records found under its name keeps the row's name |
| DbOps.LatestOrigin | backend/db_ops.py:51-57 | a stored row holds its own data or that of a validated record under its name, and its `last_updated` never goes back |
| DbOps.StepStored | backend/db_ops.py:43-64 | one more record leaves each stored row holding what the records so far left in it, adds one to `updated` exactly when the record replaces its row's data, and appends exactly the record's issues to the errors |
| DbOps.LoopStored | backend/db_ops.py:42-64 | after the loop each stored row holds what the records with its name left in it, `updated` is the number of records that replaced a row's data, and the errors are all the issues of every failed record, in record order |
| DbOps.LoopRaisesIff | backend/db_ops.py:42-44 | the loop raises iff one of the records it reached carries `division_id` or `last_updated` |
| DbOps.LoopPending | backend/db_ops.py:58-61 | the new rows are the records that passed validation under a name not stored before the call, in record order |
| DbOps.AddCounts | backend/db_ops.py:42-70 | at most one create or update per record, and the table grows by exactly the number created |
| DbOps.AddKeepsStoredRows | backend/db_ops.py:51-57 | a raised call leaves the table as it was; otherwise stored rows keep key and name and change only when not newer than the file, and are then stamped with the division and time |
| DbOps.AddWithStored | backend/db_ops.py:42-70 | after a call that raised nothing, each stored row keeps its key and holds what the records under its name left in it, each record replacing the row's data when the row, as it then stood, was not newer and differed in some column; `updated` counts exactly those replacements; the summary covers every issue of every failed record, in record order |
| DbOps.AddStoredRows | backend/db_ops.py:15-70 | the same for `add_employees_from_records` |
| DbOps.AddWithRaisesIff | backend/db_ops.py:42-69 | the call raises iff some record carries `division_id` or `last_updated`, or two new records share a name |
| DbOps.AddRaisesIff | backend/db_ops.py:15-70 | the same for `add_employees_from_records` |
| DbOps.AddWithNewRows | backend/db_ops.py:58-67 | the added rows are the fresh validated records, in order, stamped, each keyed above every row before it |
| DbOps.AddNewRows | backend/db_ops.py:15-70 | the same for `add_employees_from_records` itself |
| DbOps.AddWithUniqueNames | backend/db_ops.py:46-67 | the call keeps the (first name, surname) pairs of the table unique |
| DbOps.AddPreservesUniqueNames | backend/models.py:66-68 | `add_employees_from_records` keeps the table's name constraint |
| DbOps.AddWithRepeatedRaises | backend/db_ops.py:58-69 | two valid new records under the same unstored name make the call raise and store nothing |
| DbOps.RepeatedNewRecordRaises | backend/db_ops.py:58-69 | the same for `add_employees_from_records` itself |
| DbOps.LoopErrIsKeyword | backend/db_ops.py:42-64 | the only exception the loop raises is the duplicate keyword |
| DbOps.KeywordRecordRaises | backend/db_ops.py:44 | a record carrying `division_id` or `last_updated` makes the call raise and leaves the table as it was |
| DbOps.ApplyRecord | backend/db_ops.py:43-64 | the loop body performs exactly one `Step` |
| DbOps.AddEmployeesFromRecords | backend/db_ops.py:15-70 | the outcome and the new employee table are those `AddEmployees` defines; no catalog changes |
| Parsers.ModelRegSpec | backend/parsers.py:14-19 | the registry holds exactly the four catalog columns, each renamed to itself plus `_id`; only `salary_band` is copied by id |
| Parsers.ModelTargetsDistinct | backend/parsers.py:14-19 | two registered columns rename to two different keys |
| Parsers.Columns | backend/parsers.py:93 | the reader's `names` are the schema's columns, in order |
| Parsers.DtypeSplit | backend/parsers.py:86-91 | the loop builds exactly the `dtypes` and `parse_dates` of the header list |
| Parsers.DtypeSplitSpec | backend/parsers.py:86-91 | a column is date-parsed iff it is declared `date`, and gets a dtype iff it is declared with another registered type |
| Parsers.DtypeOfColumn | backend/parsers.py:90-91 | a column with a registered non-date type gets that type |
| Parsers.UnregisteredMessageAsWrittenHidesAction | backend/parsers.py:49-52 | the message as written is the same for a misspelt action and for a missing one |
| Parsers.UnregisteredMessageNamesAction | backend/parsers.py:49-52 | the corrected message names the action, and different actions give different messages |
| Parsers.FuncTransformSpec | backend/parsers.py:47-54 | the registered action cleans a text cell into the column itself; any other action, or none, raises with one and the same message, which names `None` |
| Parsers.RegexTransformSpec | backend/parsers.py:55-61 | no match raises with the pattern and value; a match gives a dictionary iff every group exists, each target holding its group |
| Parsers.OtherTransformRaises | backend/parsers.py:62-63 | any other transform type raises, naming the type |
| Parsers.GroupsDictSpec | backend/parsers.py:61 | the groups give a dictionary iff every group exists; it has no repeated key, and with distinct targets each target holds its group |
| Parsers.BuildRecord | backend/parsers.py:96-118 | the two loops build exactly the record `RecordOf` defines, or its error |
| Parsers.HeaderPassWellFormed | backend/parsers.py:98-104 | the header loop keeps the record free of repeated keys |
| Parsers.RenameKeySpec | backend/parsers.py:106-117 | a renaming step removes the catalog column, gives its `_id` key the resolved value or raises, and leaves every other key alone |
| Parsers.RenameClears | backend/parsers.py:106-117 | after the renaming loop no catalog column is left |
| Parsers.RenameKeeps | backend/parsers.py:106-117 | a key that nothing renames to keeps its value |
| Parsers.RenameValue | backend/parsers.py:107-117 | a catalog column holding v ends up as its `_id` key holding v's key |
| Parsers.RecordHasNoCatalogColumns | backend/parsers.py:96-118 | a built record has no catalog column left |
| Parsers.RecordRenamesColumn | backend/parsers.py:96-118 | a catalog column the header loop filled ends up as its `_id` key holding the resolved value |
| Parsers.HeaderPassPlain | backend/parsers.py:98-104 | with no transforms, the header loop stores each cell under its column, in order |
| Parsers.Outcomes | backend/parsers.py:95-120 | one outcome per row of the frame, in order |
| Parsers.ParseCsv | backend/parsers.py:65-121 | the method returns exactly the records and errors `ParseCsvSpec` defines, or the exception raised |
| Parsers.OutcomesPartition | backend/parsers.py:95-120 | every row gives exactly one record or one error entry |
| Parsers.OutcomesAppend | backend/parsers.py:95-120 | records and errors follow the row order |
| Parsers.OutcomesOrigin | backend/parsers.py:95-120 | every record and every error comes from some row |
| Parsers.ParseCsvRaises | backend/parsers.py:83-93 | a parse raises iff the schema has no `headers` or the reader raises |
| Parsers.ParseCsvCounts | backend/parsers.py:94-121 | after a successful read, records plus errors number the rows |
| Parsers.ParseCsvNoCatalogColumns | backend/parsers.py:94-121 | no parsed record keeps a catalog column |
| Parsers.ParseCsvOrigin | backend/parsers.py:94-121 | every record is the record of some row, and every error is the error of some row, with that row's index |
| Ingest.BaseName | backend/ingest.py:16 | a file name contains no '/' |
| Ingest.BaseNameOfChild | backend/ingest.py:16 | the name of a directory entry is what follows the directory |
| Ingest.DateOfNameSpec | backend/ingest.py:14-20 | a name has a date, valid or not, iff the pattern matches, and the date is `strptime` of the matched digits |
| Ingest.DecimalNumberAscii | backend/ingest.py:20 | `int` of ASCII digits is their decimal value |
| Ingest.StrptimeDate | backend/ingest.py:20 | `strptime` never leaves a matched name undated: it gives a date or raises |
| Ingest.StrptimeAscii | backend/ingest.py:20 | on eight ASCII digits `strptime` succeeds iff they spell a valid date, four, two and two, and gives that date |
| Ingest.ForeignMonthRaises | backend/ingest.py:16-20 | Arabic-Indic digits in the month match the pattern but make `strptime` raise |
| Ingest.ForeignYearRead | backend/ingest.py:16-20 | Arabic-Indic digits in the year are read: `x_٢٠٢٣0101.csv` is dated 2023-01-01 |
| Ingest.SuffixAtUnique | backend/ingest.py:16 | the pattern can match at one offset only |
| Ingest.DateOfPathOnlyName | backend/ingest.py:16 | a file's date depends on its name alone |
| Ingest.DivisionDirsSpec | backend/ingest.py:30 | exactly the directories whose name contains "division" in any case are chosen, in iteration order |
| Ingest.DatedFilesRaises | backend/ingest.py:46 | listing the dates raises iff some file has an invalid date, and the error names such a file |
| Ingest.DatedFilesFirstBad | backend/ingest.py:46 | the error names the first file with an invalid date |
| Ingest.DatedFilesMembers | backend/ingest.py:46-47 | a (file, date) pair is kept iff the file is in the directory and its name carries that date |
| Ingest.DatedFilesOrder | backend/ingest.py:46-47 | the kept files are the dated files, in glob order |
| Ingest.InsertByDatePerm | backend/ingest.py:47 | insertion adds exactly the one element |
| Ingest.InsertByDateSorted | backend/ingest.py:47 | insertion keeps the list sorted by date |
| Ingest.InsertByDateStable | backend/ingest.py:47 | insertion keeps files of equal date in their order |
| Ingest.SortByDateSpec | backend/ingest.py:47 | the files are sorted by date, are a permutation of the input, and files of equal date keep their order (a stable sort) |
| Ingest.ThenThen | backend/ingest.py:38-61 | prepending two runs of events is prepending their concatenation |
| Ingest.AddToKeeps | backend/db_ops.py:15-70 | adding a file's records stores nothing when it raises, never shrinks the table, and keeps its names unique |
| Ingest.AddToKeepsAll | backend/ingest.py:58 | the same holds for every division |
| Ingest.RunFilesSpec | backend/ingest.py:49-61 | one event per file, in order, until the first add that raises; a parse failure is reported and skipped; the table never shrinks and keeps its names unique |
| Ingest.EventsShift | backend/ingest.py:49-61 | the events of the files after the first follow those of the first |
| Ingest.InOrderAppend | backend/ingest.py:38 | reports of one division followed by reports of later ones stay in division order |
| Ingest.DivisionRunSpec | backend/ingest.py:46-61 | a division's events and its abort concern its own dated files; the table never shrinks and keeps its names unique |
| Ingest.BadDateStop | backend/ingest.py:46 | an invalid file date stops the run at a file of that division |
| Ingest.DivisionStop | backend/ingest.py:49-61 | a division with only valid dates stops only on a failed add of one of its dated files |
| Ingest.RunFromAborts | backend/ingest.py:38-61 | the run stops only at a division with a schema: at a file with an invalid date, or at a dated file whose add raised |
| Ingest.ReportsJoin | backend/ingest.py:38-61 | the reports of a division followed by those of later divisions are the reports of the whole run |
| Ingest.RunFromReports | backend/ingest.py:38-61 | every event is a division with no schema or a dated file of a division with one, and the events come division by division |
| Ingest.RunFromRows | backend/ingest.py:38-61 | the run never shrinks the employee table and keeps its names unique |
| Ingest.RunFile | backend/ingest.py:49-61 | one file: parse and add, then the rest of the division, as `RunFiles` defines; catalogs unchanged |
| Ingest.RunDivision | backend/ingest.py:49-61 | the file loop does what `RunFiles` defines from the first file; catalogs unchanged |
| Ingest.RunDivisionAt | backend/ingest.py:38-61 | one division: no schema, an invalid date, or its files, then the rest of the run, as `RunFrom` defines |
| Ingest.RunDivisions | backend/ingest.py:38-61 | the division loop does what `RunSpec` defines on the table as it was; catalogs unchanged |
| Ingest.RunIngest | backend/ingest.py:35-61 | the run aborts at the seed iff the seed clashes, and then reports nothing and leaves employees alone; otherwise the run is `RunSpec` over the seeded catalogs |

## Left out

- Network and HTTP: every `fetch` call, FastAPI routing, CORS and the lifespan hook (`backend/main.py`), and the CRUD routers (`backend/routers/*.py`). The responses are values given to the model: an ok flag, a status and a body, or a rejected promise.
- Concurrency: each `Promise.all` fan-out is modelled as one combined outcome, because its ordering changes nothing the source observes.
- React rendering and routing: JSX markup, `frontend/src/main.jsx`, `Navbar.jsx`, `FilterSelect.jsx` and `navigate`. `window.confirm` is a boolean input and `alert` an output flag or message.
- Intermediate React states: the model keeps each handler's final state and not the re-renders in between, such as `loading` being true while a request is pending.
- `CreateEmployee.jsx` and `UpdateEmployee.jsx` are not part of this model. They pass `onSubmit` handlers that `EmployeeForm` never reads.
- Persistence: the SQLAlchemy engine and session (`backend/db.py`) and `create_all`. `Tables.Database` is an in-memory class of tables whose commit is all or nothing.
- pandas `read_csv`, including its dtype conversion and date parsing, is the `Reader` parameter.
- The regular-expression engine is the `Matcher` parameter.
- `toLocaleDateString('en-GB')` is the `localeDate` parameter.
- YAML loading, `get_config` and `from_schema_dir`: the seed configuration is a `SeedConfig` value and the division schemas a map from division number to schema.
- Directory iteration and globbing: the root directory is given as a list of `DirEntry` values, each holding its CSV paths in glob order.
- Run output: the prints that report an outcome become the run's `Event` log. These are a missing schema, a failed parse, and a processed file with its counts and errors. The progress prints `Processing division …` (`backend/ingest.py:39`) and `Processing …` (`backend/ingest.py:50`) have no event, since the events already follow the order of divisions and files. The `argparse` entry point is left out.
- The clock: `datetime.now()`, evaluated once as a default argument, is an explicit `dt` parameter.
- EmployeeForm.ToNumber: `Number(...)` is modelled exactly for numbers, `null`, the empty string and decimal digit strings. Every other text gives `NaN`. Signs, exponents, hexadecimal and surrounding whitespace are not modelled, because none of these comes from the form's select boxes.
- Text.Lower: lowercasing affects only the ASCII capitals, because Unicode case mapping is outside the model.
- Schemas.IsDecimalDigit: the digits are those of Unicode 15.1, in the contact pattern and in the file-name date alike. A Python built on a later Unicode version accepts the digit runs added since.
- DbOps.SqlText: an integer outside the signed 64-bit range makes the `sqlite3` driver raise `OverflowError` instead of comparing. A pandas `Timestamp` makes it raise an unsupported-type error. The row still becomes an error, since `parse_csv` catches every exception (`backend/parsers.py:119`); the model gives it the not-found message rather than the driver's.
- Strings are sequences of characters, not UTF-16 units, so JavaScript string lengths of non-BMP text differ.
- Exception texts from pandas come from the `Reader` parameter as given strings. pydantic's messages are written out as literals for the cases modelled.
- Ingest.RunIngest: its contract does not restate what seeding adds to the catalog tables, because `Utils.SeedDb`'s contract states that and `RunIngest` only composes the two.
- Schemas.IntOf: has no float input, because `Records.Value` has no float case. A column that pandas reads as floats, such as an undeclared integer column with gaps, is outside the model.
- Schemas.IntOf: underscores between digits are not modelled as accepted. Neither is the separate error pydantic gives for integer text longer than 4300 characters.
- Schemas.IntOf: whitespace is stripped by the Unicode `White_Space` set, taken as Python's whitespace set without U+001C to U+001F.
- Schemas.DateField: every text that is not a date, or a datetime of the forms above, gets the one message `invalid date format`. pydantic names the specific parse error instead, such as too short input or an invalid character.
- Schemas.DateField: datetime text with fractional seconds or a time-zone suffix is not accepted. Neither are numbers or numeric text read as Unix timestamps. pydantic accepts all of these.

## Findings

| source | as written | input that shows it | evidently intended | confidence | as-written member | corrected member |
|---|---|---|---|---|---|---|
| backend/parsers.py:51-52 | the error for an unregistered transform formats `func`, the failed lookup's result, so the message always reads `No function named 'None' registered` | a transform `{type: func, action: clean_phone}`: the message names `None`, exactly as for a transform that names no action | the message names the action that was not found | not executed | Parsers.UnregisteredMessageAsWritten (shown by Parsers.UnregisteredMessageAsWrittenHidesAction; used by Parsers.ApplyTransform) | Parsers.UnregisteredMessage (proved by Parsers.UnregisteredMessageNamesAction) |
