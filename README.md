# recipes-sqlite: a Dafny model of ingestion and the query catalog

`recipes-sqlite` imports a recipes CSV into an SQLite table and then runs a
fixed catalog of eight read-only queries against it. This project models the
three pieces of repository logic that do not depend on pandas or SQLite
themselves, and proves what they promise:

- **Encoding fallback** (`read_csv_with_fallback`, module `CsvReader`). The
  CSV library is an oracle `Reader = Encoding -> Attempt`. Each attempt either
  parses into a `Table` or raises an instance of some `Exception` subclass. The loop tries
  utf-8, utf-8-sig, latin1 and cp1251 in that order. It returns the first
  parse that succeeds and tries nothing after it. If all four raise, it fails
  with `RuntimeError`.
- **Column-name normalisation** (line 18, modules `ColumnNames` and
  `Ingestion`). Each header goes through `strip()`, then `lower()`, then
  `replace(" ", "_")`, in list order. `Ingestion.DataFrame` is the pandas
  frame, whose `columns` field the rename reassigns in place. For `strip()`,
  the model proves that `Strip` is the only slice of the input meeting an
  independent definition: whitespace removed at both ends and nowhere else.
  The names that normalisation leaves unchanged are exactly the names in
  normal form, so normalisation is idempotent. It does not deduplicate.
- **Query catalog** (`run_queries`, modules `QueryRunner` and
  `CuisineGroups`). Executing a query is an oracle
  `Database = Query -> Execution`. Each of the eight blocks reports its rows.
  If its query raises `sqlite3.OperationalError`, the block reports "skipped"
  instead, and the later blocks still run. Any other exception escapes the
  block and ends the run. Query 6 (group by cuisine, keep groups with more
  than 10 rows, order by count descending) is modelled over the cuisine
  column's values, for a table that has a `cuisine` column and no `count`
  column.

Three facts about the code:

- When every encoding fails, the code raises `RuntimeError` (line 13).
- Any `Exception` subclass raised by an attempt counts as a failed attempt
  (line 11), whether or not it is a decode error.
- `run_queries` closes its connection only when it reaches line 150; the
  close is not in a `finally`, so an escaping error leaves the connection
  open.

## Model

| member | source | states |
|---|---|---|
| ColumnNames.IsSpace | recipes-sqlite/src/main.py:18 | Python's `str.isspace` set, by code point: the characters `strip()` removes |
| ColumnNames.SpaceClasses | recipes-sqlite/src/main.py:18 | the whitespace `strip()` removes includes space, tab, newline, carriage return and the no-break space, and never includes the underscore, an ASCII letter or a digit |
| ColumnNames.LowerChar | recipes-sqlite/src/main.py:18 | the result is never an ASCII capital; a capital moves to its lower-case letter; any other character is unchanged; whitespace stays whitespace and non-whitespace stays non-whitespace |
| ColumnNames.SkipLeading | recipes-sqlite/src/main.py:18 | the start of the stripped name: every character skipped is whitespace, and the character it stops at is not |
| ColumnNames.SkipTrailing | recipes-sqlite/src/main.py:18 | the end of the stripped name: every character dropped from the end is whitespace, and the last one kept is not |
| ColumnNames.Strip | recipes-sqlite/src/main.py:18 | `strip()` gives a name with no whitespace at either end, no longer than the input |
| ColumnNames.StripMeaning | recipes-sqlite/src/main.py:18 | `Strip` meets the independent definition of strip: a middle slice of the input, with only whitespace before and after it, and no whitespace at its ends |
| ColumnNames.StripUnique | recipes-sqlite/src/main.py:18 | any slice meeting that definition equals `Strip`, so the definition has one answer |
| ColumnNames.SameStrip | recipes-sqlite/src/main.py:18 | two slices that both meet the definition are equal |
| ColumnNames.StripTrimmed | recipes-sqlite/src/main.py:18 | a name with no whitespace at its ends is its own strip |
| ColumnNames.Lower | recipes-sqlite/src/main.py:18 | `lower()` keeps the length, and character k of the result is character k of the name, lower-cased |
| ColumnNames.ReplaceSpaces | recipes-sqlite/src/main.py:18 | `replace(" ", "_")` keeps the length, turns each space into an underscore, keeps every other character in place, and leaves no space |
| ColumnNames.CaseAndSpacesKeepTrimmed | recipes-sqlite/src/main.py:18 | lower-casing and then replacing spaces keeps a name with no whitespace at its ends free of whitespace at its ends |
| ColumnNames.Normalize | recipes-sqlite/src/main.py:18 | a normalised name contains no space, has no whitespace at either end, has no ASCII capital, and is no longer than the raw header |
| ColumnNames.NormalizeAll | recipes-sqlite/src/main.py:18 | the new column list has as many names as the old one, and entry i is the normalised form of raw header i |
| ColumnNames.NormalizeFixedPoint | recipes-sqlite/src/main.py:18 | normalisation leaves a name unchanged if and only if the name is in normal form (trimmed, no space, no capital) |
| ColumnNames.NormalFormUnchanged | recipes-sqlite/src/main.py:18 | normalisation leaves a name in normal form unchanged |
| ColumnNames.NormalizeIdempotent | recipes-sqlite/src/main.py:18 | normalising twice gives the same name as normalising once |
| ColumnNames.NormalizeAllIdempotent | recipes-sqlite/src/main.py:18 | renaming the whole column list twice gives the same list as renaming it once |
| ColumnNames.NormalizeTrimmedHeader | recipes-sqlite/src/main.py:18 | a header with no edge whitespace is only lower-cased and underscored |
| ColumnNames.NormalizeAllOf | recipes-sqlite/src/main.py:18 | the renamed column list is fixed by the normalised name of each column, position by position |
| ColumnNames.NormalizeTwo | recipes-sqlite/src/main.py:18 | a two-column header row is renamed column by column |
| ColumnNames.NormalizeThree | recipes-sqlite/src/main.py:18 | a three-column header row is renamed column by column |
| ColumnNames.NormalizeCollides | recipes-sqlite/src/main.py:18 | the distinct headers "Cooking Time" and "cooking_time" both become "cooking_time"; the list keeps both |
| ColumnNames.CookingTimeHeader | recipes-sqlite/src/main.py:18 | "Cooking Time" becomes "cooking_time" |
| ColumnNames.NormalizedCookingTimeHeader | recipes-sqlite/src/main.py:18 | "cooking_time", already in normal form, stays "cooking_time" |
| ColumnNames.NormalizeCollidesWithImage | recipes-sqlite/src/main.py:18 | every header not already in normal form is a different string from its normalised name, yet maps to the same name |
| ColumnNames.RecipeNameHeader | recipes-sqlite/src/main.py:18 | "Recipe Name" becomes "recipe_name" |
| ColumnNames.CuisineHeader | recipes-sqlite/src/main.py:18 | "Cuisine" becomes "cuisine" |
| ColumnNames.CookingTimeMinutesHeader | recipes-sqlite/src/main.py:18 | "Cooking Time Minutes" becomes "cooking_time_minutes" |
| ColumnNames.NormalizeRecipeHeaders | recipes-sqlite/src/main.py:18 | the header row `Recipe Name, Cuisine, Cooking Time Minutes` becomes `recipe_name, cuisine, cooking_time_minutes` |
| CsvReader.FirstParsed | recipes-sqlite/src/main.py:8-10 | the selected position is the first whose parse succeeds: every earlier encoding raised, the selected one parsed, or none did and it is the list length |
| CsvReader.NoneParsedIffAllRaise | recipes-sqlite/src/main.py:8-13 | no encoding is selected if and only if every encoding in the list raises |
| CsvReader.FirstParsedAt | recipes-sqlite/src/main.py:8-10 | an encoding that parses after every earlier one raised is the one selected |
| CsvReader.ReadCsvWithFallback | recipes-sqlite/src/main.py:7-13 | encodings are tried in priority order; every attempt but the last raised; on success the table is the last attempt's parse, the first success in the list, and nothing after it is tried; it fails with `RuntimeError` if and only if all four raise, after trying all four |
| Ingestion.DataFrame.constructor | recipes-sqlite/src/main.py:16 | the frame holds the parsed header row and data rows |
| Ingestion.DataFrame.NormalizeColumns | recipes-sqlite/src/main.py:18 | `columns` becomes the normalised list of the old columns; the rows are untouched |
| Ingestion.LoadFrame | recipes-sqlite/src/main.py:16-18 | loading fails, with `RuntimeError`, exactly when every encoding fails; otherwise it gives a new frame holding the first successful parse's rows, with normalised columns |
| Ingestion.LoadedColumnsNormal | recipes-sqlite/src/main.py:18 | after the rename every column name is in normal form, and the column count is unchanged |
| QueryRunner.Escapes | recipes-sqlite/src/main.py:41 | only a raised error can escape a block; a fetch never does; a raised error escapes exactly when it is not an `OperationalError` |
| QueryRunner.OutcomeOf | recipes-sqlite/src/main.py:36-42 | a block reports the query it ran; it is skipped exactly when its execution raised a caught error; otherwise it reports the fetched rows |
| QueryRunner.FirstEscape | recipes-sqlite/src/main.py:36-148 | the stopping position is the first block whose error is not an `OperationalError`, or the catalog length if there is none |
| QueryRunner.FirstEscapeAt | recipes-sqlite/src/main.py:36-148 | the blocks before a position, and the block at it, fix the stopping position |
| QueryRunner.RunAll | recipes-sqlite/src/main.py:36-148 | the run completes if and only if no block's error escapes |
| QueryRunner.RunCatalog | recipes-sqlite/src/main.py:36-148 | the loop over the blocks gives the result of `RunAll`; a completed run has one outcome per query and executed every query in order; an aborted run executed the queries up to and including the escaping one |
| QueryRunner.RunQueries | recipes-sqlite/src/main.py:29-150 | the fixed eight-query catalog, with the same guarantees |
| QueryRunner.CompletesInOrder | recipes-sqlite/src/main.py:36-148 | if no error escapes, there is exactly one outcome per query, in catalog order, and outcome k is "skipped" if and only if query k raised, and a query that fetched reports exactly its rows |
| QueryRunner.SkipIsolated | recipes-sqlite/src/main.py:36-148 | making query k raise `OperationalError` changes only outcome k, which becomes "skipped"; whether the run completes, how far it gets and the error that ends it are the same as before; a run that stops before k is unchanged |
| QueryRunner.MissingCuisineSkipsCuisineQueries | recipes-sqlite/src/main.py:36-148 | when the table lacks `cuisine`, so that queries 1, 2, 6 and 8 raise `OperationalError` and the other four fetch, the run completes with exactly eight outcomes in catalog order: 1, 2, 6 and 8 skipped, and 3, 4, 5 and 7 reporting their rows |
| QueryRunner.CuisineQueriesSkipped | recipes-sqlite/src/main.py:36-148 | the same outcomes for any eight-query list in the catalog's order |
| CuisineGroups.Distinct | recipes-sqlite/src/main.py:98 | the grouping keys are exactly the column's values, each once |
| CuisineGroups.GroupBy | recipes-sqlite/src/main.py:96-98 | a value occurs in the column if and only if it has a group carrying its row count; every group counts its key's rows; no group repeats |
| CuisineGroups.Having | recipes-sqlite/src/main.py:99 | with `count` naming the `COUNT(*)` alias, the groups kept are exactly those counting more than 10 rows; no duplicates are introduced |
| CuisineGroups.Insert | recipes-sqlite/src/main.py:100 | inserting a group into a list sorted by descending count keeps it sorted and adds exactly that group |
| CuisineGroups.SortByCountDesc | recipes-sqlite/src/main.py:100 | the result is in non-increasing count order and is a permutation of the input |
| CuisineGroups.CountsByCuisine | recipes-sqlite/src/main.py:96-100 | the groups of query 6 come in non-increasing count order, and each counts more than 10 rows |
| CuisineGroups.CountsByCuisineCorrect | recipes-sqlite/src/main.py:96-100 | counts never increase down the result; each reported group counts more than 10 rows and has its true row count; every value with more than 10 rows is reported; no group is reported twice |
| CuisineGroups.ResultRows | recipes-sqlite/src/main.py:104-105 | one fetched row `(cuisine, count)` per group, in order |
| CuisineGroups.Query6RowsAboveThreshold | recipes-sqlite/src/main.py:96-105 | every row query 6 fetches has two columns, and its count is above 10 |
| CuisineGroups.Query6Reported | recipes-sqlite/src/main.py:93-107 | when no block's error escapes, the sixth outcome reports query 6's rows |

## Left out

- pandas CSV parsing and byte decoding (line 10) are the `Reader` oracle. The model does not check whether a successful decode is a correct one.
- `ColumnNames.Lower` models `str.lower()` on ASCII letters only. Python's full Unicode case mapping (for example `'Ä'`, or `'İ'`, which becomes two characters) is not modelled.
- `KeyboardInterrupt`, `SystemExit` and the other `BaseException` classes outside `Exception` are not caught at line 11 and end the program; the `Reader` oracle raises only `Exception` subclasses.
- The Ukrainian text of the `RuntimeError` message (line 13) and all console output are left out.
- `df.to_sql`, the `sqlite_master` listing, `sqlite3.connect` and the file I/O (lines 19-26, 30, 150) are not modelled. They are SQLite plumbing and type inference.
- Connection release is not modelled. In particular, `conn.close()` at line 150 is not reached when an error escapes a block.
- Queries 1-5, 7 and 8 are modelled only by the rows the `Database` oracle returns. Their SQL semantics (`LIMIT`, `LIKE`, `CAST ... AS REAL`, `AVG`) is not modelled. Neither are query 7's "insufficient data" branch and the `:.1f` formatting, since both need floating-point values.
- `QueryRunner.Value` has no floating-point case, because the queries that produce floats are left out.
- The f-string interpolation of the table name into each query (lines 37-137) is not modelled. There is no validation in the code to verify.
- `main` (lines 152-163) is not modelled: argument parsing, `mkdir` and the `--skip-queries` switch.
- `CuisineGroups.CountsByCuisine` assumes the table has no column named `count`, which would take the place of the alias at line 99. SQLite resolves a bare name in `HAVING` against the table's columns before the result aliases, while `ORDER BY` (line 100) prefers the alias. A CSV header `Count` becomes `count` at line 18, and query 6 then filters on that column's value in one row of each group, not on `COUNT(*)`.
- Ties in query 6: `CountsByCuisine` orders groups with equal counts by a stable sort over first appearance. SQL leaves that order unspecified, and `CountsByCuisineCorrect` does not depend on it.
