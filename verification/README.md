# US state reference data: table and single-record resolver

This project models the state data of the `fips` package: `fips/states.py`.

**The `States` table.** `States(with_territories, with_canada, with_mexico, use_index)` holds:

- 51 fixed rows: the fifty states and the District of Columbia;
- an optional block of two US territories, Puerto Rico and the Virgin Islands;
- an optional block of the ten Canadian provinces;
- one optional row for Mexico.

Each row has seven columns: `STATE`, `ST`, `FIPS`, `TZOFFSET`, `DST`, `SYSTEM` and `RO`. When index columns are named, the table is indexed by them and sorted by its index.

**The `State` resolver.** `State(**criteria)` looks the criteria up in the table with every block present. It succeeds only when exactly one row matches. Its columns can then be read by name, as a string (`str`), as a representation (`repr`) or as a dictionary.

The modules follow the program's pieces:

- `Rows` (rows.dfy): the row record, the column names, cell values, and the error kinds.
- `Ordering` (ordering.dfy): the order on index keys that the sort uses.
- `Frames` (frame.dfy): the three table operations the state code uses.
  - `SetIndex`: `set_index` with named columns.
  - `Select` / `Loc`: label selection with `.loc`.
  - `SortIndex`: `sort_index`.
- `StateTable` (table.dfy): the literal rows, written in the source's order.
- `StateTableKeys` (table_keys.dfy): `ST`, `STATE` and `FIPS` each hold no repeated value, whichever blocks are present.
- `FipsStates` (states.dfy): the `States` constructor and the `State` class.
- `StateProperties` (state_properties.dfy): how the pieces fit together, and the California record the test suite checks.

**How the source's values are represented.**

- A column value is `Text` (a string column) or `Number` (`TZOFFSET` and `DST`).
- Puerto Rico and the Virgin Islands write their offset as the integer `-4`. It sits in a float column, so it is `-4.0` here.
- Criteria (the keyword arguments of `State`) are a sequence of (name, value) pairs.
- `use_index` is a list of column names. A single name `n` becomes `[n]`. None, the empty string and the empty list all mean "no index" and become `[]`.

`FIPS` is kept as text. The states and territories carry two-digit codes, the provinces `C0` to `C9` and Mexico `M0` (fips/states.py:154-166).

## Model

| member | source | states |
|---|---|---|
| Rows.NameOf | fips/states.py:96 | every column's name is one of the seven column names of the table |
| Rows.ColumnNamed | fips/states.py:96 | a name designates a column exactly when it is one of the seven column names, and then it is that column's name |
| Rows.NamesRoundTrip | fips/states.py:96 | looking a column up by its own name gives that column back |
| Ordering.KeyLeTotal | fips/states.py:172 | any two index keys of equal width are ordered one way or the other, so the index sort is defined on every table |
| Ordering.KeyLeTransitive | fips/states.py:172 | the index order is transitive, so a sorted table is ordered pairwise and not only between neighbours |
| Frames.MissingNames | fips/states.py:171 | the names reported missing are exactly the requested names that are not columns |
| Frames.SetIndex | fips/states.py:170-171 | `set_index` succeeds exactly when at least one name is given and every name is a column. The rows are then unchanged and the index is the named columns in order. Unknown names fail and list exactly the names the table lacks. No names at all fail with an error of their own |
| Frames.Select | fips/states.py:26 | the rows a label selection keeps: never more than the table holds, and a row is kept exactly when it is in the table and its index values equal the key |
| Frames.Loc | fips/states.py:26 | `.loc` fails with a missing-label error exactly when no row of the table has the labels as its index values; otherwise it returns the non-empty selection of exactly those rows, in table order |
| Frames.SelectConcat | fips/states.py:26 | selecting from two tables stacked one on the other is the same as selecting from each and stacking the results |
| Frames.SelectOne | fips/states.py:26-31 | a selection has exactly one row precisely when exactly one row position matches the key, and then that row is the selection |
| Frames.SelectDistinct | fips/states.py:26 | in a column with no repeated value, the value of any row selects that row and no other |
| Frames.InsertRow | fips/states.py:172 | inserting a row into a table adds exactly that row: the result holds the old rows and the new one, each as often as before |
| Frames.SortRows | fips/states.py:172 | sorting holds the same rows the same number of times as the table sorted |
| Frames.InsertRowSorted | fips/states.py:172 | inserting a row into a table sorted by its index keeps it sorted |
| Frames.SortRowsSorted | fips/states.py:172 | sorting by the index yields rows ordered by their index keys |
| Frames.SortRowsWithoutIndex | fips/states.py:172 | sorting with the default index leaves the rows in their order |
| Frames.SortIndex | fips/states.py:172 | `sort_index` keeps the index and reorders the rows: the result is sorted by the index, holds the same rows the same number of times, and is unchanged under the default index |
| Frames.SelectCounts | fips/states.py:26 | a row occurs in a selection as often as in the table when its key matches, and otherwise never |
| Frames.SelectPermutation | fips/states.py:170-172 | reordering a table, as the sort after `set_index` does, reorders every selection from it but changes no selection's contents |
| StateTable.StateRows | fips/states.py:95-168 | the table has 51 rows, plus 2 with the territories, plus 10 with Canada, plus 1 with Mexico |
| StateTable.FullTable | fips/states.py:21-25 | the table `State` searches has all 64 rows: the base rows followed by every flagged block |
| StateTableKeys.StUnique | fips/states.py:98-167 | no `ST` value repeats within the base rows or within the flagged blocks, and no flagged block reuses a base `ST` |
| StateTableKeys.StateUnique | fips/states.py:98-167 | the same for `STATE` |
| StateTableKeys.FipsUnique | fips/states.py:98-167 | the same for `FIPS` |
| StateTableKeys.ExtensionCodesAreFresh | fips/states.py:149-167 | the territory, province and Mexico rows reuse no key value of the base rows, and each block's codes are distinct from the other blocks' |
| StateTableKeys.KeyColumnsUnique | fips/states.py:97-168 | for every combination of flags, `ST`, `STATE` and `FIPS` each hold pairwise distinct values across the whole table |
| FipsStates.IndexAndSort | fips/states.py:170-172 | without an index the rows come back in their order. With one, it succeeds exactly when every name is a column; the index is those columns in order; and the rows are the same rows, sorted by index. Unknown names fail and list exactly the missing names |
| FipsStates.States | fips/states.py:77-172 | the same promise, for the flagged table the three booleans select |
| FipsStates.CriteriaNames | fips/states.py:17 | the criteria's names, one for each criterion and in the criteria's order (`list(kwargs.keys())`) |
| FipsStates.CriteriaValues | fips/states.py:18 | the criteria's values, one for each criterion and in the criteria's order (`list(kwargs.values())`) |
| FipsStates.MatchesIsKeyEquality | fips/states.py:26 | when every criterion names a column, a row meets the criteria exactly when its key in those columns equals the criteria's values |
| FipsStates.Resolve | fips/states.py:10-31 | `State(**criteria)` succeeds exactly when the criteria are not empty and exactly one row of the full table meets them, and then it yields that row. No match, an unknown column or several matches all fail with the same "not a valid unique key" error naming the criteria. Empty criteria fail in the indexing step instead |
| FipsStates.GetAttr | fips/states.py:33-34 | reading an attribute succeeds exactly for the seven column names and yields that column of the state's row. Any other name fails |
| FipsStates.Str | fips/states.py:36-37 | `str(state)` is the value read from the `STATE` attribute |
| FipsStates.Repr | fips/states.py:39-40 | `repr(state)` is `State(ST=` + the value read from the `ST` attribute + `)` |
| FipsStates.ReprCode | fips/states.py:39-40 | a code read back from a representation is one that reproduces the representation |
| FipsStates.ToDict | fips/states.py:42-44 | `to_dict` has exactly the seven column names as keys, each mapped to the plain value that reading that attribute yields |
| StateProperties.BlocksAppend | fips/states.py:97-168 | the flags only append: the unflagged table is the base rows and a prefix of every flagged table, and every flagged table's rows are rows of the full table |
| StateProperties.BlockPositions | fips/states.py:149-168 | the blocks come in a fixed order: base rows, then territories, then provinces, then Mexico, each right after the blocks present before it |
| StateProperties.EveryKeyResolves | fips/states.py:17-31 | every row of the full table is resolved back to itself by its own `ST`, `STATE` or `FIPS` value, as the loop at fips/states.py:180-182 relies on |
| StateProperties.ReprRoundTrip | fips/states.py:39-40 | the code read back from `repr(state)` is the state's `ST` value |
| StateProperties.StrAndReprResolve | fips/states.py:36-40 | for every state of the table, resolving by the name `str` gives, or by the code `repr` shows, yields that same state |
| StateProperties.IndexedLookupDistinct | fips/states.py:170-172 | indexing any table by a column without repeats and looking up a row's value finds that row alone, despite the sort |
| StateProperties.IndexedLookup | fips/states.py:170-172 | for every choice of flags, `States(use_index=<ST, STATE or FIPS>).loc[<value of a row>]` is that row alone |
| StateProperties.CaliforniaIsFifth | fips/states.py:102 | California, code CA, FIPS 06, offset -8.0, summer time, WECC/WECC, is the fifth row, flags or not |
| StateProperties.CaliforniaByIndex | tests/tests.py:8-36 | looking up "California", "CA" or "06" in the table indexed by STATE, ST or FIPS gives the California row |
| StateProperties.CaliforniaResolves | tests/tests.py:38-65 | `State(STATE="California")`, `State(ST="CA")` and `State(FIPS="06")` each resolve to the California row |
| StateProperties.CaliforniaAttributes | tests/tests.py:38-65 | the resolved California state reads STATE California, ST CA, FIPS 06, TZOFFSET -8.0, DST 1, SYSTEM WECC and RO WECC |
| StateProperties.AmbiguousKeyFails | fips/states.py:30-31 | `State(DST=1)` matches Alabama and Alaska both, so it fails with the "not a valid unique key" error naming its criteria |

## Left out

- FipsStates.Resolve: criteria with more than one keyword are modelled as a conjunction: every named column must hold its value. The source passes the list of values to `.loc` on a multi-column index. The table library reads such a list as several labels of the first index level, not as one multi-column key. The model therefore agrees with the source only for the single-keyword criteria the code and its tests use (tests/tests.py:38-65, fips/states.py:180-182).
- FipsStates.Resolve: the error is `InvalidUniqueKey(criteria)`, not the text of the `KeyError` message. The message's formatting of the keyword dictionary is not modelled.
- FipsStates.Resolve: empty criteria fail with `NoIndexLevels`. This stands for the table library's refusal to set an index of no columns. Its exception type and text are not modelled.
- FipsStates.States: when several rows share an index value (an index on `DST` or `SYSTEM`, say), the table library's order among them is not specified. The model sorts stably and promises only what the library promises: the rows are ordered by index and are the same rows.
- FipsStates.States: a `use_index` with repeated names, and the index column's move out of the data columns, are not modelled. The model's frame keeps all seven columns in every row and records which of them form the index.
- FipsStates.GetAttr: an unknown name fails with `UnknownAttribute`. In the source, `__getattr__` indexes the row's frame by the name, so the failure is the table library's `KeyError`, the same exception class as a failed resolution. It is not `AttributeError`, so `hasattr` on a state raises for an unknown name instead of answering false. The exception class is not modelled.
- Frames.Loc: the missing-label failure is `MissingLabel(key)`. The table library's `KeyError` and its message are not modelled. `FipsStates.Resolve` turns this failure into its "not a valid unique key" error, as the `except KeyError` at fips/states.py:28-29 does.
- FipsStates.ToDict: a map has no order, so the column order of the dictionary is not modelled. In the source the index column comes first, after `reset_index`.
- Ordering.ValueLe: a number sorts before a string. The table never mixes the two kinds in one column, so the source never compares them.
- `TZOFFSET` is a `real` and `DST` a whole number read as a number. Floating-point representation is not modelled, since the values are only stored and compared, never computed with.
- The `__main__` demonstration blocks print the table and every state. Printing and display options are not modelled.
- fips/cli.py is not part of this model. It parses arguments and writes CSV output around a `.loc` call.
- fips/__init__.py is not part of this model. It contains documentation and re-exports only.
- County data (`fips.counties` and tests/tests.py:67-81) is not part of this model. Its source is not available.
- The table library's own machinery (data-frame subclassing, `reset_index`, column dtypes) is not modelled. A table is a sequence of row records plus the list of its index columns.
