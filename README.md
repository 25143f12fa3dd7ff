# Asset extraction and feed references of `build_datafeed.py`

This project models the part of `scripts/build_datafeed.py` that turns a
spreadsheet of critical-infrastructure assets into the asset list of the
data feed, and the asset names the feed quotes.

- **Sheet choice** (`AssetExtractor.SelectSheet`). The script reads the first
  sheet that has a row with a non-missing cell. A workbook that does not
  exist, or one with no such sheet, gives the empty table.
- **Header normalisation** (`AssetExtractor.NormalizeHeaders`). The header
  names of a non-empty table are trimmed with Python's `str.strip()`. That
  function is modelled exactly over the characters for which `str.isspace()`
  holds (module `Text`).
- **Row loop** (`AssetExtractor.ExtractAssets`). For every row, a name comes
  from an ordered search over `Asset Name, Asset, Name, Site, Location Name`
  (`PickName`). A candidate counts when it is present and non-missing and,
  after trimming, is neither empty nor `nan`/`none` in any letter case. A row
  without such a name is skipped, and so is a row whose name was already seen.
  Otherwise the sector comes from the first present, non-missing one of
  `Sector, Industry, CI Sector`, trimmed and never checked for emptiness
  (`PickSector`). The pair is then appended. `seen` is the set of names
  appended so far.
- **Fallback and cap** (`AssetExtractor.BuildAssets`). An empty list becomes
  the six demo assets. The list is then cut to its first `maxAssets`
  entries.
- **References** (`FeedAssembler.ReferencesOf`). `get(i, fallback)` yields
  the name of asset `i`, or the fallback when the list is shorter. It fills
  signal 0's `assetId` and summary, the summaries of signals 1 and 4, and
  the `acled_proximity_high` indicator.

A cell is `Option<string>`, where `None` is pandas' missing value (NaN). A
table is its header list and its rows, indexed by position. A header that
occurs twice after trimming is a real case in pandas: `row.get(c)` then
returns a Series, `pd.notna(...)` returns a boolean Series, the `and`
returns that Series, and the `if` at line 51 raises `ValueError` when it
tests its truth. The model returns `Err(AmbiguousColumn(c))` when a search
reaches such a column, and the whole script stops with that error.

Each loop of the script is a `method` with a `for` loop. Its `ensures`
ties the result to a pure function: `RowName`, `RowSector`,
`Extract`, `SheetOf` or `AssetsOf`. The lemmas state what the script
promises about those functions. The row loop is specified through
`RowView`, the pair of search outcomes for one row, and `Dedup`, the loop
over those pairs. Module `Scenarios` states what the model gives for concrete rows.

The demo list is substituted (lines 71-79) before the cap (line 81). With
`MAX_ASSETS = 0` the final list is therefore empty, and signal 0 names
`"Water Treatment Plant 1"`. The list length is `min(distinct usable names,
MAX_ASSETS)` when some row has a usable name, and `min(6, MAX_ASSETS)`
otherwise.

## Model

| member | source | states |
|---|---|---|
| Text.Strip | scripts/build_datafeed.py:52 | Python's `str.strip()`: the text without its leading and trailing characters from the `str.isspace()` set |
| Text.IsNullText | scripts/build_datafeed.py:53 | `v.lower() in ("nan", "none")`, with letters lower-cased |
| AssetExtractor.HasData | scripts/build_datafeed.py:29 | `df.dropna(how="all").shape[0] > 0`: some row of the sheet has a non-missing cell |
| AssetExtractor.FirstSheetWithData | scripts/build_datafeed.py:27-33 | the sheet loop with its default: the first sheet with data in declared order, or the empty table when none has data |
| AssetExtractor.Usable | scripts/build_datafeed.py:53 | `v and v.lower() not in ("nan", "none")`: the stripped value is non-empty and not a placeholder |
| AssetExtractor.RowName | scripts/build_datafeed.py:44-55 | the name search of one row over `Asset Name, Asset, Name, Site, Location Name` |
| AssetExtractor.RowSector | scripts/build_datafeed.py:45-66 | the sector search of one row over `Sector, Industry, CI Sector` |
| AssetExtractor.Admit | scripts/build_datafeed.py:56-68 | one pass of the row loop: a search error stops the loop; a row with no name or with a name already appended is skipped before the sector search; otherwise the sector search runs and the name with its sector is appended |
| AssetExtractor.SheetOf | scripts/build_datafeed.py:24-37 | the table the script reads: the empty table for a missing workbook, else the first sheet with a non-missing cell, else the empty table |
| AssetExtractor.NormalizeHeaders | scripts/build_datafeed.py:40-41 | a table with rows and columns gets every header replaced by its stripped form; an empty table is left as is |
| AssetExtractor.ProbeColumn | scripts/build_datafeed.py:51 | `c in df.columns and pd.notna(row.get(c))`: no value when the header is absent or the cell is NaN, the cell text when the header occurs once, ambiguous when it occurs more than once |
| AssetExtractor.NameFrom | scripts/build_datafeed.py:49-55 | the name search over the candidates in order: an error at an ambiguous candidate, the stripped text of the first usable value, or no name |
| AssetExtractor.SectorFrom | scripts/build_datafeed.py:62-66 | the sector search over the candidates in order: an error at an ambiguous candidate, the stripped text of the first value, or no sector |
| AssetExtractor.Dedup | scripts/build_datafeed.py:47-68 | the row loop over the per-row search outcomes: stop at the first error; skip a row without a name or with a seen name; otherwise append the name with its sector |
| AssetExtractor.Extract | scripts/build_datafeed.py:47-68 | the row loop applied to the rows of a table |
| AssetExtractor.Finalize | scripts/build_datafeed.py:71-81 | an error passes through; otherwise an empty list becomes the six demo assets and the list is cut to its first `maxAssets` entries |
| AssetExtractor.AssetsOf | scripts/build_datafeed.py:23-81 | the final asset list of a workbook: sheet choice, header trim, row loop, then fallback and cap |
| FeedAssembler.Get | scripts/build_datafeed.py:85 | `get(i, fallback)`: the name of asset `i` when the list is longer than `i`, else the fallback |
| FeedAssembler.ReferencesOf | scripts/build_datafeed.py:85-137 | the asset-dependent parts of the feed: signal 0's `assetId` and summary, the intel and weather summaries and `acled_proximity_high`, each filled in by `get` |
| AssetExtractor.SelectSheet | scripts/build_datafeed.py:24-37 | the loop over the sheet names returns the table `SheetOf` chooses: the empty table when there is no workbook, otherwise the first sheet with data |
| AssetExtractor.FirstSheetChosen | scripts/build_datafeed.py:27-31 | when sheet `i` has data and no earlier sheet has, sheet `i` is read |
| AssetExtractor.NoSheetChosen | scripts/build_datafeed.py:32-33 | when no sheet has data, the empty table is read |
| AssetExtractor.NormalizedHeaders | scripts/build_datafeed.py:40-41 | normalising keeps the rows and the column count; with rows present, header `k` becomes `strip(header k)` and has no whitespace at either end; normalising twice equals normalising once |
| Text.TrimStartSpec | scripts/build_datafeed.py:52 | the leading trim removes exactly an all-whitespace prefix and leaves text that is empty or starts with a non-space character |
| Text.TrimEndSpec | scripts/build_datafeed.py:52 | the trailing trim removes exactly an all-whitespace suffix and leaves text that is empty or ends with a non-space character |
| Text.StripIsInnerPart | scripts/build_datafeed.py:52 | `strip(s)` is a slice `s[i..j]` with only whitespace outside it, and has no whitespace at either end |
| Text.StripIdempotent | scripts/build_datafeed.py:41 | stripping an already stripped text changes nothing |
| Text.StrippedIsFixed | scripts/build_datafeed.py:52 | text with no whitespace at either end strips to itself |
| Text.StripEmptyIffAllSpace | scripts/build_datafeed.py:53 | a text strips to the empty string exactly when all of it is whitespace, so the `if v` test rejects exactly the blank cells |
| Text.NullTextUpToCase | scripts/build_datafeed.py:53 | the placeholder test holds exactly for `nan` and `none` in any mix of letter case |
| AssetExtractor.PositionsSpec | scripts/build_datafeed.py:51 | the column lookup finds every column with the given header and no other, in increasing order |
| AssetExtractor.ProbeCases | scripts/build_datafeed.py:51 | an absent candidate gives no value; a candidate present once gives its cell, or no value when the cell is NaN; a lookup is ambiguous exactly when the header occurs twice |
| AssetExtractor.PickName | scripts/build_datafeed.py:49-55 | the inner loop over the name candidates returns `RowName` of the row, including the error at an ambiguous column |
| AssetExtractor.NamePriority | scripts/build_datafeed.py:44-55 | the name is `n` exactly when some candidate yields `n` and every earlier candidate is missing, NaN, blank after trimming or a placeholder |
| AssetExtractor.RejectedSkipped | scripts/build_datafeed.py:50-55 | candidates the search passes over can be dropped from the front of the list without changing the outcome |
| AssetExtractor.NameOrigin | scripts/build_datafeed.py:50-55 | a found name comes from a candidate that yields it, with every earlier candidate passed over |
| AssetExtractor.NameAbsent | scripts/build_datafeed.py:49-57 | a row has no name exactly when every candidate is passed over |
| AssetExtractor.NameError | scripts/build_datafeed.py:50-51 | the name search raises on column `c` exactly when `c` is a candidate reached after only passed-over ones and `c` occurs twice among the headers |
| AssetExtractor.NameIsClean | scripts/build_datafeed.py:52-54 | a found name is non-empty, not a placeholder, and has no whitespace at either end |
| AssetExtractor.PickSector | scripts/build_datafeed.py:62-66 | the inner loop over the sector candidates returns `RowSector` of the row |
| AssetExtractor.SectorPriority | scripts/build_datafeed.py:45-66 | the sector is `s` exactly when the first candidate with a value, all earlier ones having none, has trimmed text `s`; no emptiness check |
| AssetExtractor.MissingSectorSkipped | scripts/build_datafeed.py:63-64 | candidates without a value can be dropped from the front without changing the sector |
| AssetExtractor.SectorOrigin | scripts/build_datafeed.py:63-66 | a found sector is the trimmed text of a candidate with a value, every earlier candidate having none |
| AssetExtractor.SectorAbsent | scripts/build_datafeed.py:62-66 | the sector is `None` exactly when no candidate has a value |
| AssetExtractor.SectorError | scripts/build_datafeed.py:63-64 | the sector search raises on column `c` exactly when `c` is reached after candidates without a value and occurs twice among the headers |
| AssetExtractor.ExtractAssets | scripts/build_datafeed.py:47-68 | the row loop returns `Extract` of the rows; at every iteration `seen` is the set of names appended so far |
| AssetExtractor.DedupPrefixStep | scripts/build_datafeed.py:48-68 | the outcome on the first `i + 1` rows is one iteration of the loop body applied to the outcome on the first `i` |
| AssetExtractor.ErrorPersists | scripts/build_datafeed.py:48-68 | once a row raises, the loop ends with that error whatever rows follow |
| AssetExtractor.ViewsAppend | scripts/build_datafeed.py:48 | the per-row search outcomes of two row blocks are those of each block in turn |
| AssetExtractor.NameSetSnoc | scripts/build_datafeed.py:58-68 | appending an asset adds exactly its name to the set of names |
| AssetExtractor.ViewNamesSnoc | scripts/build_datafeed.py:48-57 | one more row adds its name, if it has one, to the names found in the rows |
| AssetExtractor.DedupNames | scripts/build_datafeed.py:58-68 | the appended names are pairwise distinct, and their set is exactly the set of names found in the rows |
| AssetExtractor.ExtractedNamesClean | scripts/build_datafeed.py:50-68 | extracted names are pairwise distinct, non-empty, not placeholders, and trimmed |
| AssetExtractor.DedupSnoc | scripts/build_datafeed.py:48-68 | one more row either keeps an earlier error or applies one iteration of the loop body to the list so far |
| AssetExtractor.ExtendCongruence | scripts/build_datafeed.py:48-68 | row prefixes with the same outcome keep the same outcome when the same rows follow |
| AssetExtractor.NamelessRowIgnored | scripts/build_datafeed.py:56-57 | inserting a row without a usable name anywhere leaves the result unchanged |
| AssetExtractor.DuplicateRowIgnored | scripts/build_datafeed.py:58-59 | inserting a row whose name an earlier row already gave leaves the result unchanged, whatever its sector cells hold |
| AssetExtractor.FirstNamedSpec | scripts/build_datafeed.py:48-58 | `FirstNamed` lists, in increasing order, exactly the rows whose name no earlier row carries |
| AssetExtractor.DedupKeepsFirstNamed | scripts/build_datafeed.py:48-68 | the list is, in row order, one asset per row that carries a name for the first time, with that row's name and sector |
| AssetExtractor.ExtractKeepsFirstNamedRows | scripts/build_datafeed.py:48-68 | the same, stated of the rows of a table: asset `k` has the name and sector of the `k`-th first-named row |
| AssetExtractor.DedupOk | scripts/build_datafeed.py:48-68 | with no row raising in either search, the loop succeeds |
| AssetExtractor.NoRepeatedCandidateNoError | scripts/build_datafeed.py:44-66 | when no candidate header occurs twice, extraction always succeeds |
| AssetExtractor.NameSearchOk | scripts/build_datafeed.py:50-55 | with no ambiguous candidate, the name search does not raise |
| AssetExtractor.SectorSearchOk | scripts/build_datafeed.py:63-66 | with no ambiguous candidate, the sector search does not raise |
| AssetExtractor.DistinctNamesCount | scripts/build_datafeed.py:58-60 | a list of assets with distinct names has as many names as entries |
| AssetExtractor.ExtractedCount | scripts/build_datafeed.py:47-68 | the extracted list has one entry per distinct usable name in the rows |
| AssetExtractor.BuildAssets | scripts/build_datafeed.py:23-81 | sheet choice, header trim, row loop, fallback and cap together return `AssetsOf` the workbook |
| AssetExtractor.FinalFromExtracted | scripts/build_datafeed.py:71-81 | when some row has a usable name, the final list is a prefix of the extracted list of length `min(distinct names, maxAssets)` |
| AssetExtractor.FallbackWhenNothingExtracted | scripts/build_datafeed.py:71-81 | when no row has a usable name, the final list is the demo list cut to `min(6, maxAssets)` entries |
| AssetExtractor.NoDataFallsBack | scripts/build_datafeed.py:24-81 | a missing workbook, or one with no sheet holding data, yields the demo list cut to `maxAssets`, so all six under a cap of six or more |
| AssetExtractor.FinalListInvariants | scripts/build_datafeed.py:71-81 | the final list has at most `maxAssets` entries, is empty exactly when `maxAssets` is 0, and has distinct, usable, trimmed names |
| AssetExtractor.DemoAssetsClean | scripts/build_datafeed.py:72-79 | the demo list has six entries with distinct, usable, trimmed names |
| AssetExtractor.CleanName | scripts/build_datafeed.py:52-53 | a text longer than four characters with no whitespace at either end strips to itself and is accepted as a name |
| FeedAssembler.GetCases | scripts/build_datafeed.py:85 | `get(i, fb)` is `assets[i].name`, a name of the list, when `i` is in range, and `fb` otherwise |
| FeedAssembler.QuotedPositions | scripts/build_datafeed.py:85-137 | signal 0 and the first indicator entry quote asset 0, the intel summary and second indicator entry asset 1, the weather summary asset 2; a position past the end quotes its placeholder |
| FeedAssembler.OnlyFirstThreeQuoted | scripts/build_datafeed.py:90-137 | with three or more assets, the references do not depend on any later asset |
| FeedAssembler.ProximityIndicator | scripts/build_datafeed.py:137 | `acled_proximity_high` has two entries; with fewer than two assets the second is `Asset-2`; with two or more it is the first two names, which differ |
| FeedAssembler.IncidentAssetId | scripts/build_datafeed.py:81-92 | with `maxAssets > 0` signal 0 names the first asset; only `maxAssets = 0` leaves every reference a placeholder |
| FeedAssembler.EmptyListReferences | scripts/build_datafeed.py:85-137 | an empty list gives the placeholder in every reference |
| Scenarios.PumpRowsSearched | scripts/build_datafeed.py:50-66 | both "Pump Station A" rows yield that name under `Asset Name`; the first yields "Water and Wastewater Systems" |
| Scenarios.PumpSheetLoaded | scripts/build_datafeed.py:24-41 | the one-sheet pump workbook is read as is; its headers are already trimmed |
| Scenarios.DedupSameNameTwice | scripts/build_datafeed.py:58-68 | two rows with the same name give one asset with the first row's sector |
| Scenarios.PumpRowsExtracted | scripts/build_datafeed.py:47-68 | the pump rows extract to the single asset with the first sector |
| Scenarios.DuplicateNameKeepsFirstSector | scripts/build_datafeed.py:47-92 | the pump workbook with a cap of 1 yields exactly "Pump Station A" with "Water and Wastewater Systems", and signal 0 names it |
| Scenarios.AssetNameBeatsName | scripts/build_datafeed.py:44-55 | with both `Name` and `Asset Name` filled, the name comes from `Asset Name`, though `Name` is the first column |
| Scenarios.NaNCellRejected | scripts/build_datafeed.py:52-53 | a `" NaN "` cell trims to `NaN`, which is rejected as a placeholder |
| Scenarios.PlaceholderPassedOver | scripts/build_datafeed.py:52-55 | a `" NaN "` cell under `Asset Name` is passed over and `Site` supplies the name |
| Scenarios.BlankSectorIsEmpty | scripts/build_datafeed.py:64-65 | a whitespace-only sector cell gives the empty sector |
| Scenarios.CollidingHeadersTrimmed | scripts/build_datafeed.py:41 | headers `"Name "` and `" Name"` both trim to `Name` |
| Scenarios.CollidingRowRaises | scripts/build_datafeed.py:50-51 | with two `Name` columns and neither `Asset Name` nor `Asset`, the name search raises on `Name` |
| Scenarios.CollidingHeadersRaise | scripts/build_datafeed.py:41-51 | a sheet with headers `"Name "` and `" Name"` makes extraction raise on `Name` |

## Left out

- The environment variables and the `int()` parse of `MAX_ASSETS` (lines 7-9) are left out. `maxAssets` is a `nat` parameter. A negative value, where Python's slice would count from the end, is not modelled.
- File discovery through `os.path.exists` and `glob` (lines 14-20) is left out. A workbook is `Option<seq<Table>>`, with `None` for a path that does not exist.
- Parsing the workbook with pandas (`ExcelFile`, `parse`) is left out. Each sheet arrives as header texts and cells that are text or missing. The `str()` conversion of numeric or date cells and headers happens before the model. So does pandas' choice of which cell texts read as NaN.
- Rows are taken as given, not padded. A cell index beyond a short row reads as missing. Nothing bounds a row's length by the number of headers either. pandas would name an extra cell's column `Unnamed: k`, but the model leaves the cell with no header. `HasData` still counts such a cell, while no column lookup ever reads it. So in the model a sheet whose only non-missing cells lie past the last header is chosen as a sheet with data, extracts no assets, and so falls back to the demo list.
- `str.lower()` is modelled on ASCII letters only. That is enough for the `nan`/`none` test, because no other character lower-cases to one of those letters.
- Output directory creation, `json.dump`, the output file and the final `print` (lines 12, 143-146) are I/O and are left out.
- The UTC timestamp `updated` (line 84) is the wall clock and is left out.
- The fixed signal and indicator literals (lines 87-141) are left out, including the floats `cvss` and `fx_reserve_months`. Only the strings built with `get` are modelled, in `References`.
- Running the script twice on the same input gives the same signals and indicators. That holds in the model by construction, since `ReferencesOf` is a function of the asset list. No separate lemma states it.
