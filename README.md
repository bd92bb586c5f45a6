# Instagram export parser and follow reconciler, modelled in Dafny

This project models the core of `csv_parser.py`. That file turns a follower or following export into canonical records and summary counts. It also classifies one export by its follow flag and reconciles a followers export with a following export. The model has four modules:

- `AsciiText` (`ascii_text.dfy`): the Python string methods the parser relies on, on ASCII. These are `strip()`, `lower()`, `upper()` and `replace(' ', '_')`, plus the header normalisation built from them.
- `Comprehensions` (`comprehensions.dfy`): the filtering list comprehension `[x for x in s if keep(x)]` as `Select`, and the counting generator `sum(1 for x in s if keep(x))` as `Count`.
- `CsvParser` (`csv_parser.dfy`): `parse_instagram_csv` after tokenising. It normalises the header and applies the first-match column rename table. Then it fills missing cells, builds one six-field record per row, upper-cases both flags and computes the metadata counts.
  - The two loops of the function are the methods `BuildRenameMap` and `BuildRecords`. Each is proved equal to a specification function.
  - `ParseInstagramTable` composes them.
- `FollowAnalysis` (`follow_analysis.dfy`): `analyze_follow_status`, `find_non_followers` and `find_fans`.

An export enters the model already tokenised:

- It is a `Table` with a header row and data rows of `Option<string>` cells. `None` is a missing value, pandas' NaN.
- A row shorter than the header is missing its last cells. These read as `""`, exactly like NaN.
- The model requires the normalised header names to be distinct; see "Left out".

The pandas steps of `parse_instagram_csv` are rendered as plain functions:

- `CsvParser.NormalizeHeaders` is `df.columns.str.strip().str.lower().str.replace(' ', '_')` (csv_parser.py:19).
- `CsvParser.RenameColumns` is `df.rename(columns=rename_map)` (csv_parser.py:40).
- `CsvParser.FillRow` and `CsvParser.FillNa` are `df.fillna('')` (csv_parser.py:43).

Their joint effect on the records is what `CsvParser.CellPlacement` and `CsvParser.AbsentColumnIsEmpty` state.

Any flag other than `YES` or `NO`, not only an empty one, falls outside both follow counts (csv_parser.py:59-60). `CsvParser.Summarize` states that the two counts reach the total if and only if every flag is `YES` or `NO`.

## Model

| member | source | states |
|---|---|---|
| AsciiText.Strip | csv_parser.py:19 | `strip()` returns a slice of the header cut only at whitespace (Python's ASCII `isspace` set), and neither end of the result is whitespace |
| AsciiText.Lower | csv_parser.py:19 | `lower()` keeps the length and maps each character to its lower-case partner, changing only upper-case ASCII letters |
| AsciiText.Upper | csv_parser.py:51-52 | `upper()` keeps the length and maps each character to its upper-case partner, changing only lower-case ASCII letters |
| AsciiText.ReplaceSpaces | csv_parser.py:19 | `replace(' ', '_')` keeps the length, turns every space into `_` and keeps every other character |
| AsciiText.NormalizeHeader | csv_parser.py:19 | a normalised header is no longer than the original, holds no space and no upper-case letter, and has no whitespace at either end |
| AsciiText.NormalizeHeaderIdempotent | csv_parser.py:19 | normalising a normalised header changes nothing |
| AsciiText.NormalizeHeaderFixes | csv_parser.py:19 | a name with no space, no upper-case letter and no whitespace at either end is already normal |
| AsciiText.UpperIdempotent | csv_parser.py:51-52 | upper-casing a flag that was already upper-cased changes nothing |
| AsciiText.YesSpellings | csv_parser.py:51-52 | `yes`, `Yes` and `YES` all read as `YES` |
| Comprehensions.Select | csv_parser.py:76-77 | a list comprehension keeps exactly the elements that pass the test, and is no longer than its input |
| Comprehensions.Count | csv_parser.py:59-61 | a `sum(1 for ...)` count never exceeds the number of records, is zero exactly when no record passes, and equals the number of records exactly when every record passes |
| Comprehensions.SelectAppend | csv_parser.py:76-77 | the filter is stable: filtering a concatenation filters each part, in order |
| Comprehensions.SelectLength | csv_parser.py:59-61 | the filtered list is exactly as long as the `sum(1 for ...)` count with the same test |
| Comprehensions.CountExclusive | csv_parser.py:59-60 | two counts by exclusive tests add up to at most the length, and to the length exactly when every element passes one of the tests |
| CsvParser.FirstPresent | csv_parser.py:35-38 | the inner loop stops at the first spelling, in list order, that is among the headers; with none present it renames nothing |
| CsvParser.RenameMapOf | csv_parser.py:33-38 | every renamed header is a header, and it was chosen by the entry whose canonical name it receives |
| CsvParser.RenameMapOfFirstMatch | csv_parser.py:33-38 | in a table of distinct names and disjoint spellings, the headers renamed to an entry's name are exactly that entry's first present spelling |
| CsvParser.RenameIsFirstMatch | csv_parser.py:22-40 | for the parser's own table, first match wins: a header is renamed to a canonical name if and only if it is that name's earliest present spelling |
| CsvParser.LaterSpellingKeepsName | csv_parser.py:22-40 | a spelling listed after the chosen one keeps its own name, even when it is a header |
| CsvParser.RenamingKeepsColumnsDistinct | csv_parser.py:33-40 | renaming never merges two distinct headers, so each canonical name labels at most one column |
| CsvParser.HeadIsChosen | csv_parser.py:22-40 | a header is renamed to a canonical name that is itself a header only if the two are the same (each canonical name is its own first spelling) |
| CsvParser.ColumnMapWellFormed | csv_parser.py:22-30 | the rename table has distinct canonical names, no spelling shared between entries or repeated within one, and each entry's first spelling is its canonical name |
| CsvParser.ColumnMapSpellingsPlain | csv_parser.py:22-30 | every spelling in the rename table is made of lower-case letters and underscores |
| CsvParser.SpellingIsRenamed | csv_parser.py:19-40 | a header row made of one accepted spelling parses to its canonical name |
| CsvParser.IndexOf | csv_parser.py:48-53 | the index of a column name is its first occurrence, and there is none exactly when the name is not a column |
| CsvParser.Lookup | csv_parser.py:48-53 | `row.get(name, '')` is `""` for an absent column and, under distinct columns, the cell of the column with that name |
| CsvParser.RecordOf | csv_parser.py:47-54 | both flags of a built record are already upper-case |
| CsvParser.RecordOfFields | csv_parser.py:47-54 | each record field is read from its canonical column, and both flags are upper-cased; a field whose column is absent is `""` |
| CsvParser.TableRecords | csv_parser.py:45-55 | the parser returns exactly one record per data row |
| CsvParser.CellPlacement | csv_parser.py:40-55 | the field of row `i` whose canonical column is column `c` holds that row's cell in column `c`, upper-cased for the flags; a NaN cell or a cell past the end of a short row gives `""` |
| CsvParser.AbsentColumnIsEmpty | csv_parser.py:45-55 | a canonical column missing from the renamed header leaves its field `""` in every record |
| CsvParser.SpellingPlacement | csv_parser.py:19-55 | a one-column export headed by any accepted spelling puts its value in that spelling's canonical field and leaves every other field `""` (`avatar_url` fills none) |
| CsvParser.SingleColumnRecord | csv_parser.py:47-54 | a record read from a single column fills only the field whose canonical name that column has |
| CsvParser.CanonicalHeaderIsParsedAsIs | csv_parser.py:19-40 | a header made of the six canonical names passes normalisation and renaming unchanged |
| CsvParser.ReparseRoundTrip | csv_parser.py:19-55 | records with upper-case flags, written back under the canonical header and parsed again, come back unchanged |
| CsvParser.RecordOfCanonicalRow | csv_parser.py:47-54 | a record written as a canonical row is read back as itself |
| CsvParser.ReparseIsIdempotent | csv_parser.py:19-55 | parsing is idempotent: re-parsing the parser's own output gives the same records |
| CsvParser.Summarize | csv_parser.py:58-68 | `total` is the number of records, `following_back + not_following_back <= total` with equality if and only if every flag is `YES` or `NO`, and `verified <= total` |
| CsvParser.BuildRenameMap | csv_parser.py:33-38 | the nested loop with `break` builds exactly the first-match rename map |
| CsvParser.BuildRecords | csv_parser.py:45-55 | the row loop appends one record per row, in row order |
| CsvParser.ParseInstagramTable | csv_parser.py:6-70 | the parse returns the records of the table and the metadata of those records |
| FollowAnalysis.AnalyzeFollowStatus | csv_parser.py:73-85 | `followers` is the input, `mutual` and `fans` are the same lists as the two buckets, the buckets hold exactly the `YES` and `NO` records and are disjoint, and their lengths are the metadata's two follow counts |
| FollowAnalysis.AnalyzeAppend | csv_parser.py:76-77 | both buckets are stable filters of the input |
| FollowAnalysis.FindNonFollowers | csv_parser.py:88-109 | a followed record is a non-follower if and only if no follower has its username, ignoring case |
| FollowAnalysis.NonFollowersWithoutFollowers | csv_parser.py:102-107 | with no followers, every followed account is returned, in order |
| FollowAnalysis.NonFollowersAppend | csv_parser.py:104-107 | the result keeps the order of the following export |
| FollowAnalysis.NonFollowersExample | csv_parser.py:102-107 | followers `alice`, `bob` and followed `ALICE`, `carol` give exactly `carol` |
| FollowAnalysis.FindFans | csv_parser.py:112-133 | a follower is a fan if and only if no followed account has its username, ignoring case |
| FollowAnalysis.FansWithoutFollowing | csv_parser.py:126-131 | with nothing followed, every follower is a fan, in order |
| FollowAnalysis.FansAppend | csv_parser.py:128-131 | the result keeps the order of the followers export |
| FollowAnalysis.FansExample | csv_parser.py:126-131 | for the same exports the one fan is `bob`, since `alice` matches `ALICE` ignoring case |
| FollowAnalysis.NonFollowersOfPairs | csv_parser.py:102-107 | of two followed accounts, the one whose key no follower shares is the only non-follower |
| FollowAnalysis.FansOfPairs | csv_parser.py:126-131 | of two followers, the one whose key no followed account shares is the only fan |

## Left out

- Decoding bytes as UTF-8 and dropping a byte-order mark (csv_parser.py:13-14) is a library call. The model starts from text that is already tokenised.
- CSV tokenising by `pd.read_csv` (csv_parser.py:16) is left out: quoting, separators and pandas' type inference. For example, pandas reads a numeric id column with gaps as `123.0`, and the `str()` in csv_parser.py:48-53 then spells that float. Every cell is modelled as the string the reader would have produced.
- CsvParser.ParseInstagramTable: requires distinct normalised headers, so raw headers that differ but collide after csv_parser.py:19 (`Username` and `username`) are not modelled. The source keeps both labels, and `df.rename` gives both the canonical name (csv_parser.py:40). `row.get` (csv_parser.py:48-53) then returns a pandas Series, and `str()` of it is the Series' multi-line text rather than a cell value.
- A `Table` may hold rows longer than the header. `CsvParser.CellAt` drops their extra cells, where `pd.read_csv` raises a parser error or moves the leading cells into the row index. Such exports are outside the model.
- FollowAnalysis.AnalyzeFollowStatus: `mutual` and `you_follow_back` are one list object in the source, and so are `fans` and `you_dont_follow_back` (csv_parser.py:83-84). The model states that they are equal sequences. It does not capture the sharing, so mutating one of them through the returned dict would change the other.
- Unicode case mapping and non-ASCII whitespace are left out. `lower()`, `upper()` and `strip()` are modelled on ASCII only.
- `avatar_url` is in the rename table but is never copied into a record (csv_parser.py:29, 47-54). The model keeps it in the table, and it affects no field.
- Inputs are left unmodified, and the outputs are fresh lists. This holds by construction, since Dafny sequences are values; it is not stated as a separate property.
- `plotting.py` is not part of this model. It renders charts, parses dates and computes growth rates in floating point.
- Extracting metadata from export file names, and comparing snapshots for gained and lost followers, do not appear in `csv_parser.py`. They are not modelled.
