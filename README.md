# Amma ingestion core in Dafny

This project models the ingestion core of the Amma data platform. The core has
three parts.

- **File parser** (`utils/file_parser.py`). It classifies an uploaded file by
  its extension, then turns it into a table. The module defines
  `parse_file` three times, and Python keeps the last definition. All three
  are modelled:
  - the effective one, which raises `ValueError`;
  - the shadowed first one, which wraps every error in `RuntimeError`;
  - the dict-returning middle one, with its Latin-1 fallback.

  Also modelled: `parse_file_to_df`, which handles all twelve supported
  extensions; `is_supported_format`; `detect_file_format` and
  `validate_file_format`; and the single-column raw-text parsers.
- **Cleaning engine** (`data_engine/cleaner.py`; `cleaner.py` at the top of the
  repository is the same file). It covers:
  - `clean_dataframe`: tidy the headers, drop all-missing rows and columns,
    drop duplicates, strip the string columns, map the NA-like tokens to
    missing;
  - `clean_data_file`: median and mode imputation, then the strip;
  - the column-name normalisation;
  - `detect_outliers` (|z| > 3);
  - `generate_cleaning_report`;
  - `clean_data` and `clean_and_report`.

  A pandas DataFrame that these functions change in place is a class
  (`Cleaner.DataFrame`) whose methods update its column names, dtypes and
  rows. Each method, and each column loop over it, is proved to end in the
  state described by a value function in modules `Cleaning` and
  `Imputation`. The lemmas about those functions state what the cleaning
  guarantees.
- **Natural-language-to-SQL agents** (`sql_agent.py` and
  `data_engine/sql_agent.py`). Both define a class `NL2SQLAgent`. Its
  constructor's API-key check, `_extract_sql`, `get_schema`, `generate_prompt`,
  `call_llm` and `execute_sql` are the same word for word in both files, and
  are modelled once in module `SqlText`. The two `ask` methods differ:
  - `SqlAgent.Ask` returns a status dict;
  - `EngineSqlAgent.Ask`, with its `query` and `run` aliases, returns a
    `(rows, sql, explanation)` tuple.

The outside world becomes parameters of the model:
- the pandas readers, the XML and PDF libraries, the e-mail parser and file
  reading (the `FileParser.Io` record);
- the SQLite table listing and the query engine;
- the chat-completions endpoint;
- whether a CSV write fails.

Python exceptions are `Results.Exception` values, each with the text `str(e)`
yields. A table is a `Frames.Frame`: column names, one dtype kind per column,
and rows of cells (missing, a real number, or a string). Python's
insertion-ordered dicts are association lists (`Dicts`).

The pandas behaviour modelled is that of pandas 2.x, before copy-on-write
became the default in pandas 3.0. Under 2.x the chained
`df[col].fillna(value, inplace=True)` of `clean_data_file` writes into the
frame, and `read_csv` rejects the keyword arguments `errors` and
`error_bad_lines`.

Behaviours of the code a reader might not expect:
- The NA tokens are matched exactly and case-sensitively. `"N/A"`, `"Null"`,
  `"NA"` and `" "` survive (`Cleaning.NaTokensCaseSensitive`). So does
  `"nan"`, the text a missing cell of a string column becomes under
  `astype(str)` (`Cleaning.MissingObjectCellBecomesNan`).
- Duplicates are dropped *before* the strip. Rows that differ only in padding
  survive as identical rows (`Cleaning.StripMergesPaddedRows`).
- The column `[1, 2, 3, 4, 100]` has no outlier. With n values no |z| can
  exceed sqrt(n - 1) (Samuelson's inequality), so a column of at most ten
  values never has one (`Outliers.SmallColumnNoOutliers`,
  `Outliers.FiveValuesNoOutlier`).
- In a string (object) column a tie for the mode goes to the smallest value,
  because pandas sorts the modes. It does not go to the first value met
  (`Imputation.Mode`). In a `category` column pandas orders the modes by
  category order instead; that rule is not modelled (see "Left out").
- `duplicates_removed` counts every row lost, including all-missing rows
  (`Cleaner.DuplicatesRemovedCounts`).
- The `ask` of `data_engine/sql_agent.py` does not reject a database without
  tables (`EngineSqlAgent.AskOnEmptyDatabase`). Its backtick trimming keeps
  the whitespace inside the backticks (`EngineSqlAgent.BackticksKeepInnerSpace`).
- The `.log` branch of `parse_file_to_df` always raises `TypeError`, because
  `read_csv` does not take `error_bad_lines` (`FileParser.ParseFileToDf`).
- `_extract_sql` deletes every "```sql" and then every "```" of a fenced
  reply, not only the fence lines (`SqlText.Defenced`, `SqlText.NoFenceLeft`).

## Model

| member | source | states |
|---|---|---|
| `Text.SplitExt` | utils/file_parser.py:34 | the extension is empty or a proper suffix of the path starting with its last `.`, with no further `.` or `/` |
| `Text.SplitExtOf` | utils/file_parser.py:87 | conversely, a path ending in a component `stem.e`, where `stem` has a character other than `.` and `e` has no `.` or `/`, has the extension `.e` |
| `Text.SplitExtLower` | utils/file_parser.py:49 | taking the extension commutes with lower-casing the path |
| `Text.DotfileHasNoExt` | utils/file_parser.py:228 | a last path component made of leading dots and a name without a dot has no extension |
| `Text.DotfileNameHasNoExt` | utils/file_parser.py:34 | a bare file name of leading dots and a name without a dot, such as `.csv`, has no extension |
| `Text.SplitJoin` | utils/file_parser.py:122 | joining the pieces of `split(c)` with `c` gives the string back |
| `Text.SplitLast` | utils/file_parser.py:190 | the last piece of `split(c)` is the text after the last `c`, or all of it when there is none |
| `Text.BeforeLastDot` | data_engine/cleaner.py:157 | `rsplit(".", 1)[0]` is a prefix followed by a `.` and then a text without a `.`, or the whole name |
| `Text.Basename` | cleaner.py:157 | the base name holds no `/`: it is the whole path when the path has no `/`, and otherwise the suffix right after the path's last `/` |
| `FileParser.DispatchCaseInsensitive` | utils/file_parser.py:33-35 | paths equal up to letter case get the same extension, the same support verdict and the same branch in every dispatcher |
| `FileParser.DotfileNotSupported` | utils/file_parser.py:25-28 | `dir/.csv` and other dot-files are not supported formats |
| `FileParser.DotfileNameNotSupported` | utils/file_parser.py:25-35 | the bare name `.csv`, and every other name of dots and a dotless suffix, is not a supported format |
| `FileParser.IsSupportedFormat` | utils/file_parser.py:33-35 | a supported path ends, in lower case, in its extension, with at least one character before it; case, dotfiles and routing are stated by `DispatchCaseInsensitive`, `DotfileNotSupported` and `DotfileNameNotSupported` |
| `FileParser.SupportedButNotParsed` | utils/file_parser.py:247-248 | `.sql`, `.log`, `.hl7`, `.pdf` and `.eml` pass `is_supported_format`, but the effective `parse_file` raises `ValueError` for them |
| `FileParser.ParseFile` | utils/file_parser.py:227-246 | a successful parse yields a table whose rows fit its columns |
| `FileParser.ParseFileAccepts` | utils/file_parser.py:230-248 | the effective `parse_file` reads exactly .csv, .xlsx, .xls, .json, .parquet, .txt and .xml; every other extension raises `ValueError("Unsupported file type: <ext>")` |
| `FileParser.ParseFileBranchOf` | utils/file_parser.py:230-243 | the branch each of the seven extensions takes |
| `FileParser.ParseFileReads` | utils/file_parser.py:230-246 | `.csv`, `.xlsx`/`.xls`, `.json`, `.parquet` and `.txt` give their reader's table or exception; `.xml` gives the records of the root's children, or the XML parser's exception |
| `FileParser.XmlFrame` | utils/file_parser.py:242-246 | the XML branch yields a well-formed table with one row per child of the root |
| `FileParser.XmlRecords` | utils/file_parser.py:245 | one record per child of the root, in document order |
| `Frames.FromRecords` | utils/file_parser.py:246 | a list of dicts becomes a well-formed table with one row per dict and each key once as a column |
| `FileParser.XmlRecordContents` | utils/file_parser.py:245 | record i lists its sub-element tags in order of first appearance and maps each tag to the text of its last sub-element |
| `FileParser.ParseFileFirst` | utils/file_parser.py:44-82 | every failure is a `RuntimeError` whose text starts "Failed to parse file '<path>': "; the CSV and TSV branches always fail, because `read_csv` gets an `errors=` argument, and so does every other extension; an Excel, JSON, Parquet or XML file parses iff its reader succeeds |
| `FileParser.ParseFileToDf` | utils/file_parser.py:86-126 | a successful parse yields a well-formed table; an unsupported extension raises `ValueError`; a `.log` file always raises `TypeError` (unexpected keyword `error_bad_lines`) |
| `FileParser.ParseToDfAcceptsSupported` | utils/file_parser.py:89-126 | `parse_file_to_df` takes a branch exactly for the twelve supported extensions and raises `ValueError` otherwise |
| `FileParser.ParseToDfBranchOf` | utils/file_parser.py:89-124 | the branch each of the supported extensions other than `.log` takes |
| `FileParser.ReadToDf` | utils/file_parser.py:89-124 | a read table is well-formed, and the HL7 branch yields the segment table of the text read or that read's error |
| `FileParser.ParseToDfReads` | utils/file_parser.py:89-102 | `.csv`, `.xlsx`/`.xls`, `.json`, `.txt`, `.parquet` and `.xml` give their pandas reader's table or exception |
| `FileParser.ParseToDfHl7` | utils/file_parser.py:119-124 | an `.hl7` file that reads gives the segment row of its text; a failed read raises the reader's exception |
| `FileParser.ParseToDfTextFails` | utils/file_parser.py:105-121 | for `.sql` and `.hl7`, a failed read raises the reader's exception |
| `FileParser.ParseToDfPdf` | utils/file_parser.py:109-113 | a PDF gives one `text` cell holding its page texts joined by newlines, or the PDF reader's exception |
| `FileParser.ParseToDfEml` | utils/file_parser.py:114-118 | a single-part e-mail gives one row of its subject (a missing header being a missing cell) and its body text, or the parser's exception |
| `FileParser.SqlScriptOneCell` | utils/file_parser.py:105-108 | a `.sql` file becomes one row whose `sql` cell holds the whole script |
| `FileParser.Hl7OneRow` | utils/file_parser.py:119-124 | an HL7 file becomes exactly one row; its columns are the distinct segment IDs in order of first appearance, each holding the last segment with that ID |
| `FileParser.Hl7Frame` | utils/file_parser.py:122-124 | the HL7 segment dict becomes a well-formed table |
| `FileParser.DictExtAfterLastDot` | utils/file_parser.py:190 | the dict parser's extension is the text after the last `.` of the lower-cased path, or the whole lower-cased path |
| `FileParser.DictExt` | utils/file_parser.py:190 | the extension holds no `.`; a path without a `.` is its own extension, lower-cased |
| `FileParser.ParseFileDict` | utils/file_parser.py:188-224 | a success dict carries the path it was given |
| `FileParser.ParseFileDictOutcome` | utils/file_parser.py:192-224 | success only for csv, xls, xlsx, json, parquet and txt; any other extension gives "Unsupported file format: <ext>"; for each supported extension the dict carries the frame and path iff that branch's reader succeeds, else "File parsing failed: " and the reader's message; the CSV is read again as Latin-1 exactly when UTF-8 decoding fails |
| `FileParser.DetectFileFormatAsWritten` | utils/file_parser.py:144-149 | as written, every call raises `NameError` (`SUPPORTED_EXTENSIONS` is undefined) |
| `FileParser.ValidateFileFormatAsWritten` | utils/file_parser.py:139-141 | as written, every call raises `NameError` |
| `FileParser.DetectFileFormatAlwaysFails` | utils/file_parser.py:139-146 | even the supported `a.csv` makes both functions raise |
| `FileParser.DetectFileFormat` | utils/file_parser.py:145-149 | the extension when supported, else a non-empty MIME guess, else "unknown" |
| `FileParser.ValidateFileFormat` | utils/file_parser.py:140-141 | true exactly for the supported extensions |
| `FileParser.ReadLinesPartition` | utils/file_parser.py:178 | the lines `readlines` yields concatenate back to the text |
| `FileParser.ReadLines` | utils/file_parser.py:178 | the lines `readlines` cuts, each ending after its newline; it has no contract of its own: `ReadLinesPartition` and `ReadLinesShape` state what it yields |
| `FileParser.ReadLinesShape` | utils/file_parser.py:177-178 | every line is non-empty with no inner newline; every line but the last ends in a newline |
| `FileParser.ParseLogFile` | utils/file_parser.py:176-179 | a `log_lines` table whose row k holds line k of the text, failing exactly when reading fails |
| `FileParser.ParseSqlFile` | utils/file_parser.py:151-159 | one `sql_query` cell holding the whole text, failing exactly when reading fails |
| `FileParser.ParseRawTextFile` | utils/file_parser.py:161-169 | one `xml_data`, `hl7_data` or `email_text` cell (lines 181-184 for e-mail) holding the whole text |
| `Cleaning.TidyHeaders` | data_engine/cleaner.py:61 | every header is replaced by its tidied form, with no newline and no longer than before; the rows are unchanged |
| `Cleaning.NormalizeName` | data_engine/cleaner.py:36 | the name is the stripped input, character by character lower-cased with spaces turned to `_`; so it has no whitespace at either end, no space and no ASCII capital |
| `Cleaning.LowerReplaced` | data_engine/cleaner.py:36 | `lower()` then `replace(" ", "_")` maps each character on its own, and turns a stripped text into a normal name |
| `Cleaning.NormalizeNameIdempotent` | data_engine/cleaner.py:109 | normalizing a name twice equals normalizing it once |
| `Cleaning.NormalizeNames` | data_engine/cleaner.py:35-38 | name j is the normalization of column j, for every column |
| `Cleaning.NormalizeNamesIdempotent` | cleaner.py:35-38 | normalizing an already normalized header list changes nothing |
| `Cleaning.ReplaceNaLike` | data_engine/cleaner.py:43 | same columns, dtypes and shape |
| `Cleaning.ReplaceNaLikeExact` | data_engine/cleaner.py:41-43 | a cell becomes missing iff it was missing or is exactly one of the eight tokens; every other cell is unchanged |
| `Cleaning.ReplaceNaLikeIdle` | cleaner.py:41-43 | a frame without NA-like strings is returned as it is |
| `Cleaning.NaTokensCaseSensitive` | data_engine/cleaner.py:42 | "N/A", "Null", "NA", "nan" and " " survive; "NULL" and "NaN" become missing |
| `Cleaning.DropEmptyRows` | data_engine/cleaner.py:62 | exactly the rows with a value, in their original order; columns and dtypes unchanged |
| `Cleaning.DropEmptyRowsIdle` | cleaner.py:62 | a frame whose every row has a value is unchanged |
| `Cleaning.KeptColumns` | data_engine/cleaner.py:103 | exactly the columns with a value, in increasing order |
| `Cleaning.DropEmptyColumns` | data_engine/cleaner.py:63 | the names, the dtypes and every row are cut down to the columns with a value, in order; no row is lost; every kept column has a value |
| `Cleaning.DropEmptyColumnsIdle` | cleaner.py:63 | a frame whose every column has a value is unchanged |
| `Cleaning.DropDuplicateRows` | data_engine/cleaner.py:64 | the first occurrence of every row, in the original order; no row repeats and every row value survives |
| `Seqs.FilterAtPositions` | data_engine/cleaner.py:62 | filtering keeps exactly the elements at the positions that pass, in increasing order of position |
| `Seqs.FilterFront` | data_engine/cleaner.py:62 | read from the front, filtering keeps or drops the first element and then filters the rest |
| `Seqs.DedupKeepsFirst` | data_engine/cleaner.py:64 | de-duplication keeps exactly the elements that occur nowhere before their position, in increasing order of position |
| `Cleaning.DropDuplicateRowsIdle` | cleaner.py:64 | a frame without repeated rows is unchanged |
| `Cleaning.StripObjectsStripped` | data_engine/cleaner.py:65-66 | after the strip loop every cell of a string column is a stripped string |
| `Cleaning.StripObjects` | data_engine/cleaner.py:65-66 | the strip keeps the headers and dtypes and keeps a well-formed frame well-formed; the cells are stated by `StripObjectsStripped` |
| `Cleaning.StripMergesPaddedRows` | data_engine/cleaner.py:64-66 | two rows that differ only in padding of string cells become equal after the strip, which runs after `drop_duplicates` |
| `Cleaning.CleanedFrameOfTidy` | cleaner.py:59-68 | on a frame no earlier step changes, `clean_dataframe` only strips and replaces NA tokens |
| `Cleaning.CleanedInPlace` | data_engine/cleaner.py:61-66 | the in-place steps of `clean_dataframe` yield a well-formed frame |
| `Cleaning.CleanedFrame` | data_engine/cleaner.py:59-68 | `clean_dataframe` yields a well-formed frame; its shape and cells are stated by `CleanedFrameShape`, `CleanedRowsFromInput` and `CleanedObjectCells` |
| `Cleaning.CleanedFrameShape` | data_engine/cleaner.py:59-68 | the surviving columns are the tidied headers of the columns with a value, in order; no rows or columns are added; the deduplicated rows are distinct |
| `Cleaning.CleanedRowsFromInput` | data_engine/cleaner.py:62-64 | every surviving row comes from an input row with a value, and deduplication keeps every row value |
| `Cleaning.CleanedObjectCells` | data_engine/cleaner.py:65-67 | a string-column cell of the result is missing iff its stripped text is an NA token; otherwise it is that stripped text |
| `Cleaning.MissingObjectCellBecomesNan` | cleaner.py:65-67 | a missing string-column cell becomes the text "nan" and stays so after the NA replacement |
| `Imputation.SortReals` | data_engine/cleaner.py:115 | the sorted values are a sorted permutation of the input |
| `Imputation.Median` | data_engine/cleaner.py:115 | no median iff no values; otherwise it lies between the smallest and the largest value |
| `Imputation.Mode` | data_engine/cleaner.py:122 | no mode iff no values; otherwise a most frequent value, the smallest among equally frequent ones (the object-column rule) |
| `Imputation.ModeFills` | data_engine/cleaner.py:122 | every column's fill is a string: "Unknown" when the column has no strings, otherwise its mode |
| `Imputation.ModeTie` | data_engine/cleaner.py:122 | the mode of "b" and "a", each seen once, is the smaller "a" |
| `Imputation.StripCategorical` | data_engine/cleaner.py:126-127 | same columns and row count; every string or category column becomes a string column |
| `Imputation.NormalizeHeaders` | data_engine/cleaner.py:109 | columns become their normalized names; dtypes and rows are unchanged |
| `Imputation.DedupKeepsColumnValues` | data_engine/cleaner.py:103-106 | a column with a value keeps one after `drop_duplicates` |
| `Imputation.FillMediansNoGaps` | data_engine/cleaner.py:112-116 | every cell of a numeric column with a value is filled |
| `Imputation.FillMedians` | data_engine/cleaner.py:112-116 | the median fill keeps the headers and dtypes and keeps a well-formed frame well-formed; the cells are stated by `FillMediansGap` and `FillsKeepValues` |
| `Imputation.FillModes` | data_engine/cleaner.py:119-123 | the mode fill keeps the headers and dtypes and keeps a well-formed frame well-formed; the cells are stated by `FillModesGap` and `FillsKeepValues` |
| `Imputation.FillModesNoGaps` | data_engine/cleaner.py:119-123 | every cell of a string or category column holds a string after the fill |
| `Imputation.FillMediansGap` | data_engine/cleaner.py:112-116 | a gap in a numeric column with a number takes the column's median, which lies between its smallest and largest number |
| `Imputation.FillModesGap` | data_engine/cleaner.py:119-123 | a gap in a string or category column takes "Unknown" when the column has no string, otherwise a most frequent string, the smallest among equally frequent ones (the object-column tie rule) |
| `Imputation.FillModesTie` | data_engine/cleaner.py:119-123 | a gap in the column "b", "a" is filled with "a" |
| `Imputation.FillsKeepValues` | data_engine/cleaner.py:114-123 | the fills only write into gaps |
| `Imputation.CleanedDataFileNoGaps` | data_engine/cleaner.py:100-127 | no category column is left; numeric columns hold only numbers; string columns hold only stripped strings |
| `Imputation.CleanedDataFile` | data_engine/cleaner.py:100-127 | the steps of `clean_data_file` before the save yield a well-formed frame |
| `Imputation.CleanedDataFileShape` | data_engine/cleaner.py:103-109 | the columns with a value, in order, under normalized names; one row per first occurrence of a row of the kept columns |
| `Imputation.CleanedDataFileRow` | data_engine/cleaner.py:100-127 | row t of the result comes from the t-th input row whose kept cells occur for the first time, and each of its values survives in place, stripped in string and category columns |
| `Outliers.CountOutliers` | data_engine/cleaner.py:54 | no more outliers than values; zero iff no value has \|z\| > 3 |
| `Outliers.OutlierCount` | data_engine/cleaner.py:52-54 | a column's outlier count is at most its number of values |
| `Outliers.NumericColumns` | data_engine/cleaner.py:48 | exactly the numeric columns, in order |
| `Outliers.DetectOutliers` | data_engine/cleaner.py:46-56 | an empty dict when there is no numeric column or no row; one entry per distinct column name |
| `Outliers.DetectOutliersGet` | data_engine/cleaner.py:53-55 | with distinct names and at least one row, each numeric column maps to its outlier count and no other column has an entry |
| `Outliers.SmallColumnNoOutliers` | data_engine/cleaner.py:52-54 | a column of at most ten values never has an outlier |
| `Outliers.FiveValuesNoOutlier` | cleaner.py:52-54 | the column 1, 2, 3, 4, 100 has no outlier |
| `Outliers.ConstantColumnNoOutliers` | cleaner.py:52 | a constant column has zero variance and no outlier |
| `Statistics.Samuelson` | data_engine/cleaner.py:52 | (x - mean)^2 <= (n - 1) * variance for every value of the column |
| `Cleaner.DataFrame.SetColumns` | data_engine/cleaner.py:37 | only the column names change |
| `Cleaner.DataFrame.DropEmptyRows` | data_engine/cleaner.py:62 | the frame becomes `Cleaning.DropEmptyRows` of its old value |
| `Cleaner.DataFrame.DropEmptyColumns` | cleaner.py:103 | the frame becomes `Cleaning.DropEmptyColumns` of its old value |
| `Cleaner.DataFrame.DropDuplicates` | cleaner.py:106 | the frame becomes `Cleaning.DropDuplicateRows` of its old value |
| `Cleaner.DataFrame.FillNa` | data_engine/cleaner.py:116 | only the gaps of column j change, each to the fill value |
| `Cleaner.DataFrame.StripColumn` | data_engine/cleaner.py:127 | column j is stripped and becomes a string column; nothing else changes |
| `Cleaner.ReplaceNaLikeValues` | cleaner.py:43 | a new frame equal to `ReplaceNaLike` of the input; the input is not changed |
| `Cleaner.NormalizeColumnNames` | cleaner.py:35-38 | returns the normalized names and installs them on the frame |
| `Cleaner.StripObjectColumns` | cleaner.py:65-66 | the loop leaves the frame equal to `StripObjects` of its old value |
| `Cleaner.CleanDataFrame` | cleaner.py:59-71 | the frame it is given ends tidied, without empty rows or columns and deduplicated; the frame it returns is also NA-replaced |
| `Cleaner.GaplessColumn` | cleaner.py:114 | a fill changes nothing in a column without gaps, so the `isnull().any()` guard does not alter the result |
| `Cleaner.FillNumericGaps` | cleaner.py:112-116 | the loop ends in `FillMedians` of the old frame |
| `Cleaner.FillCategoricalGaps` | cleaner.py:119-123 | the loop ends in `FillModes` of the old frame: every gap of a string or category column holds its column's mode, or "Unknown" |
| `Cleaner.StripCategoricalColumns` | cleaner.py:126-127 | the loop ends in `StripCategorical` of the old frame |
| `Cleaner.CleanDataFile` | data_engine/cleaner.py:100-138 | the frame ends as `CleanedDataFile` of its old value; the result is the frame, or the exception raised by writing the CSV |
| `Cleaner.SaveCsv` | data_engine/cleaner.py:159-160 | `os.makedirs` of an empty directory name raises `FileNotFoundError`; the save succeeds exactly when the directory name is non-empty and the write succeeds |
| `Cleaner.CleanData` | data_engine/cleaner.py:74-88 | parse errors propagate; an empty table raises "Parsed file is empty"; otherwise the cleaned, renamed table, unless the write fails |
| `Cleaner.CleaningReportContents` | data_engine/cleaner.py:91-97 | the report lists the columns in order and the row count, and maps every column to its null count and its dtype |
| `Cleaner.GenerateCleaningReport` | data_engine/cleaner.py:91-97 | the report lists the columns in order and the row count; each dict has one key per distinct column name, in first-seen order |
| `Cleaner.ErrorReport` | data_engine/cleaner.py:176-190 | status "error", naming the file and carrying the exception's text |
| `Cleaner.CleanedPath` | data_engine/cleaner.py:157-158 | the output path ends in `<base>_cleaned.csv` |
| `Cleaner.SuccessReport` | data_engine/cleaner.py:162-174 | status "success", no error, the file and the output path as given, the input row count, and a non-negative `duplicates_removed` equal to the rows lost |
| `Cleaner.ReportOutcome` | data_engine/cleaner.py:141-190 | every outcome is a success or an error report; an error report is exactly one carrying an error; the report names the file, and the returned path is the report's output path; a success is the success report of the parsed table at the `<base>_cleaned.csv` path |
| `Cleaner.SummarizeCleaning` | data_engine/cleaner.py:150-174 | the success report is computed by cleaning a copy of the parsed table |
| `Cleaner.CleanAndReport` | data_engine/cleaner.py:141-190 | the returned path and report are those of `ReportOutcome` for the parsed file |
| `Cleaner.CleanAndReportStatus` | data_engine/cleaner.py:144-190 | error iff parsing fails, the table is empty, the output directory is empty or the write fails; errors carry zero counts and empty collections; success gives a `_cleaned.csv` path |
| `Cleaner.DuplicatesRemovedCounts` | data_engine/cleaner.py:150-169 | duplicates_removed = original rows - cleaned rows = empty rows dropped + duplicates dropped; it is zero when neither kind exists |
| `SqlText.NewAgent` | sql_agent.py:19-32 | an agent exists iff the API key is set and non-empty; otherwise `EnvironmentError` (also data_engine/sql_agent.py:21-34) |
| `SqlText.Defenced` | sql_agent.py:114-116 | the de-fenced content is stripped; without a leading fence it is the stripped content; with one, no "```" is left in it |
| `SqlText.NoFenceLeft` | sql_agent.py:116 | deleting every "```" from a text leaves none, however the backticks were grouped |
| `SqlText.DefencedFencedQuery` | sql_agent.py:114-116 | a query without backticks inside a ```sql fence comes back as the stripped query |
| `SqlText.FenceRemoval` | sql_agent.py:116 | deleting the fence words from a fenced text without backticks leaves the text between the fences |
| `SqlText.DefencedNoBacktick` | sql_agent.py:114-116 | a reply without backticks is only stripped |
| `SqlText.ExtractSqlByDefenced` | sql_agent.py:114-121 | replies with the same de-fenced text give the same `_extract_sql` result |
| `SqlText.ExtractSqlFenced` | sql_agent.py:112-121 | `_extract_sql` of a fenced query without backticks equals `_extract_sql` of the bare query (also data_engine/sql_agent.py:177-186) |
| `SqlText.ExtractSql` | sql_agent.py:112-121 | fails with the not-SELECT error iff the de-fenced text does not start with "select" in any case; a success starts with it, has no trailing `;` and is the de-fenced text minus trailing semicolons (also data_engine/sql_agent.py:177-186) |
| `SqlText.SelectSurvivesSemicolons` | sql_agent.py:118-121 | trimming semicolons never removes the "select" prefix |
| `SqlText.ExtractSqlUnfenced` | sql_agent.py:114-121 | without a fence, the result is a prefix of the stripped reply, present iff that reply starts with "select" |
| `SqlText.ExtractSqlKeepsInnerSpace` | sql_agent.py:121 | `"select 1 ;;"` gives `"select 1 "`: the space before the semicolons stays |
| `SqlText.TableLines` | sql_agent.py:47-50 | two lines for the table's heading, then one line per column |
| `SqlText.BuildSchema` | sql_agent.py:45-50 | the loop builds every table's lines, each ended by a newline, in order (also data_engine/sql_agent.py:110-115) |
| `SqlText.Schema` | sql_agent.py:34-58 | an error is a `RuntimeError`; the schema exists iff the listing succeeds with at least one table; the schema is stripped |
| `SqlText.GetSchema` | data_engine/sql_agent.py:99-123 | the method returns `Schema` of the listing |
| `SqlText.SchemaTextLines` | sql_agent.py:47-50 | splitting the schema text at newlines gives back exactly the lines, then an empty piece |
| `SqlText.SchemaStartsWithTable` | sql_agent.py:52 | the stripped schema starts with "Table:" |
| `SqlText.GeneratePrompt` | sql_agent.py:60-76 | the prompt opens and closes with the fixed instructions, with the schema and then the question verbatim at fixed offsets (also data_engine/sql_agent.py:125-141) |
| `SqlText.PromptDeterminesQuestion` | data_engine/sql_agent.py:125-141 | for one schema, equal prompts mean equal questions |
| `SqlText.CallLlm` | sql_agent.py:78-110 | success iff the reply has content from which `_extract_sql` gets SQL; every failure is a `RuntimeError` prefixed "LLM API request failed: " for request errors and "LLM failed to generate SQL: " otherwise (also data_engine/sql_agent.py:143-175) |
| `SqlText.ExtractSqlOfStripped` | sql_agent.py:99-101 | stripping the reply before `_extract_sql` changes nothing |
| `SqlText.CallLlmPlainSelect` | sql_agent.py:99-103 | a reply `q;` with q a plain SELECT yields q |
| `SqlText.ExecuteSql` | sql_agent.py:123-137 | the rows of the query, or `RuntimeError("Failed to execute SQL: …")` exactly when the query fails (also data_engine/sql_agent.py:188-202) |
| `SqlAgent.Reply.Status` | sql_agent.py:147-158 | "success" iff the reply is a success; "error" iff it is a failure |
| `SqlAgent.Ask` | sql_agent.py:139-159 | the reply of schema, prompt, LLM call and execution in turn, with every exception turned into an error reply |
| `SqlAgent.AskSuccess` | sql_agent.py:141-152 | a success needs a schema with a table, echoes the question, and carries the SQL the model produced (a SELECT without trailing `;`) and the rows it returned |
| `SqlAgent.AskFailure` | sql_agent.py:154-159 | every error text starts with the prefix of the failing step |
| `SqlAgent.AskFailureAfterSchema` | sql_agent.py:144-159 | once the schema is read, every error text starts with the model-request, SQL-extraction or execution prefix |
| `SqlAgent.AskWithoutSchema` | sql_agent.py:42-43 | an unreadable database, or one without tables, gives an error reply |
| `SqlAgent.SchemaFailure` | sql_agent.py:54-56 | every schema error reads "Schema extraction failed: …" |
| `SqlAgent.AskSucceedsWhenEveryStepDoes` | sql_agent.py:142-152 | when the LLM yields SQL and it runs, `ask` succeeds with that SQL and its rows |
| `EngineSqlAgent.InfoLine` | data_engine/sql_agent.py:50-51 | the line starts with ``Table `<name>`: `` |
| `EngineSqlAgent.InfoLines` | data_engine/sql_agent.py:46-51 | one line per table, in listing order |
| `EngineSqlAgent.BuildSchemaInfo` | data_engine/sql_agent.py:44-51 | the loop builds each table's line, ended by a newline, in order |
| `EngineSqlAgent.SchemaInfoLines` | data_engine/sql_agent.py:44-51 | splitting the schema info at newlines gives one line per table and an empty piece |
| `EngineSqlAgent.EnginePrompt` | data_engine/sql_agent.py:53-62 | the fixed request, with the schema info and then the question verbatim at fixed offsets |
| `EngineSqlAgent.EnginePromptDeterminesQuestion` | data_engine/sql_agent.py:59 | for given schema info, equal prompts mean equal questions |
| `EngineSqlAgent.SqlFromReply` | data_engine/sql_agent.py:73 | the SQL neither starts nor ends with a backtick |
| `EngineSqlAgent.SqlFromReplyCuts` | data_engine/sql_agent.py:73 | the SQL is the part of the stripped reply between a run of leading and a run of trailing backticks |
| `EngineSqlAgent.BackticksKeepInnerSpace` | data_engine/sql_agent.py:73 | "` select 1 `" gives " select 1 " |
| `EngineSqlAgent.Records` | data_engine/sql_agent.py:79 | one record per result row |
| `EngineSqlAgent.RecordCells` | data_engine/sql_agent.py:78-79 | with distinct column names, record i maps each column to its cell of row i |
| `EngineSqlAgent.Failed` | data_engine/sql_agent.py:85-88 | no rows, no SQL, and "SQLite error: " for a `sqlite3.Error`, "Failed to process query: " for any other exception |
| `EngineSqlAgent.Explanation` | data_engine/sql_agent.py:81 | the explanation names the SQL after its fixed prefix |
| `EngineSqlAgent.FailedIsNoAnswer` | data_engine/sql_agent.py:81-88 | an error message is never an explanation |
| `EngineSqlAgent.AnsweredShape` | data_engine/sql_agent.py:72-88 | after the reply, either a failure with no rows and no SQL, or the trimmed reply as SQL, its explanation, and the records of the query |
| `EngineSqlAgent.Ask` | data_engine/sql_agent.py:36-90 | the tuple `ask` returns for the listed tables, the reply and the engine; `table_name` is unused |
| `EngineSqlAgent.Query` | data_engine/sql_agent.py:92-93 | exactly what `ask` returns |
| `EngineSqlAgent.Run` | data_engine/sql_agent.py:95-96 | exactly what `ask` returns |
| `EngineSqlAgent.AskShape` | data_engine/sql_agent.py:37-88 | `ask` never raises: it either fails with a prefixed message or answers with backtick-free SQL and its records |
| `EngineSqlAgent.AskOnEmptyDatabase` | data_engine/sql_agent.py:42-51 | with no tables, the prompt carries an empty schema and `ask` goes on to the model |
| `EngineSqlAgent.AskPrompt` | data_engine/sql_agent.py:53-73 | the model sees the schema info and the question verbatim, and a successful answer's SQL is the trimmed reply to that prompt |

## Left out

- Reading and writing files is a parameter or left out. The pandas readers
  (CSV, Excel, JSON, Parquet, pandas XML), `ElementTree.parse`, PyPDF2 and the
  e-mail parser are the fields of `FileParser.Io`. What they yield is given,
  not modelled. `to_csv` is a parameter saying whether the write fails.
- `save_uploaded_file` (utils/file_parser.py:37-42 and 130-137) copies an upload
  to disk. It is I/O only.
- `detect_encoding` (data_engine/cleaner.py:28-32) needs chardet's statistical
  detector. It is not part of this model.
- The folder creation when the module loads (data_engine/cleaner.py:24-25) and
  every `os.makedirs` are I/O. Only `makedirs("")` failing is kept
  (`Cleaner.SaveCsv`).
- `parse_pdf_file` (utils/file_parser.py:171-174) stores raw bytes in a cell.
  Cells here hold no bytes.
- `save_dataframe_to_sqlite` (data_engine/cleaner.py:192-197) and
  `convert_to_sqlite` (data_engine/sql_agent.py:206-211) write to SQLite.
  Both are left out for that reason. The first also raises `NameError`,
  because `sqlite3` is not imported. The second is indented by one space,
  which makes `data_engine/sql_agent.py` fail to import. The model describes
  the class as if that line were not there.
- The HTTP headers, the payload (model, messages, temperature, max_tokens) and
  logging. The endpoint is a function from (model, prompt) to a reply.
- `conn.close()` in `finally` raises `UnboundLocalError` when
  `sqlite3.connect` itself fails (sql_agent.py:57-58, 136-137;
  data_engine/sql_agent.py:89-90). The model treats a failed connection as a
  failed listing or query.
- `PRAGMA table_info` failing for one table is folded into the table listing
  failing.
- The `isinstance(df, dict)` branches of `clean_data` and `clean_and_report`
  (data_engine/cleaner.py:77-78, 145-146) are dead. The `parse_file` they call
  returns a DataFrame.
- Duplicate column names in a frame: pandas `df[col]` would then select
  several columns. The column loops address columns by position.
- dtypes are shown as four kinds (number, object, category, other), not as
  numpy dtype strings.
- A missing cell under `astype(str)` becomes "nan". A `None` in an object
  column would become "None" in pandas; the model has one missing marker.
- `Cleaning.NormalizeName`, `Cleaning.NormalizeNames`: `str.lower` is modelled
  for ASCII letters only, so non-ASCII header letters are not lowered: the
  header "ÄRZTE" becomes "Ärzte" in the model and "ärzte" in the program.
  Python's lower-casing can also lengthen a name ("İ" becomes two code
  points), which the model's per-character contract does not allow. The
  lowered extension in the dispatchers' error messages is likewise lowered
  for ASCII letters only.
- `Frames.Fits`: an object column holds only strings and gaps. Object columns
  that mix numbers and strings (as `json_normalize` and `read_excel` can
  produce) are not modelled; in the program a number there becomes its text
  at `astype(str)`. List cells that `json_normalize` leaves are not modelled
  either; in the program they make `drop_duplicates` raise `TypeError`, so
  `clean_and_report` returns its error report.
- Floating-point numbers are reals. The z-score test |x - mean| / std > 3 is
  compared as (x - mean)^2 > 9 * variance, which is exact over the reals.
- `Imputation.Median`: its contract bounds the median by the column's smallest
  and largest value. That it is the middle value, or the mean of the two
  middle values, is its definition and is not restated.
- `FileParser.ParseFile`: its contract states only that a parsed table is
  well-formed. Which extensions are read is stated by
  `FileParser.ParseFileAccepts`, and what each one yields by
  `FileParser.ParseFileReads`.
- `FileParser.ParseFileToDf`: its contract states well-formedness, the
  `ValueError` for unsupported extensions and the `TypeError` of `.log` files;
  which extensions are handled is stated by
  `FileParser.ParseToDfAcceptsSupported`, and what each one yields by
  `FileParser.ParseToDfReads`, `FileParser.SqlScriptOneCell`,
  `FileParser.ParseToDfHl7`, `FileParser.ParseToDfPdf`,
  `FileParser.ParseToDfEml` and `FileParser.ParseToDfTextFails`.
- `FileParser.ParseToDfEml`: models single-part messages, whose
  `get_payload()` is the body text. For a multipart message, the usual shape
  of real mail, `get_payload()` is the list of its parts and pandas puts that
  list in the "body" cell; a cell of the model cannot hold a list, so
  multipart mail is not modelled.
- One reader per dispatcher branch (`FileParser.Io`) stands for every call
  made to it: the JSON reader covers the file opened with
  `errors="replace"`, with the locale's encoding and as UTF-8, and the
  tab-separated reader covers `read_csv` with the C engine and with
  `engine='python'`. The model does not tell these calls apart.
- `Cleaning.ReplaceNaLike`: keeps every column's dtype kind. Under pandas 2.x
  `replace` also converts an object column whose every cell became missing to
  float64; that column then gets an entry 0 in `detect_outliers` and a float
  dtype in the report. This conversion is not modelled.
- `Cleaning.TidyHeaders`: column labels are strings here. A non-string label
  (the integer labels `read_json` gives a list of lists, or a numeric Excel
  header) makes `col.strip()` raise `AttributeError`, so `clean_and_report`
  returns an error where the model reports success.
- `Cleaner.FillNumericGaps`, `Cleaner.FillCategoricalGaps`: the fills write
  into the frame, as the chained `fillna(..., inplace=True)` does under
  pandas 2.x. Under pandas 3.0 copy-on-write they change nothing; that
  version is not modelled.
- `Cleaner.FillCategoricalGaps`: for a `category` column it fills with the
  smallest of the tied modes, the rule of object columns. pandas' `mode()`
  orders a categorical column's modes by category order, so the program
  fills the tied value that comes first among the categories: a column with
  categories "S", "M", "L" holding "S", "L" and a gap gets "S" in the program
  and "L" in the model. The frame does not carry category order. Nor is
  modelled that `fillna("Unknown")` on a category column without values
  raises `TypeError` in pandas, because "Unknown" is not one of its
  categories; the model fills it.
- `Imputation.Mode`, `Imputation.ModeFills`, `Imputation.FillModes`,
  `Imputation.FillModesGap`: the smallest-string tie break they state is
  pandas' rule for object columns only. For `category` columns it is wrong
  on a tie, as the line above says.

## Findings

| source | as written | input that shows it | evidently intended | confidence | as-written member | corrected member |
|---|---|---|---|---|---|---|
| utils/file_parser.py:139-149 | `validate_file_format` and `detect_file_format` test membership in `SUPPORTED_EXTENSIONS`, which the module never defines, so every call raises `NameError` | `"a.csv"` | test membership in `SUPPORTED_FORMATS` (lines 25-28) | not executed | `FileParser.DetectFileFormatAsWritten`, `FileParser.ValidateFileFormatAsWritten` (shown by `FileParser.DetectFileFormatAlwaysFails`) | `FileParser.DetectFileFormat`, `FileParser.ValidateFileFormat` |
