/**
 * The cleaning engine of data_engine/cleaner.py (cleaner.py at the top of the
 * repository is the same file). A pandas DataFrame is an object whose column
 * names, dtypes and rows its in-place operations change; `clean_dataframe`
 * and `clean_data_file` run those operations and column loops on the frame
 * they are given, and each is proved to leave it in the state that the value
 * functions of modules Cleaning and Imputation describe.
 */
module Cleaner {
  import opened Results
  import opened Text
  import opened Seqs
  import opened Dicts
  import opened Frames
  import opened FileParser
  import opened Cleaning
  import opened Imputation
  import opened Outliers

  /** A pandas DataFrame whose in-place operations update its fields. */
  class DataFrame {
    var columns: seq<string>
    var kinds: seq<Kind>
    var rows: seq<seq<Cell>>

    /** The table the object currently holds. */
    function Value(): Frame
      reads this
    {
      Frame(columns, kinds, rows)
    }

    ghost predicate Valid()
      reads this
    {
      WellFormed(Value())
    }

    constructor (f: Frame)
      requires WellFormed(f)
      ensures Valid() && Value() == f
    {
      columns, kinds, rows := f.columns, f.kinds, f.rows;
    }

    /** `df.columns = names`. */
    method SetColumns(names: seq<string>)
      requires Valid() && |names| == |columns|
      modifies this
      ensures Valid() && Value() == old(Value()).(columns := names)
    {
      columns := names;
    }

    /** `df.dropna(axis=0, how="all", inplace=True)`. */
    method DropEmptyRows()
      requires Valid()
      modifies this
      ensures Valid() && Value() == Cleaning.DropEmptyRows(old(Value()))
    {
      rows := Cleaning.DropEmptyRows(Value()).rows;
    }

    /** `df.dropna(axis=1, how="all", inplace=True)`. */
    method DropEmptyColumns()
      requires Valid()
      modifies this
      ensures Valid() && Value() == Cleaning.DropEmptyColumns(old(Value()))
    {
      var r := Cleaning.DropEmptyColumns(Value());
      columns, kinds, rows := r.columns, r.kinds, r.rows;
    }

    /** `df.drop_duplicates(inplace=True)`. */
    method DropDuplicates()
      requires Valid()
      modifies this
      ensures Valid() && Value() == DropDuplicateRows(old(Value()))
    {
      rows := DropDuplicateRows(Value()).rows;
    }

    /** `df[col].isnull().any()` for column `j`. */
    predicate HasGap(j: nat)
      reads this
    {
      Missing in Column(rows, j)
    }

    /** `df[col].fillna(v, inplace=True)` for column `j`: the gaps of the
        column take `v`, every other cell stays. */
    method FillNa(j: nat, v: Cell)
      requires Valid() && j < |columns| && Fits(kinds[j], v)
      modifies this
      ensures Valid()
      ensures columns == old(columns) && kinds == old(kinds)
      ensures rows == UpdateColumn(old(rows), j, FillWith(v))
    {
      assert forall i :: 0 <= i < |rows| ==> RowFits(kinds, rows[i]);
      rows := UpdateColumn(rows, j, FillWith(v));
    }

    /** `df[col] = df[col].astype(str).str.strip()` for string or category
        column `j`: its cells become stripped strings and the column becomes
        an object column. */
    method StripColumn(j: nat)
      requires Valid() && j < |columns| && kinds[j] in Categorical
      modifies this
      ensures Valid()
      ensures columns == old(columns) && kinds == old(kinds)[j := Object]
      ensures rows == UpdateColumn(old(rows), j, StripText)
    {
      ghost var k0 := kinds;
      assert forall i :: 0 <= i < |rows| ==> RowFits(k0, rows[i]);
      rows := UpdateColumn(rows, j, StripText);
      kinds := kinds[j := Object];
      forall i | 0 <= i < |rows| ensures RowFits(kinds, rows[i]) {
        assert RowFits(k0, old(rows)[i]);
      }
    }
  }

  /** `replace_na_like_values(df)`: a new frame with the NA-like strings made
      missing; `df` itself is left alone. */
  method ReplaceNaLikeValues(df: DataFrame) returns (r: DataFrame)
    requires df.Valid()
    ensures fresh(r) && r.Valid() && r.Value() == ReplaceNaLike(df.Value())
  {
    r := new DataFrame(ReplaceNaLike(df.Value()));
  }

  /** `normalize_column_names(df)`: the frame takes the normalized names, which
      are also returned. */
  method NormalizeColumnNames(df: DataFrame) returns (cleaned: seq<string>)
    requires df.Valid()
    modifies df
    ensures cleaned == NormalizeNames(old(df.columns))
    ensures df.Valid() && df.Value() == NormalizeHeaders(old(df.Value()))
  {
    cleaned := NormalizeNames(df.columns);
    df.SetColumns(cleaned);
  }

  /** `clean_dataframe(df)`: tidies the headers, drops all-missing rows and
      columns and duplicate rows and strips the object columns, all in `df`
      itself, then returns a new frame with the NA-like strings replaced. */
  method CleanDataFrame(df: DataFrame) returns (r: DataFrame)
    requires df.Valid()
    modifies df
    ensures df.Valid() && df.Value() == CleanedInPlace(old(df.Value()))
    ensures fresh(r) && r.Valid() && r.Value() == CleanedFrame(old(df.Value()))
  {
    df.SetColumns(TidyHeaders(df.Value()).columns);
    df.DropEmptyRows();
    df.DropEmptyColumns();
    df.DropDuplicates();
    StripObjectColumns(df);
    r := ReplaceNaLikeValues(df);
  }

  /** The strip loop of `clean_dataframe`, over the object columns. */
  method StripObjectColumns(df: DataFrame)
    requires df.Valid()
    modifies df
    ensures df.Valid() && df.Value() == StripObjects(old(df.Value()))
  {
    ghost var g := df.Value();
    var objects := KindMask(df.kinds, {Object});
    MapColumnsNone(g.rows, objects, StripText);
    var j := 0;
    while j < |df.columns|
      invariant 0 <= j <= |df.columns| == |g.columns|
      invariant df.Valid() && df.columns == g.columns && df.kinds == g.kinds
      invariant df.rows == MapColumns(g.rows, objects, StripText, j)
    {
      assert forall i :: 0 <= i < |g.rows| ==> RowFits(g.kinds, g.rows[i]);
      MapColumnsStep(g.rows, objects, StripText, j);
      if objects[j] {
        df.StripColumn(j);
        assert df.kinds == g.kinds;
      }
      j := j + 1;
    }
  }

  /** The error `os.makedirs` raises for an empty directory name. */
  const NoDirectory: Exception := FileNotFoundError("[Errno 2] No such file or directory: ''")

  /** `os.makedirs(dir, exist_ok=True)` followed by a `to_csv` into it: an
      empty `dir` fails, and otherwise `write` is what the file system does. */
  function SaveCsv(dir: string, write: Option<Exception>): (e: Option<Exception>)
    ensures dir == [] ==> e == Some(NoDirectory)
    ensures dir != [] ==> e == write
    ensures e.None? <==> dir != [] && write.None?
  {
    if dir == [] then Some(NoDirectory) else write
  }

  /** The median fill loop of `clean_data_file` (step 4). */
  method FillNumericGaps(df: DataFrame)
    requires df.Valid()
    modifies df
    ensures df.Valid() && df.Value() == FillMedians(old(df.Value()))
  {
    ghost var g := df.Value();
    var numeric := KindMask(df.kinds, {Numeric});
    MapColumnsNone(g.rows, numeric, FillGaps(MedianFills(g)));
    var j := 0;
    while j < |df.columns|
      invariant 0 <= j <= |df.columns| == |g.columns|
      invariant df.Valid() && df.columns == g.columns && df.kinds == g.kinds
      invariant df.rows == MapColumns(g.rows, numeric, FillGaps(MedianFills(g)), j)
    {
      FillNumericColumn(df, g, numeric, j);
      j := j + 1;
    }
    assert df.Value() == g.(rows := MapColumns(g.rows, numeric, FillGaps(MedianFills(g)), |g.columns|));
  }

  /** One pass of the median fill loop, over column `j`. */
  method FillNumericColumn(df: DataFrame, ghost g: Frame, numeric: seq<bool>, j: nat)
    requires WellFormed(g) && numeric == KindMask(g.kinds, {Numeric}) && j < |g.columns|
    requires df.Valid() && df.columns == g.columns && df.kinds == g.kinds
    requires df.rows == MapColumns(g.rows, numeric, FillGaps(MedianFills(g)), j)
    modifies df
    ensures df.Valid() && df.columns == g.columns && df.kinds == g.kinds
    ensures df.rows == MapColumns(g.rows, numeric, FillGaps(MedianFills(g)), j + 1)
  {
    assert forall i :: 0 <= i < |g.rows| ==> RowFits(g.kinds, g.rows[i]);
    MapColumnsStep(g.rows, numeric, FillGaps(MedianFills(g)), j);
    if numeric[j] {
      assert forall i :: 0 <= i < |df.rows| ==> RowFits(df.kinds, df.rows[i]);
      if df.HasGap(j) {
        MapColumnsUntouched(g.rows, numeric, FillGaps(MedianFills(g)), j);
        var median := Median(Numbers(Column(df.rows, j)));
        var fill := match median case Some(m) => Num(m) case None => Missing;
        FillWithGaps(df.rows, j, MedianFills(g));
        df.FillNa(j, fill);
      } else {
        GaplessColumn(df.rows, j, FillGaps(MedianFills(g)));
      }
    }
  }

  /** The mode fill loop of `clean_data_file` (step 5). */
  method FillCategoricalGaps(df: DataFrame)
    requires df.Valid()
    modifies df
    ensures df.Valid() && df.Value() == FillModes(old(df.Value()))
  {
    ghost var g := df.Value();
    var categorical := KindMask(df.kinds, Categorical);
    MapColumnsNone(g.rows, categorical, FillGaps(ModeFills(g)));
    var j := 0;
    while j < |df.columns|
      invariant 0 <= j <= |df.columns| == |g.columns|
      invariant df.Valid() && df.columns == g.columns && df.kinds == g.kinds
      invariant df.rows == MapColumns(g.rows, categorical, FillGaps(ModeFills(g)), j)
    {
      FillCategoricalColumn(df, g, categorical, j);
      j := j + 1;
    }
    assert df.Value() == g.(rows := MapColumns(g.rows, categorical, FillGaps(ModeFills(g)), |g.columns|));
  }

  /** One pass of the mode fill loop, over column `j`. */
  method FillCategoricalColumn(df: DataFrame, ghost g: Frame, categorical: seq<bool>, j: nat)
    requires WellFormed(g) && categorical == KindMask(g.kinds, Categorical) && j < |g.columns|
    requires df.Valid() && df.columns == g.columns && df.kinds == g.kinds
    requires df.rows == MapColumns(g.rows, categorical, FillGaps(ModeFills(g)), j)
    modifies df
    ensures df.Valid() && df.columns == g.columns && df.kinds == g.kinds
    ensures df.rows == MapColumns(g.rows, categorical, FillGaps(ModeFills(g)), j + 1)
  {
    assert forall i :: 0 <= i < |g.rows| ==> RowFits(g.kinds, g.rows[i]);
    MapColumnsStep(g.rows, categorical, FillGaps(ModeFills(g)), j);
    if categorical[j] {
      assert forall i :: 0 <= i < |df.rows| ==> RowFits(df.kinds, df.rows[i]);
      if df.HasGap(j) {
        MapColumnsUntouched(g.rows, categorical, FillGaps(ModeFills(g)), j);
        var mode := Mode(Texts(Column(df.rows, j)));
        var fill := Text(match mode case Some(v) => v case None => "Unknown");
        FillWithGaps(df.rows, j, ModeFills(g));
        df.FillNa(j, fill);
      } else {
        GaplessColumn(df.rows, j, FillGaps(ModeFills(g)));
      }
    }
  }

  /** A fill changes nothing in a column without gaps. */
  lemma GaplessColumn(rows: seq<seq<Cell>>, j: nat, op: ColumnOp)
    requires op.FillGaps? || op.FillWith?
    requires forall i :: 0 <= i < |rows| ==> j < |rows[i]|
    requires Missing !in Column(rows, j)
    ensures UpdateColumn(rows, j, op) == rows
  {
    forall i | 0 <= i < |rows| ensures ApplyOp(op, j, rows[i][j]) == rows[i][j] {
      assert Column(rows, j)[i] == rows[i][j];
    }
    UpdateColumnIdle(rows, j, op);
  }

  /** The strip loop of `clean_data_file` (step 6), over the string and
      category columns chosen before step 5. */
  method StripCategoricalColumns(df: DataFrame)
    requires df.Valid()
    modifies df
    ensures df.Valid() && df.Value() == StripCategorical(old(df.Value()))
  {
    ghost var g := df.Value();
    var categorical := KindMask(df.kinds, Categorical);
    MapColumnsNone(g.rows, categorical, StripText);
    PartlyStrippedBounds(g.kinds);
    var j := 0;
    while j < |df.columns|
      invariant 0 <= j <= |df.columns| == |g.columns| == |g.kinds|
      invariant df.Valid() && df.columns == g.columns
      invariant df.kinds == PartlyStripped(g.kinds, j)
      invariant df.rows == MapColumns(g.rows, categorical, StripText, j)
    {
      StripCategoricalColumn(df, g, categorical, j);
      j := j + 1;
    }
    assert df.Value() == Frame(g.columns, StrippedKinds(g.kinds), MapColumns(g.rows, categorical, StripText, |g.columns|));
  }

  /** One pass of the strip loop, over column `j`. */
  method StripCategoricalColumn(df: DataFrame, ghost g: Frame, categorical: seq<bool>, j: nat)
    requires WellFormed(g) && categorical == KindMask(g.kinds, Categorical) && j < |g.columns|
    requires df.Valid() && df.columns == g.columns && df.kinds == PartlyStripped(g.kinds, j)
    requires df.rows == MapColumns(g.rows, categorical, StripText, j)
    modifies df
    ensures df.Valid() && df.columns == g.columns && df.kinds == PartlyStripped(g.kinds, j + 1)
    ensures df.rows == MapColumns(g.rows, categorical, StripText, j + 1)
  {
    assert forall i :: 0 <= i < |g.rows| ==> RowFits(g.kinds, g.rows[i]);
    MapColumnsStep(g.rows, categorical, StripText, j);
    PartlyStrippedStep(g.kinds, j);
    if categorical[j] {
      df.StripColumn(j);
    }
  }

  /** The kinds once the strip loop has visited the columns below `j`. */
  ghost function PartlyStripped(kinds: seq<Kind>, j: nat): (r: seq<Kind>)
    ensures |r| == |kinds|
  {
    seq(|kinds|, k requires 0 <= k < |kinds| => if k < j && kinds[k] in Categorical then Object else kinds[k])
  }

  /** No column visited: the kinds as they were; all visited: the kinds of
      `StripCategorical`. */
  lemma PartlyStrippedBounds(kinds: seq<Kind>)
    ensures PartlyStripped(kinds, 0) == kinds
    ensures PartlyStripped(kinds, |kinds|) == StrippedKinds(kinds)
  {
  }

  /** Visiting column `j` turns it into an object column when it is a string
      or category column. */
  lemma PartlyStrippedStep(kinds: seq<Kind>, j: nat)
    requires j < |kinds|
    ensures PartlyStripped(kinds, j)[j] == kinds[j]
    ensures PartlyStripped(kinds, j + 1) ==
      if kinds[j] in Categorical then PartlyStripped(kinds, j)[j := Object] else PartlyStripped(kinds, j)
  {
  }

  /** `clean_data_file(df, output_path)`: steps 1 to 6 change `df` in place;
      step 7 then creates the directory of `output_path` and writes the CSV,
      which fails when the path has no directory part. `write` is the outcome
      of that write otherwise. */
  method CleanDataFile(df: DataFrame, outputPath: string, write: Option<Exception>) returns (r: Result<DataFrame>)
    requires df.Valid()
    modifies df
    ensures df.Valid() && df.Value() == CleanedDataFile(old(df.Value()))
    ensures r == match SaveCsv(Dirname(outputPath), write) case Some(e) => Err(e) case None => Ok(df)
  {
    df.DropEmptyColumns();
    df.DropDuplicates();
    var _ := NormalizeColumnNames(df);
    FillNumericGaps(df);
    FillCategoricalGaps(df);
    StripCategoricalColumns(df);
    match SaveCsv(Dirname(outputPath), write)
    case Some(e) => r := Err(e);
    case None => r := Ok(df);
  }

  /** `clean_data(input_path, output_path)`: parse, refuse an empty table,
      clean, normalize the names and write the CSV. Every exception is
      re-raised as it is. */
  method CleanData(inputPath: string, outputPath: string, io: Io, write: Option<Exception>) returns (r: Result<DataFrame>)
    requires IoWellFormed(io)
    ensures match ParseFile(inputPath, io)
      case Err(e) => r == Err(e)
      case Ok(f) =>
        if IsEmpty(f) then r == Err(ValueError("Parsed file is empty"))
        else match SaveCsv(Dirname(outputPath), write)
          case Some(e) => r == Err(e)
          case None => r.Ok? && fresh(r.value) && r.value.Valid()
                       && r.value.Value() == NormalizeHeaders(CleanedFrame(f))
  {
    var parsed := ParseFile(inputPath, io);
    if parsed.Err? {
      return Err(parsed.error);
    }
    if IsEmpty(parsed.value) {
      return Err(ValueError("Parsed file is empty"));
    }
    var df := new DataFrame(parsed.value);
    df := CleanDataFrame(df);
    var _ := NormalizeColumnNames(df);
    match SaveCsv(Dirname(outputPath), write)
    case Some(e) => r := Err(e);
    case None => r := Ok(df);
  }

  // ---------------------------------------------------------------------------
  // Reports

  /** The dict `generate_cleaning_report` returns; a dtype is shown as its
      kind. */
  datatype CleaningSummary = CleaningSummary(
    columns: seq<string>, nullCounts: Dict<nat>, dtypes: Dict<Kind>, numRows: nat)

  /** Each column name with its number of missing cells, in column order. */
  function NullPairs(f: Frame): (ps: seq<(string, nat)>)
    ensures |ps| == |f.columns|
    ensures forall j :: 0 <= j < |f.columns| ==> ps[j] == (f.columns[j], NullCount(Column(f.rows, j)))
  {
    seq(|f.columns|, j requires 0 <= j < |f.columns| => (f.columns[j], NullCount(Column(f.rows, j))))
  }

  /** Each column name with its kind, in column order. */
  function KindPairs(f: Frame): (ps: seq<(string, Kind)>)
    requires |f.kinds| == |f.columns|
    ensures |ps| == |f.columns|
    ensures forall j :: 0 <= j < |f.columns| ==> ps[j] == (f.columns[j], f.kinds[j])
  {
    seq(|f.columns|, j requires 0 <= j < |f.columns| => (f.columns[j], f.kinds[j]))
  }

  /** `generate_cleaning_report(df)`: the column names in order, a dict of
      missing-cell counts and one of dtypes keyed by column name (a repeated
      name keeps its first place and its last value), and the row count. */
  function GenerateCleaningReport(f: Frame): (r: CleaningSummary)
    requires |f.kinds| == |f.columns|
    ensures r.columns == f.columns && r.numRows == |f.rows|
    ensures Keys(r.nullCounts) == Dedup(f.columns) && Keys(r.dtypes) == Dedup(f.columns)
  {
    var np, kp := NullPairs(f), KindPairs(f);
    assert Keys(np) == f.columns && Keys(kp) == f.columns;
    FromPairsKeys(np);
    FromPairsKeys(kp);
    CleaningSummary(f.columns, FromPairs(np), FromPairs(kp), |f.rows|)
  }

  /** The report lists the columns in table order and counts the rows; with
      distinct column names it has one entry per column in each dict, giving
      that column's missing-cell count and its dtype. */
  lemma CleaningReportContents(f: Frame, j: nat)
    requires |f.kinds| == |f.columns| && Distinct(f.columns) && j < |f.columns|
    ensures var r := GenerateCleaningReport(f);
      && r.columns == f.columns && r.numRows == |f.rows|
      && Keys(r.nullCounts) == f.columns && Keys(r.dtypes) == f.columns
      && Get(r.nullCounts, f.columns[j]) == Some(NullCount(Column(f.rows, j)))
      && Get(r.dtypes, f.columns[j]) == Some(f.kinds[j])
  {
    var np, kp := NullPairs(f), KindPairs(f);
    assert Keys(np) == f.columns && Keys(kp) == f.columns;
    FromPairsKeys(np);
    FromPairsKeys(kp);
    DedupOfDistinct(f.columns);
    FromPairsDistinctGet(np, j);
    FromPairsDistinctGet(kp, j);
  }

  /** The dict `clean_and_report` returns beside the path. */
  datatype Report = Report(
    status: string,
    originalFile: string,
    cleanedFilePath: string,
    originalRows: nat,
    cleanedRows: nat,
    numColumns: nat,
    duplicatesRemoved: int,
    normalizedColumns: seq<string>,
    nullSummary: Dict<nat>,
    outliersDetected: Dict<nat>,
    error: Option<string>)

  /** The report of a failed run: status "error", no path, zero counts, empty
      collections and the exception's text. */
  function ErrorReport(filePath: string, e: Exception): (r: Report)
    ensures r.status == "error" && r.originalFile == filePath && r.error == Some(e.msg)
    ensures r.cleanedFilePath == ""
  {
    Report("error", filePath, "", 0, 0, 0, 0, [], [], [], Some(e.msg))
  }

  /** `os.path.join(output_dir, f"{base}_cleaned.csv")`, where `base` is the
      file name without its last extension. */
  function CleanedPath(filePath: string, outputDir: string): (p: string)
    ensures EndsWith(p, BeforeLastDot(Basename(filePath)) + "_cleaned.csv")
  {
    JoinPath(outputDir, BeforeLastDot(Basename(filePath)) + "_cleaned.csv")
  }

  /** The report of a successful run on the parsed table `f`. */
  function SuccessReport(filePath: string, path: string, f: Frame): (r: Report)
    requires WellFormed(f)
    ensures r.status == "success" && r.error == None
    ensures r.originalFile == filePath && r.cleanedFilePath == path && r.originalRows == |f.rows|
    ensures 0 <= r.duplicatesRemoved == r.originalRows - r.cleanedRows
  {
    CleanedFrameShape(f);
    var c := NormalizeHeaders(CleanedFrame(f));
    Report("success", filePath, path, |f.rows|, |c.rows|, |c.columns|, |f.rows| - |c.rows|,
      c.columns, FromPairs(NullPairs(c)), DetectOutliers(c), None)
  }

  /** What `clean_and_report(file_path, output_dir)` returns when parsing
      yields `parsed`: a failure to parse, an empty table or a failed write
      gives the error report; it never raises. */
  function ReportOutcome(filePath: string, outputDir: string, parsed: Result<Frame>, write: Option<Exception>): (r: (string, Report))
    requires parsed.Ok? ==> WellFormed(parsed.value)
    ensures r.1.status == "success" || r.1.status == "error"
    ensures r.1.status == "error" <==> r.1.error.Some?
    ensures r.1.originalFile == filePath && r.0 == r.1.cleanedFilePath
    ensures r.1.status == "success" ==>
      parsed.Ok? && r.1 == SuccessReport(filePath, CleanedPath(filePath, outputDir), parsed.value)
  {
    match parsed
    case Err(e) => ("", ErrorReport(filePath, e))
    case Ok(f) =>
      if IsEmpty(f) then ("", ErrorReport(filePath, ValueError("Parsed DataFrame is empty")))
      else match SaveCsv(outputDir, write)
        case Some(e) => ("", ErrorReport(filePath, e))
        case None =>
          var path := CleanedPath(filePath, outputDir);
          (path, SuccessReport(filePath, path, f))
  }

  /** `clean_and_report(file_path, output_dir)`. */
  method CleanAndReport(filePath: string, outputDir: string, io: Io, write: Option<Exception>)
    returns (path: string, report: Report)
    requires IoWellFormed(io)
    ensures (path, report) == ReportOutcome(filePath, outputDir, ParseFile(filePath, io), write)
  {
    var parsed := ParseFile(filePath, io);
    if parsed.Err? {
      assert ("", ErrorReport(filePath, parsed.error)) == ReportOutcome(filePath, outputDir, parsed, write);
      return "", ErrorReport(filePath, parsed.error);
    }
    if IsEmpty(parsed.value) {
      assert ("", ErrorReport(filePath, ValueError("Parsed DataFrame is empty"))) == ReportOutcome(filePath, outputDir, parsed, write);
      return "", ErrorReport(filePath, ValueError("Parsed DataFrame is empty"));
    }
    var cleanedPath := CleanedPath(filePath, outputDir);
    var summary := SummarizeCleaning(filePath, cleanedPath, parsed.value);
    match SaveCsv(outputDir, write)
    case Some(e) =>
      assert ("", ErrorReport(filePath, e)) == ReportOutcome(filePath, outputDir, parsed, write);
      return "", ErrorReport(filePath, e);
    case None =>
      path, report := cleanedPath, summary;
      assert (path, report) == ReportOutcome(filePath, outputDir, parsed, write);
  }

  /** The success branch of `clean_and_report`: clean a copy of the table,
      normalise its headers and collect the counts. */
  method SummarizeCleaning(filePath: string, cleanedPath: string, f: Frame) returns (report: Report)
    requires WellFormed(f)
    ensures report == SuccessReport(filePath, cleanedPath, f)
  {
    var df := new DataFrame(f);
    var originalRows := |df.rows|;
    df := CleanDataFrame(df);
    var cleanedRows := |df.rows|;
    var normalizedColumns := NormalizeColumnNames(df);
    ghost var c := NormalizeHeaders(CleanedFrame(f));
    assert df.Value() == c;
    var nullSummary := FromPairs(NullPairs(df.Value()));
    var outlierSummary := DetectOutliers(df.Value());
    report := Report("success", filePath, cleanedPath, originalRows, cleanedRows, |df.columns|,
      originalRows - cleanedRows, normalizedColumns, nullSummary, outlierSummary, None);
  }

  /** `clean_and_report` fails exactly when parsing fails, the table is empty,
      or the directory cannot be made or written; the failure comes with no
      path and the error report, and a success with a path ending in
      `<base>_cleaned.csv` under `output_dir`. */
  lemma CleanAndReportStatus(filePath: string, outputDir: string, parsed: Result<Frame>, write: Option<Exception>)
    requires parsed.Ok? ==> WellFormed(parsed.value)
    ensures var (path, r) := ReportOutcome(filePath, outputDir, parsed, write);
      && (r.status == "error" <==> parsed.Err? || IsEmpty(parsed.value) || outputDir == [] || write.Some?)
      && (r.status == "error" || r.status == "success")
      && (r.status == "error" ==>
            path == "" && r.cleanedFilePath == "" && r.error.Some?
            && r.originalRows == 0 && r.cleanedRows == 0 && r.numColumns == 0 && r.duplicatesRemoved == 0
            && r.normalizedColumns == [] && r.nullSummary == [] && r.outliersDetected == [])
      && (r.status == "success" ==>
            path == r.cleanedFilePath == JoinPath(outputDir, BeforeLastDot(Basename(filePath)) + "_cleaned.csv")
            && EndsWith(path, "_cleaned.csv") && r.error == None)
  {
    var (path, r) := ReportOutcome(filePath, outputDir, parsed, write);
    if r.status == "success" {
      EndsWithSuffix(path, BeforeLastDot(Basename(filePath)), "_cleaned.csv");
    }
  }

  /** `duplicates_removed` is the number of rows lost between parsing and
      cleaning: never negative, it counts the rows dropped for having no value
      as well as the repeated rows dropped by `drop_duplicates`. */
  lemma DuplicatesRemovedCounts(filePath: string, outputDir: string, parsed: Result<Frame>, write: Option<Exception>)
    requires parsed.Ok? ==> WellFormed(parsed.value)
    requires ReportOutcome(filePath, outputDir, parsed, write).1.status == "success"
    ensures var f := parsed.value;
      var r := ReportOutcome(filePath, outputDir, parsed, write).1;
      var kept := DropEmptyColumns(DropEmptyRows(TidyHeaders(f))).rows;
      && r.originalRows == |f.rows|
      && r.duplicatesRemoved == r.originalRows - r.cleanedRows
      && r.duplicatesRemoved == (|f.rows| - |Filter(f.rows, HasValue)|) + (|kept| - |Dedup(kept)|)
      && |f.rows| - |Filter(f.rows, HasValue)| >= 0 && |kept| - |Dedup(kept)| >= 0
      && ((forall i :: 0 <= i < |f.rows| ==> HasValue(f.rows[i])) && Distinct(kept) ==> r.duplicatesRemoved == 0)
  {
    var f := parsed.value;
    CleanedRowCount(f);
    var kept := DropEmptyColumns(DropEmptyRows(TidyHeaders(f))).rows;
    if (forall i :: 0 <= i < |f.rows| ==> HasValue(f.rows[i])) && Distinct(kept) {
      FilterAll(f.rows, HasValue);
      DedupOfDistinct(kept);
    }
  }

  /** The rows `clean_dataframe` keeps: those with a value, once each. */
  lemma CleanedRowCount(f: Frame)
    requires WellFormed(f)
    ensures var kept := DropEmptyColumns(DropEmptyRows(TidyHeaders(f))).rows;
      && |NormalizeHeaders(CleanedFrame(f)).rows| == |Dedup(kept)|
      && |kept| == |Filter(f.rows, HasValue)|
  {
  }
}
